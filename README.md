# Package resolution for the devbox lock file

This project models how devbox turns a package spec such as `python@3.11.4` into a
lock-file `Package` record (`internal/lock/resolve.go`), and proves what that record
contains. It covers:

- the order in which the input is checked: a missing version first, then the RunX short cut, then one of two search protocols;
- the enriched ("v2") protocol, whose per-platform systems map keeps the first output's path of every platform that has outputs;
- the legacy protocol: platform selection, the `NoSystems` and `NoAttrPaths` errors, and the `github:NixOS/nixpkgs/<commit>#<attr>` locator;
- the store-path fan-out of the legacy protocol, which drops platforms without cache data and absorbs failed lookups;
- `selectForSystem`, the fallback choice of one platform: the running one, then `x86_64-linux`, then any entry.

Modules:

- `Wrappers`: `Option` and `Result`.
- `LockTypes`: the search replies, `Package`/`SystemInfo`, the error taxonomy, the constants, and a `Services` record of oracles for everything resolve.go calls but does not define.
- `SystemSelect`: `selectForSystem`.
- `StorePaths`: `buildLockSystemInfos`.
- `Resolve`: `resolveV2` and `FetchResolvedPackage`.
- `ResolveScenarios`: worked examples.

Foreign collaborators are parameters, bundled in `LockTypes.Services`:

- `current`: the running platform (`nix.System`).
- `parse`: the spec parser (`searcher.ParseVersionedPackage`).
- `isRunX` and `runX`: the RunX test and the RunX resolver.
- `search` and `resolveV2`: the two search calls.
- `storePath`: `nix.StorePathFromHashPart`.
- `formatUnix`: Unix-seconds-to-RFC 3339 (UTC) formatting.

The two feature flags are a `Flags` parameter. Map iteration, whose order Go leaves
unspecified, is modelled by choosing with `:|`. The third tier of platform selection
is therefore specified by the predicate `Selectable`, which admits every value of
the map.

resolve.go has no reader for the legacy locator. `Resolve.ParseNixpkgsInstallable`
(with its helper `Resolve.IndexOfHash`) is a reference reader, added only so that
`Resolve.InstallableRoundTrip` can state that the locator is unambiguous.

Two behaviours of the code that the contracts reflect:

- Every error of the legacy search call is reported as package-not-found (resolve.go:50-53), not only a missing match.
- The returned `Version` is copied from the RunX resolver's answer (resolve.go:43) or from the search service's answer (resolve.go:79, 100) without a check that it is non-empty. So no contract promises a non-empty version.

## Model

| member | source | states |
|---|---|---|
| SystemSelect.SelectForSystem | internal/lock/resolve.go:113-124 | fails (with NoSystems) exactly when the map is empty; otherwise returns the running platform's value if present, else the x86_64-linux value if present, else some value of the map |
| SystemSelect.SelectableIsValue | internal/lock/resolve.go:120-122 | every admissible selection is one of the map's values |
| SystemSelect.SelectableExistsIffNonEmpty | internal/lock/resolve.go:113-123 | a selection exists if and only if the map is non-empty |
| SystemSelect.SelectionDeterminedByPreferredKey | internal/lock/resolve.go:114-119 | when the running platform or x86_64-linux has an entry, the selection is that entry (running platform first) |
| StorePaths.BuildLockSystemInfos | internal/lock/resolve.go:126-173 | result holds exactly the platforms with store data whose lookup in https://cache.nixos.org succeeded, each with the returned path; failed lookups are omitted and the call never fails |
| StorePaths.FanoutBound | internal/lock/resolve.go:128-130 | result keys are a subset of the platforms with store data, so with N platforms of which K lack data there are at most N - K entries |
| StorePaths.FailedLookupDropsOnlyItsPlatform | internal/lock/resolve.go:143-158 | a platform whose lookup fails is absent, and the result equals the fan-out over the input without that platform |
| StorePaths.AllLookupsFailing | internal/lock/resolve.go:143-172 | when every lookup fails the call still returns, with an empty map |
| Resolve.InstallableRoundTrip | internal/lock/resolve.go:74-78 | the legacy locator github:NixOS/nixpkgs/<commit>#<attr> reads back as the same commit and attribute path when the commit has no '#' |
| Resolve.ResolveV2 | internal/lock/resolve.go:85-111 | not-found becomes PackageNotFound(name, version) and other failures an error; on success: the reply's version, the devbox-search source, the locator and time of a selectable platform, and a systems map with exactly the platforms that have outputs, each with Outputs[0].Path |
| Resolve.LegacyUsesCurrentPlatform | internal/lock/resolve.go:62-78 | when the running platform is in the legacy reply with attribute paths, resolution succeeds and Resolved is github:NixOS/nixpkgs/ + its CommitHash + # + its AttrPaths[0] |
| Resolve.FetchResolvedPackage | internal/lock/resolve.go:30-83 | empty version fails with MissingVersion and no outbound call; a RunX package calls only the RunX resolver; otherwise exactly one search call is made. Legacy: a search failure is PackageNotFound(name, version); NoSystems iff no platforms; NoAttrPaths only for a selected platform without attribute paths. Legacy success: locator and time from a selected platform with attribute paths; systems are the fan-out's result when nixpkgs removal is on, else empty |
| ResolveScenarios.PythonFanout | internal/lock/resolve.go:126-173 | python@3.11.4 with lookups succeeding for x86_64-linux and failing for aarch64-darwin yields only the x86_64-linux entry with its store path |
| ResolveScenarios.SingleOtherPlatform | internal/lock/resolve.go:120-122 | with neither preferred platform present and a single entry, that entry is selected |
| ResolveScenarios.DefaultPlatformPreferred | internal/lock/resolve.go:117-119 | on a machine with no entry of its own, x86_64-linux wins over another platform |

## Left out

- Network and foreign calls are oracles in `LockTypes.Services`, and each is taken to answer the same question the same way. The oracles stand for the search client, the RunX resolver, `nix.StorePathFromHashPart`, `nix.System`, `searcher.ParseVersionedPackage` and `pkgtype.IsRunX`.
- Concurrency in `buildLockSystemInfos`: the errgroup, goroutines and `sync.RWMutex` (resolve.go:132-160) become a sequential loop over the platforms. The result is a map keyed by platform, so the order of the lookups does not show in it.
- The `group.Wait()` error (resolve.go:161-164) can only come from cancelling the context, so the model has no error result for the fan-out.
- Resolve.ResolveV2: the error that `selectForSystem` returns and the code discards (resolve.go:94-95) is excluded by the precondition that a found reply has at least one platform (`V2ReplyHasSystems`). The code states this precondition as a comment about the service.
- Resolve.FetchResolvedPackage: the `calls` trace records calls to the search service and the RunX resolver only. It omits the store-path lookups of the fan-out, which the code makes before `selectForSystem` whether or not selection then fails.
- Time formatting is opaque. Legacy `LastUpdated` goes through the `formatUnix` oracle (resolve.go:72-73). The enriched reply's `LastUpdated` is a time value that resolve.go:97 formats; the model uses the rendered RFC 3339 string in its place.
- `FlakeInstallable.String()` and the RunX reference's `String()` are opaque strings.
- Errors form an enum without message text; `usererr`, `redact` and `errors.Wrapf` wrapping and `debug.Log` are not modelled. Any RunX resolver error is `RunXFailed`. Any enriched-search error other than not-found is `SearchFailed`.
- `devboxSearchSource` is declared elsewhere in the lock package, which is not part of this model. The model uses the value "devbox-search".
- `context.TODO()` and context propagation are not modelled.
