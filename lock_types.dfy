/**
 * The values that package resolution reads and produces: the search service's
 * replies (legacy and enriched protocols), the lock-file `Package` record with its
 * per-platform `SystemInfo`, the error taxonomy, and the constants of resolve.go.
 */
module LockTypes {
  import opened Wrappers

  /** A platform identifier such as "x86_64-linux". */
  type Platform = string

  /** The platform tried second when the current one has no entry. */
  const DefaultSystem: Platform := "x86_64-linux"

  /** The binary cache every store-path lookup is made against. */
  const BinaryCache: string := "https://cache.nixos.org"

  /** The fixed head of a legacy nixpkgs locator: github:NixOS/nixpkgs/<commit>#<attr>. */
  const NixpkgsFlakePrefix: string := "github:NixOS/nixpkgs/"

  /** The provenance tag of a record resolved through the search service. */
  const DevboxSearchSource: string := "devbox-search"

  /** Why a resolution failed; message texts are not modelled. */
  datatype Error =
    | MissingVersion                              // no version in the package spec
    | PackageNotFound(name: string, version: string)
    | NoSystems                                   // selection over an empty platform map
    | NoAttrPaths                                 // chosen legacy platform has no attribute path
    | RunXFailed                                  // the RunX resolver returned an error
    | SearchFailed                                // enriched search failed other than by not-found

  /** Per-platform entry of the lock file. */
  datatype SystemInfo = SystemInfo(storePath: string)

  /** The lock-file record `FetchResolvedPackage` produces. */
  datatype Package = Package(
    lastModified: string,
    resolved: string,
    version: string,
    source: string,
    systems: map<Platform, SystemInfo>)

  /** A package spec split into name and version by the search client's parser. */
  datatype ParsedPackage = ParsedPackage(name: string, version: string)

  /** What the RunX resolver answers: the reference (rendered) and its version. */
  datatype RunXRef = RunXRef(reference: string, version: string)

  /** One platform of a legacy search reply; `lastUpdated` is Unix seconds. */
  datatype PackageInfo = PackageInfo(
    attrPaths: seq<string>,
    commitHash: string,
    version: string,
    lastUpdated: int,
    storeHash: string,
    storeName: string)

  /** A legacy search reply: one record per platform. */
  datatype PackageVersion = PackageVersion(systems: map<Platform, PackageInfo>)

  /** One output of a platform in an enriched reply. */
  datatype Output = Output(path: string)

  /**
   * One platform of an enriched reply. `flakeInstallable` is the rendered
   * installable and `lastUpdated` the rendered RFC 3339 time; both are opaque here.
   */
  datatype SystemPackage = SystemPackage(
    flakeInstallable: string,
    lastUpdated: string,
    outputs: seq<Output>)

  /** A successful enriched reply. */
  datatype ResolveResponse = ResolveResponse(version: string, systems: map<Platform, SystemPackage>)

  /** The three ways the enriched search call can end. */
  datatype V2Reply = V2Found(response: ResolveResponse) | V2NotFound | V2Failed

  /**
   * The collaborators resolve.go calls but does not define, as pure oracles:
   * the running platform, the spec parser, the RunX test and resolver, both search
   * protocols, the store-path lookup by hash part and cache URL, and the
   * Unix-seconds-to-RFC 3339 (UTC) formatter.
   */
  datatype Services = Services(
    current: Platform,
    parse: string -> ParsedPackage,
    isRunX: string -> bool,
    runX: string -> Option<RunXRef>,
    search: (string, string) -> Option<PackageVersion>,
    resolveV2: (string, string) -> V2Reply,
    storePath: (string, string) -> Option<string>,
    formatUnix: int -> string)

  /** The two feature flags that steer resolution. */
  datatype Flags = Flags(resolveV2: bool, removeNixpkgs: bool)

  /** An outbound call to the search service or the RunX resolver. */
  datatype Call = RunXCall(pkg: string) | SearchCall(name: string, version: string) | SearchV2Call(name: string, version: string)
}
