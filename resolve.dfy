/**
 * Turning a search-service answer into a lock-file `Package`: the order in which
 * the inputs are checked, the RunX short cut, the enriched protocol (`ResolveV2`)
 * and the legacy protocol with its optional store-path fan-out.
 */
module Resolve {
  import opened Wrappers
  import opened LockTypes
  import opened SystemSelect
  import opened StorePaths

  /** The legacy locator github:NixOS/nixpkgs/<commit>#<attr>. */
  function NixpkgsInstallable(commit: string, attr: string): string
  {
    NixpkgsFlakePrefix + commit + "#" + attr
  }

  /** Position of the first '#' in `s`, or |s| when there is none. */
  function IndexOfHash(s: string): (i: nat)
    ensures i <= |s|
    ensures forall k :: 0 <= k < i ==> s[k] != '#'
    ensures i < |s| ==> s[i] == '#'
  {
    if s == [] then 0
    else if s[0] == '#' then 0
    else 1 + IndexOfHash(s[1..])
  }

  /**
   * Reads a legacy locator back into its commit and attribute path, splitting
   * at the first '#' after the fixed prefix, as flake references are split.
   */
  function ParseNixpkgsInstallable(s: string): Option<(string, string)>
  {
    if |s| < |NixpkgsFlakePrefix| || s[..|NixpkgsFlakePrefix|] != NixpkgsFlakePrefix then None
    else
      var rest := s[|NixpkgsFlakePrefix|..];
      var i := IndexOfHash(rest);
      if i == |rest| then None else Some((rest[..i], rest[i + 1..]))
  }

  /** A locator built from a commit without '#' reads back as that commit and attribute path. */
  lemma InstallableRoundTrip(commit: string, attr: string)
    requires '#' !in commit
    ensures ParseNixpkgsInstallable(NixpkgsInstallable(commit, attr)) == Some((commit, attr))
  {
    var s := NixpkgsInstallable(commit, attr);
    var rest := commit + "#" + attr;
    assert s[..|NixpkgsFlakePrefix|] == NixpkgsFlakePrefix;
    assert s[|NixpkgsFlakePrefix|..] == rest;
    var i := IndexOfHash(rest);
    assert rest[|commit|] == '#';
    assert forall k :: 0 <= k < |commit| ==> rest[k] == commit[k];
    assert rest[..i] == commit;
    assert rest[i + 1..] == attr;
  }

  /** The record built from the legacy platform chosen for this machine. */
  function LegacyPackage(svc: Services, info: PackageInfo, systems: map<Platform, SystemInfo>): Package
    requires info.attrPaths != []
  {
    Package(svc.formatUnix(info.lastUpdated), NixpkgsInstallable(info.commitHash, info.attrPaths[0]),
            info.version, DevboxSearchSource, systems)
  }

  /** The record built from a RunX reference: only the locator and the version are set. */
  function RunXPackage(ref: RunXRef): Package
  {
    Package("", ref.reference, ref.version, "", map[])
  }

  /** The enriched service never answers success with an empty platform map. */
  predicate V2ReplyHasSystems(reply: V2Reply)
  {
    reply.V2Found? ==> reply.response.systems != map[]
  }

  /**
   * The outcomes of the enriched protocol for `name@version` on platform `current`:
   * not-found and other failures become errors; a found reply yields its version,
   * the locator and time of a selectable platform, and a systems map holding exactly
   * the platforms with at least one output, each with its first output's path.
   */
  ghost predicate V2Outcome(name: string, version: string, current: Platform, reply: V2Reply, r: Result<Package, Error>)
  {
    match reply
    case V2NotFound => r == Failure(PackageNotFound(name, version))
    case V2Failed => r == Failure(SearchFailed)
    case V2Found(resp) =>
      && r.Success?
      && r.value.version == resp.version
      && r.value.source == DevboxSearchSource
      && (exists sysPkg :: Selectable(current, resp.systems, sysPkg)
            && r.value.resolved == sysPkg.flakeInstallable && r.value.lastModified == sysPkg.lastUpdated)
      && (forall sys :: sys in r.value.systems <==> sys in resp.systems && resp.systems[sys].outputs != [])
      && (forall sys :: sys in r.value.systems ==>
            r.value.systems[sys] == SystemInfo(resp.systems[sys].outputs[0].path))
  }

  /** Resolves `name@version` through the enriched search protocol. */
  method ResolveV2(name: string, version: string, svc: Services) returns (r: Result<Package, Error>)
    requires V2ReplyHasSystems(svc.resolveV2(name, version))
    ensures V2Outcome(name, version, svc.current, svc.resolveV2(name, version), r)
  {
    var reply := svc.resolveV2(name, version);
    if reply.V2NotFound? {
      return Failure(PackageNotFound(name, version));
    }
    if reply.V2Failed? {
      return Failure(SearchFailed);
    }
    var resolved := reply.response;
    var selected := SelectForSystem(svc.current, resolved.systems);
    var sysPkg := selected.value;

    var systems: map<Platform, SystemInfo> := map[];
    var pending := resolved.systems.Keys;
    while pending != {}
      invariant pending <= resolved.systems.Keys
      invariant forall sys :: sys in systems <==>
        sys in resolved.systems && sys !in pending && resolved.systems[sys].outputs != []
      invariant forall sys :: sys in systems ==> systems[sys] == SystemInfo(resolved.systems[sys].outputs[0].path)
      decreases pending
    {
      var sys :| sys in pending;
      var info := resolved.systems[sys];
      if |info.outputs| != 0 {
        systems := systems[sys := SystemInfo(info.outputs[0].path)];
      }
      pending := pending - {sys};
    }
    r := Success(Package(sysPkg.lastUpdated, sysPkg.flakeInstallable, resolved.version, DevboxSearchSource, systems));
  }

  /**
   * The outcomes of the legacy protocol for `name@version`: any search failure
   * reads as not-found; an empty platform map is the only cause of NoSystems; a
   * selectable platform without attribute paths is the only cause of NoAttrPaths;
   * otherwise the record comes from a selectable platform that has attribute paths,
   * and its systems are the fan-out's result when nixpkgs removal is on, else empty.
   */
  ghost predicate LegacyOutcome(name: string, version: string, flags: Flags, svc: Services, r: Result<Package, Error>)
  {
    match svc.search(name, version)
    case None => r == Failure(PackageNotFound(name, version))
    case Some(pv) =>
      && (r.Failure? ==> r.error == NoSystems || r.error == NoAttrPaths)
      && (r == Failure(NoSystems) <==> pv.systems == map[])
      && (r == Failure(NoAttrPaths) ==>
            exists info :: Selectable(svc.current, pv.systems, info) && info.attrPaths == [])
      && (pv.systems != map[] && (forall info :: Selectable(svc.current, pv.systems, info) ==> info.attrPaths != []) ==>
            r.Success?)
      && (r.Success? ==>
            && (exists info :: Selectable(svc.current, pv.systems, info) && info.attrPaths != []
                  && r.value == LegacyPackage(svc, info, r.value.systems))
            && (if flags.removeNixpkgs then IsFanoutOf(pv.systems, svc.storePath, r.value.systems)
                else r.value.systems == map[]))
  }

  /**
   * On a machine whose own platform is in the legacy reply with attribute paths,
   * resolution succeeds with that platform's commit and first attribute path.
   */
  lemma LegacyUsesCurrentPlatform(name: string, version: string, flags: Flags, svc: Services, r: Result<Package, Error>)
    requires LegacyOutcome(name, version, flags, svc, r)
    requires svc.search(name, version).Some?
    requires svc.current in svc.search(name, version).value.systems
    requires svc.search(name, version).value.systems[svc.current].attrPaths != []
    ensures r.Success?
    ensures var info := svc.search(name, version).value.systems[svc.current];
      r.value.resolved == NixpkgsFlakePrefix + info.commitHash + "#" + info.attrPaths[0]
  {
    var systems := svc.search(name, version).value.systems;
    forall info | Selectable(svc.current, systems, info)
      ensures info.attrPaths != []
    {
      SelectionDeterminedByPreferredKey(svc.current, systems, info);
    }
    var info :| Selectable(svc.current, systems, info) && info.attrPaths != []
                && r.value == LegacyPackage(svc, info, r.value.systems);
    SelectionDeterminedByPreferredKey(svc.current, systems, info);
  }

  /** The enriched reply for this package is usable, should that protocol be taken. */
  predicate V2ContractFor(pkg: string, svc: Services)
  {
    V2ReplyHasSystems(svc.resolveV2(svc.parse(pkg).name, svc.parse(pkg).version))
  }

  /**
   * Resolves a package spec into a lock-file record without writing it to the lock.
   * A missing version fails before any outbound call; a RunX package goes to the
   * RunX resolver only; otherwise exactly one search protocol is called, the
   * enriched one when its flag is on. `calls` is the trace of outbound calls the
   * method declares, written next to each call it makes.
   */
  method FetchResolvedPackage(pkg: string, flags: Flags, svc: Services)
    returns (r: Result<Package, Error>, calls: seq<Call>)
    requires flags.resolveV2 && svc.parse(pkg).version != "" && !svc.isRunX(pkg) ==> V2ContractFor(pkg, svc)
    ensures var p := svc.parse(pkg);
      p.version == "" ==> r == Failure(MissingVersion) && calls == []
    ensures var p := svc.parse(pkg);
      p.version != "" && svc.isRunX(pkg) ==>
        && calls == [RunXCall(pkg)]
        && r == (match svc.runX(pkg) case None => Failure(RunXFailed) case Some(ref) => Success(RunXPackage(ref)))
    ensures var p := svc.parse(pkg);
      p.version != "" && !svc.isRunX(pkg) && flags.resolveV2 ==>
        && calls == [SearchV2Call(p.name, p.version)]
        && V2Outcome(p.name, p.version, svc.current, svc.resolveV2(p.name, p.version), r)
    ensures var p := svc.parse(pkg);
      p.version != "" && !svc.isRunX(pkg) && !flags.resolveV2 ==>
        && calls == [SearchCall(p.name, p.version)]
        && LegacyOutcome(p.name, p.version, flags, svc, r)
  {
    var parsed := svc.parse(pkg);
    var name, version := parsed.name, parsed.version;
    calls := [];
    if version == "" {
      r := Failure(MissingVersion);
      return;
    }

    if svc.isRunX(pkg) {
      calls := [RunXCall(pkg)];
      var ref := svc.runX(pkg);
      if ref.None? {
        r := Failure(RunXFailed);
        return;
      }
      r := Success(RunXPackage(ref.value));
      return;
    }
    if flags.resolveV2 {
      calls := [SearchV2Call(name, version)];
      r := ResolveV2(name, version, svc);
      return;
    }

    calls := [SearchCall(name, version)];
    var reply := svc.search(name, version);
    if reply.None? {
      r := Failure(PackageNotFound(name, version));
      return;
    }
    var packageVersion := reply.value;

    var sysInfos: map<Platform, SystemInfo> := map[];
    if flags.removeNixpkgs {
      sysInfos := BuildLockSystemInfos(packageVersion.systems, svc.storePath);
    }
    var selected := SelectForSystem(svc.current, packageVersion.systems);
    if selected.Failure? {
      r := Failure(NoSystems);
      return;
    }
    var packageInfo := selected.value;

    if |packageInfo.attrPaths| == 0 {
      r := Failure(NoAttrPaths);
      return;
    }
    r := Success(LegacyPackage(svc, packageInfo, sysInfos));
  }
}
