/**
 * Store-path fan-out for the legacy protocol: drop platforms lacking cache data,
 * look each remaining platform's store path up by hash part in the binary cache,
 * keep the successes and silently omit the failures.
 */
module StorePaths {
  import opened Wrappers
  import opened LockTypes

  /** A legacy platform record carries enough data to query the binary cache. */
  predicate HasStoreData(info: PackageInfo)
  {
    info.storeHash != "" && info.storeName != ""
  }

  /** The platforms whose store hash and store name are both present. */
  function PickComplete(systems: map<Platform, PackageInfo>): map<Platform, PackageInfo>
  {
    map sys | sys in systems && HasStoreData(systems[sys]) :: systems[sys]
  }

  /**
   * `infos` is what the fan-out yields for `systems` when `lookup(hash, cache)`
   * answers each store-path query: exactly the platforms with store data whose
   * lookup succeeded, each with the path the lookup returned.
   */
  ghost predicate IsFanoutOf(systems: map<Platform, PackageInfo>, lookup: (string, string) -> Option<string>,
                             infos: map<Platform, SystemInfo>)
  {
    && (forall sys :: sys in infos <==>
          sys in systems && HasStoreData(systems[sys]) && lookup(systems[sys].storeHash, BinaryCache).Some?)
    && (forall sys :: sys in infos ==> infos[sys] == SystemInfo(lookup(systems[sys].storeHash, BinaryCache).value))
  }

  /**
   * Resolves the store path of every platform with store data, one lookup per
   * platform; a failed lookup only leaves its platform out, and the call itself
   * never fails. The lookups run one after another: their results are merged into
   * a map keyed by platform, so their order does not show in the result.
   */
  method BuildLockSystemInfos(systems: map<Platform, PackageInfo>, lookup: (string, string) -> Option<string>)
    returns (infos: map<Platform, SystemInfo>)
    ensures IsFanoutOf(systems, lookup, infos)
  {
    var complete := PickComplete(systems);

    var storePaths: map<Platform, string> := map[];
    var pending := complete.Keys;
    while pending != {}
      invariant pending <= complete.Keys
      invariant forall sys :: sys in storePaths <==>
        sys in complete && sys !in pending && lookup(complete[sys].storeHash, BinaryCache).Some?
      invariant forall sys :: sys in storePaths ==> storePaths[sys] == lookup(complete[sys].storeHash, BinaryCache).value
      decreases pending
    {
      var sys :| sys in pending;
      var path := lookup(complete[sys].storeHash, BinaryCache);
      if path.Some? {
        storePaths := storePaths[sys := path.value];
      }
      pending := pending - {sys};
    }

    infos := map[];
    var toCopy := storePaths.Keys;
    while toCopy != {}
      invariant toCopy <= storePaths.Keys
      invariant infos.Keys == storePaths.Keys - toCopy
      invariant forall sys :: sys in infos ==> infos[sys] == SystemInfo(storePaths[sys])
      decreases toCopy
    {
      var sys :| sys in toCopy;
      infos := infos[sys := SystemInfo(storePaths[sys])];
      toCopy := toCopy - {sys};
    }
  }

  /** The platforms without store data, which the fan-out never looks up. */
  function Incomplete(systems: map<Platform, PackageInfo>): set<Platform>
  {
    set sys | sys in systems && !HasStoreData(systems[sys])
  }

  lemma SubsetCardinality<T>(a: set<T>, b: set<T>)
    requires a <= b
    ensures |a| <= |b|
  {
    assert b == a + (b - a);
  }

  /**
   * With N platforms of which K lack store data, the fan-out yields at most N - K
   * entries, all of them among the platforms that have store data.
   */
  lemma FanoutBound(systems: map<Platform, PackageInfo>, lookup: (string, string) -> Option<string>,
                    infos: map<Platform, SystemInfo>)
    requires IsFanoutOf(systems, lookup, infos)
    ensures infos.Keys <= PickComplete(systems).Keys
    ensures |infos| <= |systems| - |Incomplete(systems)|
  {
    var complete := PickComplete(systems).Keys;
    assert systems.Keys == complete + Incomplete(systems);
    assert complete !! Incomplete(systems);
    SubsetCardinality(infos.Keys, complete);
  }

  /** A platform whose lookup fails is dropped, and nothing else: the other platforms keep their results. */
  lemma FailedLookupDropsOnlyItsPlatform(systems: map<Platform, PackageInfo>, lookup: (string, string) -> Option<string>,
                                         infos: map<Platform, SystemInfo>, failed: Platform)
    requires IsFanoutOf(systems, lookup, infos)
    requires failed in systems && lookup(systems[failed].storeHash, BinaryCache).None?
    ensures failed !in infos
    ensures IsFanoutOf(systems - {failed}, lookup, infos)
  {
  }

  /** When every lookup fails the fan-out still returns, with no entries. */
  lemma AllLookupsFailing(systems: map<Platform, PackageInfo>, lookup: (string, string) -> Option<string>,
                          infos: map<Platform, SystemInfo>)
    requires IsFanoutOf(systems, lookup, infos)
    requires forall sys :: sys in systems ==> lookup(systems[sys].storeHash, BinaryCache).None?
    ensures infos == map[]
  {
    assert infos.Keys == {};
  }
}
