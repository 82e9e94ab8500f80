/**
 * Fallback-ordered choice of one entry of a platform-keyed map: the running
 * platform, then x86_64-linux, then whichever entry the map yields first.
 */
module SystemSelect {
  import opened Wrappers
  import opened LockTypes

  /**
   * The values a selection over `systems` may return when running on `current`.
   * The third tier admits every value of the map: map iteration order is
   * unspecified, so no particular entry is promised.
   */
  ghost predicate Selectable<V>(current: Platform, systems: map<Platform, V>, v: V)
  {
    if current in systems then v == systems[current]
    else if DefaultSystem in systems then v == systems[DefaultSystem]
    else exists sys :: sys in systems && systems[sys] == v
  }

  /** Picks the entry for `current`, else for x86_64-linux, else any entry; fails only on an empty map. */
  method SelectForSystem<V>(current: Platform, systems: map<Platform, V>) returns (r: Result<V, Error>)
    ensures r.Failure? <==> systems == map[]
    ensures r.Failure? ==> r.error == NoSystems
    ensures r.Success? ==> Selectable(current, systems, r.value)
  {
    if current in systems {
      return Success(systems[current]);
    }
    if DefaultSystem in systems {
      return Success(systems[DefaultSystem]);
    }
    if systems.Keys != {} {
      var sys :| sys in systems.Keys;
      return Success(systems[sys]);
    }
    return Failure(NoSystems);
  }

  /** Whatever the selection returns is one of the map's values. */
  lemma SelectableIsValue<V>(current: Platform, systems: map<Platform, V>, v: V)
    requires Selectable(current, systems, v)
    ensures v in systems.Values
  {
    if current !in systems && DefaultSystem !in systems {
      var sys :| sys in systems && systems[sys] == v;
      assert systems[sys] in systems.Values;
    }
  }

  /** Every non-empty map admits a selection, and an empty one admits none. */
  lemma SelectableExistsIffNonEmpty<V>(current: Platform, systems: map<Platform, V>)
    ensures (exists v :: Selectable(current, systems, v)) <==> systems != map[]
  {
    if systems != map[] {
      var sys :| sys in systems;
      var v := if current in systems then systems[current]
               else if DefaultSystem in systems then systems[DefaultSystem]
               else systems[sys];
      assert Selectable(current, systems, v);
    }
  }

  /**
   * When the running platform or x86_64-linux has an entry the selection is
   * determined: all admissible values coincide with that entry.
   */
  lemma SelectionDeterminedByPreferredKey<V>(current: Platform, systems: map<Platform, V>, v: V)
    requires current in systems || DefaultSystem in systems
    requires Selectable(current, systems, v)
    ensures v == (if current in systems then systems[current] else systems[DefaultSystem])
  {
  }
}
