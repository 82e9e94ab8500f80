/**
 * Concrete resolutions worked through against the model: the python 3.11.4
 * fan-out in which one of two lookups fails, and selections on a map that lacks
 * both preferred platforms.
 */
module ResolveScenarios {
  import opened Wrappers
  import opened LockTypes
  import opened SystemSelect
  import opened StorePaths

  /** Legacy search reply for python@3.11.4 on two platforms. */
  const PythonSystems: map<Platform, PackageInfo> := map[
    "x86_64-linux" := PackageInfo(["python311"], "c0ffee", "3.11.4", 0, "abc", "python-3.11.4"),
    "aarch64-darwin" := PackageInfo(["python311"], "c0ffee", "3.11.4", 0, "def", "python-3.11.4")]

  /** A binary cache that knows hash part "abc" and nothing else. */
  function PythonLookup(hash: string, cache: string): Option<string>
  {
    if hash == "abc" then Some("/nix/store/abc-python-3.11.4") else None
  }

  /** The failed darwin lookup is omitted and the linux path kept, with no error. */
  lemma PythonFanout(infos: map<Platform, SystemInfo>)
    requires IsFanoutOf(PythonSystems, PythonLookup, infos)
    ensures infos == map["x86_64-linux" := SystemInfo("/nix/store/abc-python-3.11.4")]
  {
    assert HasStoreData(PythonSystems["x86_64-linux"]);
    assert "x86_64-linux" in infos;
    assert "aarch64-darwin" !in infos;
    assert infos.Keys == {"x86_64-linux"};
  }

  /** With neither preferred platform present and one entry, the third tier has one choice. */
  lemma SingleOtherPlatform<V>(v: V, w: V)
    requires Selectable("x86_64-darwin", map["aarch64-darwin" := v], w)
    ensures w == v
  {
    var sys :| sys in map["aarch64-darwin" := v] && map["aarch64-darwin" := v][sys] == w;
  }

  /** On an aarch64-linux machine, x86_64-linux is chosen over any other entry. */
  lemma DefaultPlatformPreferred(v: int, w: int, u: int)
    requires Selectable("aarch64-linux", map["aarch64-darwin" := v, "x86_64-linux" := w], u)
    ensures u == w
  {
  }
}
