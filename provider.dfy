/**
 * `ConfigProvider` of typedconfig/provider.py: a cache and an ordered list of
 * sources, both updated in place.
 */
module Provider {
  import opened Common
  import opened Sources
  import NestedCache

  /** The index of the first element identical to `x`, if any. */
  function IndexOf(sources: seq<ConfigSource>, x: ConfigSource): (r: Option<nat>)
    ensures r.None? <==> x !in sources
    ensures r.Some? ==> r.value < |sources| && sources[r.value] == x
                        && forall j :: 0 <= j < r.value ==> sources[j] != x
  {
    if |sources| == 0 then None
    else if sources[0] == x then Some(0)
    else
      match IndexOf(sources[1..], x)
      case None => None
      case Some(i) =>
        assert forall j :: 1 <= j < i + 1 ==> sources[j] == sources[1..][j - 1];
        Some(i + 1)
  }

  /** The message of the ValueError `replace_source` raises. */
  const NotFoundMessage := "ConfigProvider did not find the supplied old source to replace: %s"

  /**
   * The list `replace_source(old, new)` leaves and what it raises: TypeError
   * for a new value that is not a source, ValueError when no element is
   * `old`; a failed replacement leaves the list as it was, and a successful
   * one swaps the first element identical to `old` and nothing else.
   */
  function Replaced(sources: seq<ConfigSource>, oldSource: Arg, newSource: Arg): (res: (Outcome, seq<ConfigSource>))
    ensures var (r, s) := res;
            && |s| == |sources|
            && (r.Fail? ==> s == sources)
            && (r == Fail(TypeError(NotASourceMessage)) <==> newSource.NotASource?)
            && (r == Fail(ValueError(NotFoundMessage)) <==>
                  newSource.Src? && (oldSource.NotASource? || oldSource.source !in sources))
            && (r.Pass? ==> exists i :: 0 <= i < |sources| && sources[i] == oldSource.source
                              && (forall j :: 0 <= j < i ==> sources[j] != oldSource.source)
                              && s[i] == newSource.source
                              && forall j :: 0 <= j < |sources| && j != i ==> s[j] == sources[j])
  {
    if newSource.NotASource? then (Fail(TypeError(NotASourceMessage)), sources)
    else if oldSource.NotASource? then (Fail(ValueError(NotFoundMessage)), sources)
    else
      match IndexOf(sources, oldSource.source)
      case None => (Fail(ValueError(NotFoundMessage)), sources)
      case Some(i) => (Pass, sources[i := newSource.source])
  }

  class ConfigProvider {
    var cache: NestedCache.Cache<Option<Value>>
    var sources: seq<ConfigSource>

    /** `ConfigProvider()`: no sources, empty cache. */
    constructor()
      ensures cache == map[] && sources == []
    {
      cache := map[];
      sources := [];
    }

    /**
     * `ConfigProvider(sources)`: each argument added in turn; the first one
     * that is not a source makes the constructor raise TypeError.
     */
    static method New(args: Option<seq<Arg>>) returns (r: Result<ConfigProvider>)
      ensures r.Ok? <==> args.None? || AllSources(args.value)
      ensures r.Err? ==> r.error == TypeError(NotASourceMessage)
      ensures r.Ok? ==> fresh(r.value) && r.value.cache == map[]
                        && r.value.sources == if args.None? then [] else ValidPrefix(args.value)
    {
      var p := new ConfigProvider();
      if args.Some? {
        var o := p.SetSources(args.value);
        if o.Fail? {
          return Err(o.error);
        }
      }
      r := Ok(p);
    }

    /** `add_to_cache`. */
    method AddToCache(section: string, key: string, value: Option<Value>)
      modifies this
      ensures cache == NestedCache.Put(old(cache), section, key, value)
      ensures sources == old(sources)
    {
      var inner := if section in cache then cache[section] else map[];
      cache := cache[section := inner[key := value]];
    }

    /** `get_from_cache`: `None` when the section is absent, the key is absent, or `None` was stored. */
    method GetFromCache(section: string, key: string) returns (v: Option<Value>)
      ensures v.Some? <==> section in cache && key in cache[section] && cache[section][key].Some?
      ensures v.Some? ==> NestedCache.Get(cache, section, key) == Some(v)
    {
      if section !in cache {
        return None;
      }
      v := if key in cache[section] then cache[section][key] else None;
    }

    /** `clear_cache`. */
    method ClearCache()
      modifies this
      ensures cache == map[] && sources == old(sources)
    {
      cache := map[];
    }

    /**
     * `get_key`: the value of the first source in list order that has one.
     * `queried` counts the sources asked: none after the first hit.
     */
    method GetKey(section: string, key: string, env: Env) returns (v: Option<string>, ghost queried: nat)
      ensures v == FirstValue(sources, section, key, env)
      ensures queried == if v.Some? then FirstHit(sources, section, key, env) + 1 else |sources|
    {
      v := None;
      queried := 0;
      var i := 0;
      while i < |sources|
        invariant 0 <= i <= |sources| && queried == i
        invariant i <= FirstHit(sources, section, key, env)
        invariant v == None
      {
        v := sources[i].GetConfigValue(section, key, env);
        queried := queried + 1;
        if v.Some? {
          break;
        }
        i := i + 1;
      }
    }

    /** `add_source`: TypeError for a non-source, else appended at the end. */
    method AddSource(a: Arg) returns (r: Outcome)
      modifies this
      ensures r == if a.Src? then Pass else Fail(TypeError(NotASourceMessage))
      ensures sources == if a.Src? then old(sources) + [a.source] else old(sources)
      ensures cache == old(cache)
    {
      if a.NotASource? {
        return Fail(TypeError(NotASourceMessage));
      }
      sources := sources + [a.source];
      r := Pass;
    }

    /**
     * `set_sources`: clears the list, then adds the arguments in turn. A
     * non-source raises TypeError with the sources before it already in place.
     */
    method SetSources(args: seq<Arg>) returns (r: Outcome)
      modifies this
      ensures r == if AllSources(args) then Pass else Fail(TypeError(NotASourceMessage))
      ensures sources == ValidPrefix(args)
      ensures cache == old(cache)
    {
      ghost var vp := ValidPrefix(args);
      sources := [];
      var i := 0;
      while i < |args|
        invariant 0 <= i <= |args| && i <= |vp|
        invariant sources == vp[..i]
        invariant cache == old(cache)
      {
        r := AddSource(args[i]);
        if r.Fail? {
          assert vp[..i] == vp;
          return;
        }
        i := i + 1;
      }
      assert vp[..i] == vp;
      r := Pass;
    }

    /** `replace_source`: the first element identical to `oldSource` becomes `newSource`. */
    method ReplaceSource(oldSource: Arg, newSource: Arg) returns (r: Outcome)
      modifies this
      ensures (r, sources) == Replaced(old(sources), oldSource, newSource)
      ensures cache == old(cache)
    {
      if newSource.NotASource? {
        return Fail(TypeError(NotASourceMessage));
      }
      var i := 0;
      while i < |sources|
        invariant 0 <= i <= |sources|
        invariant oldSource.Src? ==> forall j :: 0 <= j < i ==> sources[j] != oldSource.source
      {
        if oldSource.Src? && sources[i] == oldSource.source {
          sources := sources[i := newSource.source];
          return Pass;
        }
        i := i + 1;
      }
      r := Fail(ValueError(NotFoundMessage));
    }
  }
}
