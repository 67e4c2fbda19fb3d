/**
 * The configuration sources of typedconfig/source.py that live in memory:
 * `DictConfigSource`, a nested section/key/value mapping looked up without
 * regard to case, and `EnvironmentConfigSource`, which looks a
 * `PREFIX_SECTION_KEY` variable up in the process environment. Also the
 * lookup over an ordered list of sources that both `Config.get_key` and
 * `ConfigProvider.get_key` perform.
 */
module Sources {
  import opened Common
  import opened Text

  /** A normalised in-memory table: lower-cased section to lower-cased key to value. */
  type Table = map<string, map<string, string>>

  /** What a source reads from, fixed when it is constructed. */
  datatype Backend =
    | Environment(prefix: string)
    | InMemory(table: Table)

  /**
   * A configuration source. Its backend never changes after construction;
   * two sources are the same source (`is`) when they are the same object.
   */
  class ConfigSource {
    const backend: Backend

    /** `EnvironmentConfigSource(prefix)`. */
    constructor FromEnvironment(prefix: string)
      ensures backend == Environment(prefix)
    {
      backend := Environment(prefix);
    }

    /** A `DictConfigSource` over an already normalised table. */
    constructor FromTable(table: Table)
      ensures backend == InMemory(table)
    {
      backend := InMemory(table);
    }

    /** `get_config_value(section_name, key_name)`; `env` is the process environment at the time of the call. */
    function GetConfigValue(section: string, key: string, env: Env): Option<string> {
      match backend
      case Environment(prefix) => EnvLookup(prefix, env, section, key)
      case InMemory(table) => DictLookup(table, section, key)
    }
  }

  /** An argument passed where a source is expected: a source, or any other Python value. */
  datatype Arg = Src(source: ConfigSource) | NotASource

  /** The message of the TypeError raised for an argument that is not a source. */
  const NotASourceMessage := "Sources must be subclasses of ConfigSource"

  /** Whether every argument is a source. */
  predicate AllSources(args: seq<Arg>) {
    forall i :: 0 <= i < |args| ==> args[i].Src?
  }

  /** The sources among the arguments before the first one that is not a source. */
  function ValidPrefix(args: seq<Arg>): (r: seq<ConfigSource>)
    ensures |r| <= |args|
    ensures forall i :: 0 <= i < |r| ==> args[i].Src? && r[i] == args[i].source
    ensures |r| < |args| ==> args[|r|].NotASource?
  {
    if |args| == 0 || args[0].NotASource? then []
    else
      var rest := ValidPrefix(args[1..]);
      assert forall i :: 1 <= i < |rest| + 1 ==> args[i] == args[1..][i - 1];
      [args[0].source] + rest
  }

  /** How the first argument decides `AllSources` and `ValidPrefix`. */
  lemma ValidPrefixFirst(args: seq<Arg>)
    requires |args| > 0
    ensures args[0].NotASource? ==> ValidPrefix(args) == [] && !AllSources(args)
    ensures args[0].Src? ==> ValidPrefix(args) == [args[0].source] + ValidPrefix(args[1..])
    ensures args[0].Src? ==> (AllSources(args) <==> AllSources(args[1..]))
  {
    assert forall j :: 1 <= j < |args| ==> args[j] == args[1..][j - 1];
  }

  /** When every argument is a source, they all make it, in order. */
  lemma AllSourcesPrefix(args: seq<Arg>)
    requires AllSources(args)
    ensures |ValidPrefix(args)| == |args|
  {
  }

  // ---------------------------------------------------------------------
  // EnvironmentConfigSource

  /**
   * The variable an environment source reads for (section, key): an
   * upper-case name with one character for each of the prefix, the section,
   * the key and the underscores between them.
   */
  function EnvVarName(prefix: string, section: string, key: string): (r: string)
    ensures |r| == |prefix| + (if |prefix| > 0 then 1 else 0) + |section| + 1 + |key|
    ensures forall i :: 0 <= i < |r| ==> !('a' <= r[i] <= 'z')
  {
    var p := if |prefix| > 0 then prefix + "_" else "";
    Upper(p) + Upper(section) + "_" + Upper(key)
  }

  function EnvLookup(prefix: string, env: Env, section: string, key: string): Option<string> {
    var name := EnvVarName(prefix, section, key);
    if name in env then Some(env[name]) else None
  }

  /** With a prefix the variable is `PREFIX_SECTION_KEY`; without one it is `SECTION_KEY`. */
  lemma EnvVarNameShape(prefix: string, section: string, key: string)
    ensures |prefix| > 0 ==>
      EnvVarName(prefix, section, key) == Upper(prefix) + "_" + Upper(section) + "_" + Upper(key)
    ensures |prefix| == 0 ==>
      EnvVarName(prefix, section, key) == Upper(section) + "_" + Upper(key)
  {
    if |prefix| > 0 {
      assert Upper(prefix + "_") == Upper(prefix) + "_";
    }
  }

  /** An environment lookup ignores the case of the section and of the key. */
  lemma EnvLookupIgnoresCase(prefix: string, env: Env, s1: string, s2: string, k1: string, k2: string)
    requires Lower(s1) == Lower(s2) && Lower(k1) == Lower(k2)
    ensures EnvLookup(prefix, env, s1, k1) == EnvLookup(prefix, env, s2, k2)
  {
    SameLowerSameUpper(s1, s2);
    SameLowerSameUpper(k1, k2);
  }

  /**
   * Underscores are not escaped, so moving an underscore-separated part
   * from the end of the section to the front of the key reads the same
   * variable: section `a_b` with key `c` and section `a` with key `b_c`
   * both read `A_B_C`.
   */
  lemma EnvVarNameAmbiguous(prefix: string, a: string, b: string, c: string)
    ensures EnvVarName(prefix, a + "_" + b, c) == EnvVarName(prefix, a, b + "_" + c)
  {
    assert Upper("_") == "_";
    UpperAppend(a, "_");
    UpperAppend(a + "_", b);
    UpperAppend(b, "_");
    UpperAppend(b + "_", c);
  }

  // ---------------------------------------------------------------------
  // DictConfigSource

  /** The Python value handed to `DictConfigSource`: a string, a dict (its items in order) or anything else. */
  datatype Py = PyStr(s: string) | PyDict(items: seq<(Py, Py)>) | PyOther

  /** Sections in order, each with its key/value pairs in order. */
  type Entries = seq<(string, seq<(string, string)>)>

  /** The constructor's assertions: a dict of dicts, with string keys and string values throughout. */
  predicate WellTyped(p: Py) {
    && p.PyDict?
    && forall i :: 0 <= i < |p.items| ==>
         && p.items[i].0.PyStr?
         && p.items[i].1.PyDict?
         && forall j :: 0 <= j < |p.items[i].1.items| ==>
              p.items[i].1.items[j].0.PyStr? && p.items[i].1.items[j].1.PyStr?
  }

  /** The strings of a well-typed input. */
  function EntriesOf(p: Py): (es: Entries)
    requires WellTyped(p)
    ensures |es| == |p.items|
  {
    seq(|p.items|, i requires 0 <= i < |p.items| =>
      (p.items[i].0.s,
       seq(|p.items[i].1.items|, j requires 0 <= j < |p.items[i].1.items| =>
         (p.items[i].1.items[j].0.s, p.items[i].1.items[j].1.s))))
  }

  /**
   * A dict comprehension keyed by `k.lower()`: its keys are the lower-cased
   * names, each holding the value of some pair with that name (the later
   * one when two collide, see `LowerKeysLookup`).
   */
  function LowerKeys<V>(items: seq<(string, V)>): (r: map<string, V>)
    ensures forall k :: k in r ==> Lower(k) == k
    ensures forall i :: 0 <= i < |items| ==> Lower(items[i].0) in r
    ensures forall k :: k in r ==> exists i :: 0 <= i < |items| && Lower(items[i].0) == k && r[k] == items[i].1
  {
    if |items| == 0 then map[]
    else
      var last := items[|items| - 1];
      var pre := LowerKeys(items[..|items| - 1]);
      assert forall i :: 0 <= i < |items| - 1 ==> items[..|items| - 1][i] == items[i];
      LowerIdempotent(last.0);
      pre[Lower(last.0) := last.1]
  }

  /**
   * The normalised table: both levels keyed by lower-cased names, one
   * section for each section name of the input up to case, and one key in
   * it for each of that section's key names up to case.
   */
  function Normalize(es: Entries): (t: Table)
    ensures forall s :: s in t ==> Lower(s) == s && forall k :: k in t[s] ==> Lower(k) == k
    ensures forall s :: s in t <==> exists i :: 0 <= i < |es| && Lower(es[i].0) == s
  {
    var mapped := LowerSectionKeys(es);
    var t := LowerKeys(mapped);
    forall s | s in t
      ensures forall k :: k in t[s] ==> Lower(k) == k
    {
      var i :| 0 <= i < |mapped| && Lower(mapped[i].0) == s && t[s] == mapped[i].1;
    }
    t
  }

  /** Each section with its own keys lower-cased. */
  function LowerSectionKeys(es: Entries): (m: seq<(string, map<string, string>)>)
    ensures |m| == |es|
    ensures forall i :: 0 <= i < |es| ==> m[i].0 == es[i].0 && forall k :: k in m[i].1 ==> Lower(k) == k
  {
    seq(|es|, i requires 0 <= i < |es| => (es[i].0, LowerKeys(es[i].1)))
  }

  /** `DictConfigSource(config)`'s table, or the AssertionError its checks raise. */
  function ParseDict(p: Py): Result<Table> {
    if WellTyped(p) then Ok(Normalize(EntriesOf(p))) else Err(AssertionError)
  }

  function DictLookup(table: Table, section: string, key: string): Option<string> {
    var s := Lower(section);
    var k := Lower(key);
    if s in table && k in table[s] then Some(table[s][k]) else None
  }

  /**
   * Reference for a case-insensitive lookup in a list of pairs: the value of
   * the last pair whose name equals `name` up to case.
   */
  function LastMatch<V>(items: seq<(string, V)>, name: string): (r: Option<V>)
    ensures r.None? <==> forall i :: 0 <= i < |items| ==> Lower(items[i].0) != Lower(name)
    ensures r.Some? ==> exists i :: 0 <= i < |items| && Lower(items[i].0) == Lower(name) && r.value == items[i].1
  {
    if |items| == 0 then None
    else if Lower(items[|items| - 1].0) == Lower(name) then Some(items[|items| - 1].1)
    else LastMatch(items[..|items| - 1], name)
  }

  /** The last match is the pair at the last index whose name matches. */
  lemma {:induction false} LastMatchAt<V>(items: seq<(string, V)>, i: nat, name: string)
    requires i < |items| && Lower(items[i].0) == Lower(name)
    requires forall j :: i < j < |items| ==> Lower(items[j].0) != Lower(name)
    ensures LastMatch(items, name) == Some(items[i].1)
    decreases |items|
  {
    if i < |items| - 1 {
      var prefix := items[..|items| - 1];
      assert prefix[i] == items[i];
      LastMatchAt(prefix, i, name);
    }
  }

  /** Looking a lower-cased name up in `LowerKeys` finds the last matching pair. */
  lemma {:induction false} LowerKeysLookup<V>(items: seq<(string, V)>, name: string)
    ensures Lower(name) in LowerKeys(items) <==> LastMatch(items, name).Some?
    ensures Lower(name) in LowerKeys(items) ==> LowerKeys(items)[Lower(name)] == LastMatch(items, name).value
    decreases |items|
  {
    if |items| > 0 {
      LowerKeysLookup(items[..|items| - 1], name);
    }
  }

  /** Mapping the values of the pairs commutes with finding the last match. */
  lemma {:induction false} LastMatchMapped(es: Entries, name: string)
    ensures var mapped := seq(|es|, i requires 0 <= i < |es| => (es[i].0, LowerKeys(es[i].1)));
            LastMatch(mapped, name) ==
              match LastMatch(es, name)
              case None => None
              case Some(kvs) => Some(LowerKeys(kvs))
    decreases |es|
  {
    var mapped := seq(|es|, i requires 0 <= i < |es| => (es[i].0, LowerKeys(es[i].1)));
    if |es| > 0 {
      var pre := es[..|es| - 1];
      LastMatchMapped(pre, name);
      assert mapped[..|es| - 1] == seq(|pre|, i requires 0 <= i < |pre| => (pre[i].0, LowerKeys(pre[i].1)));
    }
  }

  /**
   * A dict source answers (section, key) with the value of the last key
   * matching `key` up to case, in the last section matching `section` up to
   * case; if either is missing it answers `None`.
   */
  lemma DictLookupIsLastMatch(es: Entries, section: string, key: string)
    ensures DictLookup(Normalize(es), section, key) ==
              match LastMatch(es, section)
              case None => None
              case Some(kvs) => LastMatch(kvs, key)
  {
    var mapped := seq(|es|, i requires 0 <= i < |es| => (es[i].0, LowerKeys(es[i].1)));
    LowerKeysLookup(mapped, section);
    LastMatchMapped(es, section);
    match LastMatch(es, section)
    case None =>
    case Some(kvs) =>
      LowerKeysLookup(kvs, key);
  }

  /**
   * Any casing of a stored section and key finds the stored value, provided
   * no later section or key collides with it up to case (a later one wins).
   */
  lemma DictFindsStored(es: Entries, i: nat, j: nat, section: string, key: string)
    requires i < |es| && j < |es[i].1|
    requires Lower(section) == Lower(es[i].0) && Lower(key) == Lower(es[i].1[j].0)
    requires forall i' :: i < i' < |es| ==> Lower(es[i'].0) != Lower(section)
    requires forall j' :: j < j' < |es[i].1| ==> Lower(es[i].1[j'].0) != Lower(key)
    ensures DictLookup(Normalize(es), section, key) == Some(es[i].1[j].1)
  {
    DictLookupIsLastMatch(es, section, key);
    LastMatchAt(es, i, section);
    LastMatchAt(es[i].1, j, key);
  }

  /** A section or key that is absent up to case gives `None` rather than an error. */
  lemma DictMissing(es: Entries, section: string, key: string)
    requires (forall i :: 0 <= i < |es| ==> Lower(es[i].0) != Lower(section))
             || (forall i :: 0 <= i < |es| && Lower(es[i].0) == Lower(section) ==>
                   forall j :: 0 <= j < |es[i].1| ==> Lower(es[i].1[j].0) != Lower(key))
    ensures DictLookup(Normalize(es), section, key) == None
  {
    DictLookupIsLastMatch(es, section, key);
    if LastMatch(es, section).Some? {
      var i :| 0 <= i < |es| && Lower(es[i].0) == Lower(section) && LastMatch(es, section).value == es[i].1;
      assert LastMatch(es[i].1, key).None?;
    }
  }

  /** `DictConfigSource(config)`: a new source, or the AssertionError of its input checks. */
  method NewDictSource(config: Py) returns (r: Result<ConfigSource>)
    ensures r.Err? <==> !WellTyped(config)
    ensures r.Err? ==> r.error == AssertionError
    ensures r.Ok? ==> fresh(r.value) && r.value.backend == InMemory(Normalize(EntriesOf(config)))
  {
    var parsed := ParseDict(config);
    if parsed.Err? {
      r := Err(parsed.error);
    } else {
      var source := new ConfigSource.FromTable(parsed.value);
      r := Ok(source);
    }
  }

  // ---------------------------------------------------------------------
  // Lookup over an ordered list of sources

  /** The index of the first source that has a value for (section, key), or `|sources|`. */
  function FirstHit(sources: seq<ConfigSource>, section: string, key: string, env: Env): (i: nat)
    ensures i <= |sources|
    ensures forall j :: 0 <= j < i ==> sources[j].GetConfigValue(section, key, env).None?
    ensures i < |sources| ==> sources[i].GetConfigValue(section, key, env).Some?
  {
    if |sources| == 0 then 0
    else if sources[0].GetConfigValue(section, key, env).Some? then 0
    else
      var i := FirstHit(sources[1..], section, key, env);
      assert forall j :: 1 <= j < i + 1 ==> sources[j] == sources[1..][j - 1];
      i + 1
  }

  /** The value `get_key` returns: that of the first source in list order with one, else `None`. */
  function FirstValue(sources: seq<ConfigSource>, section: string, key: string, env: Env): Option<string> {
    var i := FirstHit(sources, section, key, env);
    if i < |sources| then sources[i].GetConfigValue(section, key, env) else None
  }

  /** `get_key` finds nothing exactly when no source has a value. */
  lemma FirstValueNone(sources: seq<ConfigSource>, section: string, key: string, env: Env)
    ensures FirstValue(sources, section, key, env).None? <==>
              forall j :: 0 <= j < |sources| ==> sources[j].GetConfigValue(section, key, env).None?
  {
  }

  /** A source placed earlier takes precedence: prepending a source that has the value returns its value. */
  lemma {:induction false} FirstValuePrecedence(first: ConfigSource, rest: seq<ConfigSource>, section: string, key: string, env: Env)
    ensures first.GetConfigValue(section, key, env).Some? ==>
              FirstValue([first] + rest, section, key, env) == first.GetConfigValue(section, key, env)
    ensures first.GetConfigValue(section, key, env).None? ==>
              FirstValue([first] + rest, section, key, env) == FirstValue(rest, section, key, env)
  {
    var all := [first] + rest;
    assert all[0] == first && all[1..] == rest;
  }
}
