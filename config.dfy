/**
 * The declaration and resolution engine of typedconfig/config.py.
 *
 * A `key(...)` declaration is a `KeyDecl` value and a `group_key(cls)`
 * declaration a `GroupDecl`. A config class is a `Schema`: its key and
 * group-key declarations as `inspect.getmembers` lists them, that is in
 * ascending order of attribute name, inherited ones included. A `Config`
 * instance owns its section name, its cache, its source list and the child
 * instances its group keys have memoised, and its ghost field `model` is the
 * tree of instances rooted there as a `Node` value. Every operation that
 * changes a tree is proved against a function on `Node` values, and the
 * properties of those functions are lemmas below.
 */
module Configuration {
  import opened Common
  import opened Text
  import opened Sources
  import opened Casts
  import NestedCache

  // ---------------------------------------------------------------------
  // Declarations

  /**
   * A `key(section_name, key_name, required, cast, default)` declaration
   * bound to attribute `attrName`.
   */
  datatype KeyDecl = KeyDecl(attrName: string, sectionName: Option<string>, keyName: Option<string>,
                             required: bool, cast: Option<Cast>, defaultValue: Option<Value>)
  {
    /** The key name the getter looks up: the explicit one, else the attribute name, upper-cased. */
    function KeyName(): string {
      Upper(keyName.GetOr(attrName))
    }
  }

  /** A `group_key(cls)` declaration bound to attribute `attrName`. */
  datatype GroupDecl = GroupDecl(attrName: string, cls: Schema)

  /**
   * A config class: its `__name__`, the section the `section` decorator
   * gave it (if any), and its declarations in attribute-name order.
   */
  datatype Schema = Schema(name: string, section: Option<string>, keys: seq<KeyDecl>, groups: seq<GroupDecl>)

  /** The instance attribute a group key memoises its child under: `'_' + cls.__name__`. */
  function Memo(g: GroupDecl): string {
    "_" + g.cls.name
  }

  /** Two group keys share a memo name exactly when their classes share a `__name__`. */
  lemma MemoCollides(g1: GroupDecl, g2: GroupDecl)
    ensures Memo(g1) == Memo(g2) <==> g1.cls.name == g2.cls.name
  {
    if Memo(g1) == Memo(g2) {
      assert Memo(g1)[1..] == g1.cls.name;
      assert Memo(g2)[1..] == g2.cls.name;
    }
  }

  /**
   * `section(name)(cls)`: a subclass named `SectionConfig` whose instances
   * get `name` as their section. Applying it to a class that already has
   * one is not modelled.
   */
  function Section(sectionName: string, cls: Schema): Schema
    requires cls.section.None?
  {
    cls.(name := "SectionConfig", section := Some(sectionName))
  }

  /**
   * How the constructor's `section_name` parameter is filled: not at all,
   * by the keyword, or by the first positional argument. `None` may be
   * passed either way.
   */
  datatype SectionArg = Absent | Keyword(value: Option<string>) | Positional(value: Option<string>)

  const DuplicateKeywordMessage := "__init__() got multiple values for keyword argument 'section_name'"
  const DuplicatePositionalMessage := "__init__() got multiple values for argument 'section_name'"

  /**
   * The `_section_name` an instance starts with: the decorator's section,
   * or the one passed to the constructor (`None` when none is). A decorated
   * class passes `section_name=` itself, so passing one to it in any form,
   * `None` included, is a TypeError.
   */
  function InitialSection(cls: Schema, arg: SectionArg): Result<Option<string>> {
    match arg
    case Absent => Ok(cls.section)
    case Keyword(v) => if cls.section.None? then Ok(v) else Err(TypeError(DuplicateKeywordMessage))
    case Positional(v) => if cls.section.None? then Ok(v) else Err(TypeError(DuplicatePositionalMessage))
  }

  /**
   * An undecorated class takes the section passed to its constructor, and
   * none when none is passed; a class decorated with `section(name)` takes
   * `name`, and rejects with TypeError every section passed to it, `None`
   * included. Its keys and group keys are those of the class it decorates.
   */
  lemma SectionDecorator(name: string, cls: Schema, arg: SectionArg)
    requires cls.section.None?
    ensures InitialSection(cls, arg) == Ok(if arg.Absent? then None else arg.value)
    ensures InitialSection(Section(name, cls), arg).Ok? <==> arg.Absent?
    ensures arg.Absent? ==> InitialSection(Section(name, cls), arg) == Ok(Some(name))
    ensures arg.Keyword? ==> InitialSection(Section(name, cls), arg) == Err(TypeError(DuplicateKeywordMessage))
    ensures arg.Positional? ==> InitialSection(Section(name, cls), arg) == Err(TypeError(DuplicatePositionalMessage))
    ensures Section(name, cls).keys == cls.keys && Section(name, cls).groups == cls.groups
  {
  }

  // ---------------------------------------------------------------------
  // Resolving one key

  const NoSectionMessage := "Section name was not specified by the key function or the section class decorator."

  function MissingKeyMessage(section: string, key: string): string {
    "Config parameter " + section + "." + key + " not found"
  }

  /** The section a key reads: its own, else the instance's, else ValueError. */
  function ResolveSection(declared: Option<string>, instance: Option<string>): (r: Result<string>)
    ensures r.Ok? <==> declared.Some? || instance.Some?
    ensures declared.Some? ==> r == Ok(declared.value)
    ensures declared.None? && instance.Some? ==> r == Ok(instance.value)
    ensures r.Err? ==> r.error == ValueError(NoSectionMessage)
  {
    if declared.Some? then Ok(declared.value)
    else if instance.Some? then Ok(instance.value)
    else Err(ValueError(NoSectionMessage))
  }

  /** What a key access returns, and the cache it leaves. */
  datatype Fetched = Fetched(result: Result<Option<Value>>, cache: NestedCache.Cache<Value>)

  /**
   * The key getter: resolve the section and the key name, return a cached
   * value when there is one, else ask the sources; with nothing found raise
   * KeyError for a required key or take the default; apply the cast to
   * whatever value is at hand; cache the result unless it is `None`.
   */
  function Fetch(d: KeyDecl, instSection: Option<string>, cache: NestedCache.Cache<Value>,
                 sources: seq<ConfigSource>, env: Env): Fetched
  {
    match ResolveSection(d.sectionName, instSection)
    case Err(e) => Fetched(Err(e), cache)
    case Ok(s) => FetchIn(d, s, cache, sources, env)
  }

  /** The key getter once the section is known to be `s`. */
  function FetchIn(d: KeyDecl, s: string, cache: NestedCache.Cache<Value>,
                   sources: seq<ConfigSource>, env: Env): Fetched
  {
    var k := d.KeyName();
    var hit := NestedCache.Get(cache, s, k);
    if hit.Some? then Fetched(Ok(hit), cache)
    else
      var raw := FirstValue(sources, s, k, env);
      if raw.None? && d.required then Fetched(Err(KeyError(MissingKeyMessage(s, k))), cache)
      else
        var v := if raw.Some? then Some(Str(raw.value)) else d.defaultValue;
        var casted := if d.cast.Some? then d.cast.value(v) else Ok(v);
        match casted
        case Err(e) => Fetched(Err(e), cache)
        case Ok(w) => Fetched(Ok(w), if w.Some? then NestedCache.Put(cache, s, k, w.value) else cache)
  }

  /** A cached value is returned as it is: no source is asked and the cast does not run again. */
  lemma FetchCacheHit(d: KeyDecl, instSection: Option<string>, cache: NestedCache.Cache<Value>,
                      sources: seq<ConfigSource>, env: Env, s: string, v: Value)
    requires ResolveSection(d.sectionName, instSection) == Ok(s)
    requires NestedCache.Get(cache, s, d.KeyName()) == Some(v)
    ensures Fetch(d, instSection, cache, sources, env) == Fetched(Ok(Some(v)), cache)
  {
  }

  /**
   * On a cache miss with no source supplying a value, a required key raises
   * KeyError; an optional one takes its default, and the cast, if declared,
   * is applied to that default, `None` included.
   */
  lemma FetchNothingFound(d: KeyDecl, instSection: Option<string>, cache: NestedCache.Cache<Value>,
                          sources: seq<ConfigSource>, env: Env, s: string)
    requires ResolveSection(d.sectionName, instSection) == Ok(s)
    requires NestedCache.Get(cache, s, d.KeyName()).None?
    requires FirstValue(sources, s, d.KeyName(), env).None?
    ensures var f := Fetch(d, instSection, cache, sources, env);
            && (d.required ==> f == Fetched(Err(KeyError(MissingKeyMessage(s, d.KeyName()))), cache))
            && (!d.required && d.cast.None? ==> f.result == Ok(d.defaultValue))
            && (!d.required && d.cast.Some? ==>
                  f.result == match d.cast.value(d.defaultValue)
                              case Ok(w) => Ok(w)
                              case Err(e) => Err(e))
  {
  }

  /**
   * Because the cast runs on the default, an optional `tuple_cast` key with
   * no default raises TypeError when no source has it, where `None` would be
   * expected, and an optional `enum_cast` key raises KeyError.
   */
  lemma MissingOptionalCastKeyRaises(d: KeyDecl, instSection: Option<string>, cache: NestedCache.Cache<Value>,
                                     sources: seq<ConfigSource>, env: Env, s: string)
    requires ResolveSection(d.sectionName, instSection) == Ok(s)
    requires NestedCache.Get(cache, s, d.KeyName()).None?
    requires FirstValue(sources, s, d.KeyName(), env).None?
    requires !d.required && d.defaultValue.None? && d.cast.Some?
    ensures (exists o :: d.cast.value == TupleKeyCast(o)) ==>
              Fetch(d, instSection, cache, sources, env).result == Err(TypeError(NoLenMessage(None)))
    ensures forall e :: d.cast.value == EnumKeyCast(e) ==>
              Fetch(d, instSection, cache, sources, env).result == Err(KeyError(NotAMemberMessage(e, "None")))
  {
    FetchNothingFound(d, instSection, cache, sources, env, s);
  }

  /**
   * The cache changes only to record a result that is not `None`, under
   * the key's (section, key name); failures and `None` leave it as it was.
   */
  lemma FetchCachesOnlyValues(d: KeyDecl, instSection: Option<string>, cache: NestedCache.Cache<Value>,
                              sources: seq<ConfigSource>, env: Env)
    ensures var f := Fetch(d, instSection, cache, sources, env);
            && (f.result.Err? || f.result == Ok(None) ==> f.cache == cache)
            && (f.result.Ok? && f.result.value.Some? ==>
                  var s := ResolveSection(d.sectionName, instSection).value;
                  && NestedCache.Get(f.cache, s, d.KeyName()) == f.result.value
                  && f.cache == if NestedCache.Get(cache, s, d.KeyName()).Some? then cache
                                else NestedCache.Put(cache, s, d.KeyName(), f.result.value.value))
  {
    match ResolveSection(d.sectionName, instSection)
    case Err(_) =>
    case Ok(s) =>
      var k := d.KeyName();
      if NestedCache.Get(cache, s, k).None? {
        var raw := FirstValue(sources, s, k, env);
        if !(raw.None? && d.required) {
          var v := if raw.Some? then Some(Str(raw.value)) else d.defaultValue;
          var casted := if d.cast.Some? then d.cast.value(v) else Ok(v);
          if casted.Ok? && casted.value.Some? {
            assert Fetch(d, instSection, cache, sources, env).cache == NestedCache.Put(cache, s, k, casted.value.value);
          }
        }
      }
  }

  /**
   * A second access after one that gave a value returns the same value
   * from the cache, whatever the sources now hold; a `None` result is not
   * cached, so the next access asks the sources again.
   */
  lemma FetchTwice(d: KeyDecl, instSection: Option<string>, cache: NestedCache.Cache<Value>,
                   sources: seq<ConfigSource>, env: Env, sources': seq<ConfigSource>, env': Env)
    ensures var f := Fetch(d, instSection, cache, sources, env);
            && (f.result.Ok? && f.result.value.Some? ==>
                  Fetch(d, instSection, f.cache, sources', env') == f)
            && (f.result == Ok(None) ==>
                  Fetch(d, instSection, f.cache, sources', env') == Fetch(d, instSection, cache, sources', env'))
  {
    var f := Fetch(d, instSection, cache, sources, env);
    if f.result.Ok? && f.result.value.Some? {
      FetchCachesOnlyValues(d, instSection, cache, sources, env);
    }
  }

  // ---------------------------------------------------------------------
  // Reading every key of one instance

  /** `read` on one instance: each key in order, stopping at the first exception. */
  function ReadKeys(ds: seq<KeyDecl>, instSection: Option<string>, cache: NestedCache.Cache<Value>,
                    sources: seq<ConfigSource>, env: Env): (Outcome, NestedCache.Cache<Value>)
  {
    if |ds| == 0 then (Pass, cache)
    else
      var f := Fetch(ds[0], instSection, cache, sources, env);
      if f.result.Err? then (Fail(f.result.error), f.cache)
      else ReadKeys(ds[1..], instSection, f.cache, sources, env)
  }

  /** `d` has an entry wherever `c` has one. */
  ghost predicate Covers(d: NestedCache.Cache<Value>, c: NestedCache.Cache<Value>) {
    forall s, k :: NestedCache.Get(c, s, k).Some? ==> NestedCache.Get(d, s, k).Some?
  }

  /** A key access never removes a cache entry. */
  lemma FetchGrows(d: KeyDecl, instSection: Option<string>, cache: NestedCache.Cache<Value>,
                   sources: seq<ConfigSource>, env: Env)
    ensures Covers(Fetch(d, instSection, cache, sources, env).cache, cache)
  {
    FetchCachesOnlyValues(d, instSection, cache, sources, env);
  }

  /** Reading keys never removes a cache entry. */
  lemma {:induction false} ReadKeysGrows(ds: seq<KeyDecl>, instSection: Option<string>, cache: NestedCache.Cache<Value>,
                                         sources: seq<ConfigSource>, env: Env)
    ensures Covers(ReadKeys(ds, instSection, cache, sources, env).1, cache)
    decreases |ds|
  {
    if |ds| > 0 {
      var f := Fetch(ds[0], instSection, cache, sources, env);
      FetchGrows(ds[0], instSection, cache, sources, env);
      if f.result.Ok? {
        ReadKeysGrows(ds[1..], instSection, f.cache, sources, env);
      }
    }
  }

  /**
   * `read` fails fast: when it raises, every key before some index was
   * read without error and the key at that index raised that exception.
   */
  lemma {:induction false} ReadKeysFailFast(ds: seq<KeyDecl>, instSection: Option<string>, cache: NestedCache.Cache<Value>,
                                            sources: seq<ConfigSource>, env: Env)
    requires ReadKeys(ds, instSection, cache, sources, env).0.Fail?
    ensures exists i :: 0 <= i < |ds| &&
              var (r, c) := ReadKeys(ds[..i], instSection, cache, sources, env);
              var f := Fetch(ds[i], instSection, c, sources, env);
              && r == Pass
              && f.result.Err?
              && ReadKeys(ds, instSection, cache, sources, env) == (Fail(f.result.error), f.cache)
    decreases |ds|
  {
    var f := Fetch(ds[0], instSection, cache, sources, env);
    if f.result.Err? {
      assert ds[..0] == [];
    } else {
      ReadKeysFailFast(ds[1..], instSection, f.cache, sources, env);
      var i :| 0 <= i < |ds| - 1 &&
        var (r, c) := ReadKeys(ds[1..][..i], instSection, f.cache, sources, env);
        var g := Fetch(ds[1..][i], instSection, c, sources, env);
        && r == Pass && g.result.Err?
        && ReadKeys(ds[1..], instSection, f.cache, sources, env) == (Fail(g.result.error), g.cache);
      assert ds[..i + 1][1..] == ds[1..][..i];
      assert ds[..i + 1][0] == ds[0];
      assert ds[1..][i] == ds[i + 1];
    }
  }

  /**
   * After a `read` that succeeded, reading again over the same sources, from
   * that cache or any cache that covers it, succeeds and changes nothing:
   * every value read was cached, and a key that was not cached resolves to
   * `None` again.
   */
  lemma {:induction false} ReadKeysSettles(ds: seq<KeyDecl>, instSection: Option<string>, cache: NestedCache.Cache<Value>,
                                           sources: seq<ConfigSource>, env: Env, later: NestedCache.Cache<Value>)
    requires ReadKeys(ds, instSection, cache, sources, env).0 == Pass
    requires Covers(later, ReadKeys(ds, instSection, cache, sources, env).1)
    ensures ReadKeys(ds, instSection, later, sources, env) == (Pass, later)
    decreases |ds|
  {
    if |ds| > 0 {
      var f := Fetch(ds[0], instSection, cache, sources, env);
      ReadKeysGrows(ds[1..], instSection, f.cache, sources, env);
      FetchCachesOnlyValues(ds[0], instSection, cache, sources, env);
      var s := ResolveSection(ds[0].sectionName, instSection).value;
      var k := ds[0].KeyName();
      if NestedCache.Get(later, s, k).None? {
        assert NestedCache.Get(f.cache, s, k).None?;
        assert NestedCache.Get(cache, s, k).None?;
        assert Fetch(ds[0], instSection, later, sources, env) == Fetched(f.result, later);
      }
      ReadKeysSettles(ds[1..], instSection, f.cache, sources, env, later);
    }
  }

  // ---------------------------------------------------------------------
  // Trees of instances

  /** An instance as a value: class, section, cache, sources and memoised children. */
  datatype Node = Node(schema: Schema, section: Option<string>, cache: NestedCache.Cache<Value>,
                       sources: seq<ConfigSource>, children: map<string, Node>)

  /** A new instance as `cls()` makes it: the decorator's section (if any), nothing cached, no sources. */
  function FreshNode(cls: Schema): Node {
    Node(cls, cls.section, map[], [], map[])
  }

  /** `c` is the class of one of the group keys of `s` memoised under `a`. */
  ghost predicate ChildOf(s: Schema, a: string, c: Schema) {
    exists g :: g in s.groups && Memo(g) == a && g.cls == c
  }

  /** Every memoised child is an instance of a group key's class stored under that group key's memo name. */
  ghost predicate WF(n: Node)
    decreases n.schema
  {
    forall a :: a in n.children ==> ChildOf(n.schema, a, n.children[a].schema) && WF(n.children[a])
  }

  /** Accessing group key `g`: the memoised child, created on first access. */
  function Attach(n: Node, g: GroupDecl): Node {
    if Memo(g) in n.children then n else n.(children := n.children[Memo(g) := FreshNode(g.cls)])
  }

  /**
   * Group keys whose classes have the same `__name__` share one memoised
   * child: after accessing the first, the second returns the instance made
   * for the first, of the first one's class.
   */
  lemma SameNameSharesChild(n: Node, g1: GroupDecl, g2: GroupDecl)
    requires g1.cls.name == g2.cls.name && Memo(g1) !in n.children
    ensures var m := Attach(Attach(n, g1), g2);
            && m.children == n.children[Memo(g1) := FreshNode(g1.cls)]
            && m.children[Memo(g2)] == FreshNode(g1.cls)
  {
  }

  /**
   * Every class the `section` decorator returns is named `SectionConfig`, so
   * two group keys of decorated classes share one child, and the second
   * group key's child has the first one's section.
   */
  lemma DecoratedGroupsShareChild(n: Node, a1: string, s1: string, c1: Schema, a2: string, s2: string, c2: Schema)
    requires c1.section.None? && c2.section.None? && "_SectionConfig" !in n.children
    ensures var g1 := GroupDecl(a1, Section(s1, c1));
            var g2 := GroupDecl(a2, Section(s2, c2));
            && Memo(g1) == Memo(g2) == "_SectionConfig"
            && Attach(Attach(n, g1), g2).children[Memo(g2)].section == Some(s1)
  {
    var g1 := GroupDecl(a1, Section(s1, c1));
    var g2 := GroupDecl(a2, Section(s2, c2));
    assert Memo(g1) == "_" + "SectionConfig" == "_SectionConfig";
    SameNameSharesChild(n, g1, g2);
  }

  /** Accessing a group key of the schema keeps the tree well formed. */
  lemma AttachKeepsWF(n: Node, g: GroupDecl)
    requires WF(n) && g in n.schema.groups
    ensures WF(Attach(n, g))
  {
    assert ChildOf(n.schema, Memo(g), g.cls);
  }

  /** `get_registered_composed_config`: the group keys from index `i` on accessed in order. */
  ghost function MaterializeFrom(n: Node, i: nat): (m: Node)
    requires i <= |n.schema.groups|
    ensures m == n.(children := m.children)
    ensures forall a :: a in n.children ==> a in m.children && m.children[a] == n.children[a]
    ensures forall j :: i <= j < |n.schema.groups| ==> Memo(n.schema.groups[j]) in m.children
    decreases |n.schema.groups| - i
  {
    if i == |n.schema.groups| then n
    else MaterializeFrom(Attach(n, n.schema.groups[i]), i + 1)
  }

  /** The memo names of the group keys from index `i` on. */
  function MemoNames(gs: seq<GroupDecl>, i: nat): set<string>
    requires i <= |gs|
    decreases |gs| - i
  {
    if i == |gs| then {} else {Memo(gs[i])} + MemoNames(gs, i + 1)
  }

  /** Accessing the group keys from index `i` on adds exactly their memo names to the children. */
  lemma {:induction false} MaterializeKeys(n: Node, i: nat)
    requires i <= |n.schema.groups|
    ensures MaterializeFrom(n, i).children.Keys == n.children.Keys + MemoNames(n.schema.groups, i)
    decreases |n.schema.groups| - i
  {
    if i < |n.schema.groups| {
      MaterializeKeys(Attach(n, n.schema.groups[i]), i + 1);
    }
  }

  /** The children that accessing the group keys creates are fresh instances. */
  lemma {:induction false} MaterializeFresh(n: Node, i: nat)
    requires i <= |n.schema.groups|
    ensures forall a :: a in MaterializeFrom(n, i).children && a !in n.children ==>
              MaterializeFrom(n, i).children[a] == FreshNode(MaterializeFrom(n, i).children[a].schema)
    decreases |n.schema.groups| - i
  {
    if i < |n.schema.groups| {
      MaterializeFresh(Attach(n, n.schema.groups[i]), i + 1);
    }
  }

  /** Accessing the group keys keeps the tree well formed. */
  lemma {:induction false} MaterializeKeepsWF(n: Node, i: nat)
    requires WF(n) && i <= |n.schema.groups|
    ensures WF(MaterializeFrom(n, i))
    decreases |n.schema.groups| - i
  {
    if i < |n.schema.groups| {
      AttachKeepsWF(n, n.schema.groups[i]);
      MaterializeKeepsWF(Attach(n, n.schema.groups[i]), i + 1);
    }
  }

  /** The instances returned for the first `|done|` group keys are those memoised under their names. */
  ghost predicate Accessed<T>(m: map<string, T>, done: seq<T>, gs: seq<GroupDecl>) {
    |done| <= |gs| && forall j :: 0 <= j < |done| ==> Memo(gs[j]) in m && done[j] == m[Memo(gs[j])]
  }

  /** Accessing the next group key, which memoises `c` unless a child was there, extends `Accessed`. */
  lemma ExtendAccessed<T>(before: map<string, T>, after: map<string, T>, done: seq<T>, gs: seq<GroupDecl>, c: T)
    requires Accessed(before, done, gs) && |done| < |gs|
    requires Memo(gs[|done|]) in after && c == after[Memo(gs[|done|])]
    requires after == if Memo(gs[|done|]) in before then before else before[Memo(gs[|done|]) := c]
    ensures Accessed(after, done + [c], gs)
  {
  }

  /** One step of `get_registered_composed_config`: access group key `i`, then the rest. */
  lemma MaterializeStep(n: Node, i: nat)
    requires i < |n.schema.groups|
    ensures MaterializeFrom(n, i) == MaterializeFrom(Attach(n, n.schema.groups[i]), i + 1)
  {
  }

  /** What the propagated methods do: add a source, clear the cache, or read every key. */
  datatype Op = AddSource(arg: Arg) | ClearCache | Read(env: Env)

  /** The body of `add_source`, `clear_cache` or `read` on one instance, children aside. */
  function OwnStep(op: Op, n: Node): (res: (Outcome, Node))
    ensures res.1 == n.(cache := res.1.cache, sources := res.1.sources)
  {
    match op
    case AddSource(a) =>
      if a.NotASource? then (Fail(TypeError(NotASourceMessage)), n)
      else (Pass, n.(sources := n.sources + [a.source]))
    case ClearCache => (Pass, n.(cache := map[]))
    case Read(env) =>
      var (r, c) := ReadKeys(n.schema.keys, n.section, n.cache, n.sources, env);
      (r, n.(cache := c))
  }

  /**
   * `_propagate_to_children`: access every group key (creating children as
   * needed), run the operation on the instance, then on each child in
   * group-key order, depth-first, stopping at the first exception. A child
   * that two group keys share is visited twice. (A child that is not an
   * instance of one of its group keys' classes does not occur in a
   * well-formed tree; it is passed over.)
   */
  ghost function Propagated(op: Op, n: Node): (res: (Outcome, Node))
    ensures res.1.schema == n.schema
    ensures forall j :: 0 <= j < |n.schema.groups| ==> Memo(n.schema.groups[j]) in res.1.children
    decreases n.schema, 1
  {
    var m := MaterializeFrom(n, 0);
    var (r, m1) := OwnStep(op, m);
    if r.Fail? then (r, m1) else PropagateChildren(op, m1, 0)
  }

  /** The children of the group keys from index `i` on, each in turn. */
  ghost function PropagateChildren(op: Op, n: Node, i: nat): (res: (Outcome, Node))
    requires i <= |n.schema.groups|
    requires forall j :: i <= j < |n.schema.groups| ==> Memo(n.schema.groups[j]) in n.children
    ensures res.1 == n.(children := res.1.children)
    ensures res.1.children.Keys == n.children.Keys
    decreases n.schema, 0, |n.schema.groups| - i
  {
    if i == |n.schema.groups| then (Pass, n)
    else
      var a := Memo(n.schema.groups[i]);
      if !ChildOf(n.schema, a, n.children[a].schema) then PropagateChildren(op, n, i + 1)
      else
        var (r, c) := Propagated(op, n.children[a]);
        var n' := n.(children := n.children[a := c]);
        if r.Fail? then (r, n') else PropagateChildren(op, n', i + 1)
  }

  /** The methods keep a well-formed tree well formed. */
  lemma {:induction false} PropagatedKeepsWF(op: Op, n: Node)
    requires WF(n)
    ensures WF(Propagated(op, n).1)
    decreases n.schema, 1
  {
    MaterializeKeepsWF(n, 0);
    var m1 := OwnStep(op, MaterializeFrom(n, 0)).1;
    PropagateChildrenKeepsWF(op, m1, 0);
  }

  lemma {:induction false} PropagateChildrenKeepsWF(op: Op, n: Node, i: nat)
    requires WF(n) && i <= |n.schema.groups|
    requires forall j :: i <= j < |n.schema.groups| ==> Memo(n.schema.groups[j]) in n.children
    ensures WF(PropagateChildren(op, n, i).1)
    decreases n.schema, 0, |n.schema.groups| - i
  {
    if i < |n.schema.groups| {
      var a := Memo(n.schema.groups[i]);
      ChildOfWF(n, a);
      var (r, c) := Propagated(op, n.children[a]);
      PropagatedKeepsWF(op, n.children[a]);
      ReplaceChildKeepsWF(n, a, c);
      if r.Pass? {
        PropagateChildrenKeepsWF(op, n.(children := n.children[a := c]), i + 1);
      }
    }
  }

  /** A child of a well-formed tree is an instance of a group key's class, and well formed. */
  lemma ChildOfWF(n: Node, a: string)
    requires WF(n) && a in n.children
    ensures ChildOf(n.schema, a, n.children[a].schema) && WF(n.children[a])
  {
  }

  /** Replacing a child by a well-formed tree of the same class keeps the tree well formed. */
  lemma ReplaceChildKeepsWF(n: Node, a: string, c: Node)
    requires WF(n) && a in n.children && WF(c) && c.schema == n.children[a].schema
    ensures WF(n.(children := n.children[a := c]))
  {
    assert ChildOf(n.schema, a, n.children[a].schema);
  }

  /**
   * Partway through `PropagateChildren(op, _, 0)`, which yields `target`:
   * either an exception `r` ended it with tree `n`, or the children from
   * index `i` on are still to run on `n`.
   */
  ghost predicate Tracks(op: Op, n: Node, i: nat, r: Outcome, target: (Outcome, Node)) {
    if r.Fail? then (r, n) == target
    else i <= |n.schema.groups|
         && (forall j :: i <= j < |n.schema.groups| ==> Memo(n.schema.groups[j]) in n.children)
         && PropagateChildren(op, n, i) == target
  }

  /** Running the child of group key `i`, an instance of that key's class, advances `Tracks` by one group key. */
  lemma TracksStep(op: Op, n: Node, i: nat, r: Outcome, c: Node, target: (Outcome, Node))
    requires Tracks(op, n, i, Pass, target) && i < |n.schema.groups|
    requires ChildOf(n.schema, Memo(n.schema.groups[i]), n.children[Memo(n.schema.groups[i])].schema)
    requires (r, c) == Propagated(op, n.children[Memo(n.schema.groups[i])])
    ensures Tracks(op, n.(children := n.children[Memo(n.schema.groups[i]) := c]), i + 1, r, target)
  {
  }

  /** Once a child fails or every group key has been run, `Tracks` has reached its target. */
  lemma TracksDone(op: Op, n: Node, i: nat, r: Outcome, target: (Outcome, Node))
    requires Tracks(op, n, i, r, target) && (r.Pass? ==> i == |n.schema.groups|)
    ensures (r, n) == target
  {
  }

  /**
   * The per-instance state the propagated methods change: the cache, the
   * source list, or the source list read as one that may only grow by
   * copies of `s` at its end.
   */
  datatype Part = CachePart | SourcesPart | SourcesThen(s: ConfigSource)

  /** The part each propagated method leaves alone: `add_source` the caches, the others the source lists. */
  function KeptPart(op: Op): Part {
    if op.AddSource? then CachePart else SourcesPart
  }

  /**
   * The parts that `op` keeps on one instance: `add_source` keeps the
   * cache and only appends its own source, or changes nothing when it
   * raises; `clear_cache` and `read` keep the source list.
   */
  predicate Keeps(op: Op, p: Part) {
    match p
    case CachePart => op.AddSource?
    case SourcesPart => !op.AddSource? || op.arg.NotASource?
    case SourcesThen(s) => !op.AddSource? || op.arg.NotASource? || op.arg.source == s
  }

  /** `n` and `n'` hold the same in part `p`; for `SourcesThen(s)`, `n'` may have copies of `s` appended. */
  ghost predicate SamePart(p: Part, n: Node, n': Node) {
    match p
    case CachePart => n.cache == n'.cache
    case SourcesPart => n.sources == n'.sources
    case SourcesThen(s) =>
      && |n.sources| <= |n'.sources|
      && (forall k :: 0 <= k < |n.sources| ==> n'.sources[k] == n.sources[k])
      && (forall k :: |n.sources| <= k < |n'.sources| ==> n'.sources[k] == s)
  }

  /** No instance of the tree holds anything in part `p`: nothing cached, or no source. */
  ghost predicate AllBlank(p: Part, n: Node)
    decreases n
  {
    && (match p
        case CachePart => n.cache == map[]
        case SourcesPart => n.sources == []
        case SourcesThen(s) => forall k :: 0 <= k < |n.sources| ==> n.sources[k] == s)
    && forall a :: a in n.children ==> AllBlank(p, n.children[a])
  }

  /**
   * Every instance of tree `n` is still in tree `n'`, memoised under the
   * same name and holding the same in part `p`; an instance that `n'` has
   * and `n` had not holds nothing in part `p`, nor does any below it.
   */
  ghost predicate Kept(p: Part, n: Node, n': Node)
    decreases n
  {
    && SamePart(p, n, n')
    && n.children.Keys <= n'.children.Keys
    && forall a :: a in n'.children ==>
         if a in n.children then Kept(p, n.children[a], n'.children[a]) else AllBlank(p, n'.children[a])
  }

  lemma {:induction false} KeptRefl(p: Part, n: Node)
    ensures Kept(p, n, n)
    decreases n
  {
    forall a | a in n.children
      ensures Kept(p, n.children[a], n.children[a])
    {
      KeptRefl(p, n.children[a]);
    }
  }

  /** A tree that holds nothing in part `p` still holds nothing there after a change that keeps it. */
  lemma {:induction false} BlankKept(p: Part, n: Node, n': Node)
    requires AllBlank(p, n) && Kept(p, n, n')
    ensures AllBlank(p, n')
    decreases n
  {
    forall a | a in n'.children
      ensures AllBlank(p, n'.children[a])
    {
      if a in n.children {
        BlankKept(p, n.children[a], n'.children[a]);
      }
    }
  }

  lemma {:induction false} KeptTrans(p: Part, n0: Node, n1: Node, n2: Node)
    requires Kept(p, n0, n1) && Kept(p, n1, n2)
    ensures Kept(p, n0, n2)
    decreases n0
  {
    forall a | a in n2.children
      ensures if a in n0.children then Kept(p, n0.children[a], n2.children[a]) else AllBlank(p, n2.children[a])
    {
      if a in n0.children {
        KeptTrans(p, n0.children[a], n1.children[a], n2.children[a]);
      } else if a in n1.children {
        BlankKept(p, n1.children[a], n2.children[a]);
      }
    }
  }

  /** Accessing the group keys keeps every instance, and the children it creates are fresh. */
  lemma MaterializeKept(p: Part, n: Node)
    ensures Kept(p, n, MaterializeFrom(n, 0))
  {
    var m := MaterializeFrom(n, 0);
    MaterializeFresh(n, 0);
    forall a | a in m.children
      ensures if a in n.children then Kept(p, n.children[a], m.children[a]) else AllBlank(p, m.children[a])
    {
      if a in n.children {
        KeptRefl(p, n.children[a]);
      }
    }
  }

  /** A child replaced by a tree that keeps it leaves the whole tree kept. */
  lemma ReplaceChildKept(p: Part, n: Node, a: string, c: Node)
    requires a in n.children && Kept(p, n.children[a], c)
    ensures Kept(p, n, n.(children := n.children[a := c]))
  {
    forall b | b in n.children && b != a
      ensures Kept(p, n.children[b], n.children[b])
    {
      KeptRefl(p, n.children[b]);
    }
  }

  /** The own step of an operation keeps every part the operation keeps. */
  lemma OwnStepKept(op: Op, p: Part, n: Node)
    requires Keeps(op, p)
    ensures Kept(p, n, OwnStep(op, n).1)
  {
    KeptRefl(p, n);
  }

  /**
   * `add_source` leaves every cache of the tree as it was and only appends
   * its source to source lists, and `clear_cache` and `read` leave every
   * source list; a child that the call creates holds nothing there (or
   * only copies of the source), nor does any instance below it.
   */
  lemma {:induction false} PropagatedKept(op: Op, p: Part, n: Node)
    requires Keeps(op, p)
    ensures Kept(p, n, Propagated(op, n).1)
    decreases n.schema, 1
  {
    var m := MaterializeFrom(n, 0);
    var (r, m1) := OwnStep(op, m);
    MaterializeKept(p, n);
    OwnStepKept(op, p, m);
    KeptTrans(p, n, m, m1);
    if r.Pass? {
      PropagateChildrenKept(op, p, m1, 0);
      KeptTrans(p, n, m1, PropagateChildren(op, m1, 0).1);
    }
  }

  lemma {:induction false} PropagateChildrenKept(op: Op, p: Part, n: Node, i: nat)
    requires Keeps(op, p) && i <= |n.schema.groups|
    requires forall j :: i <= j < |n.schema.groups| ==> Memo(n.schema.groups[j]) in n.children
    ensures Kept(p, n, PropagateChildren(op, n, i).1)
    decreases n.schema, 0, |n.schema.groups| - i, 1
  {
    if i == |n.schema.groups| {
      KeptRefl(p, n);
    } else if !ChildOf(n.schema, Memo(n.schema.groups[i]), n.children[Memo(n.schema.groups[i])].schema) {
      PropagateChildrenKept(op, p, n, i + 1);
    } else {
      PropagateChildKept(op, p, n, i);
    }
  }

  /** The step of `PropagateChildrenKept` that runs the child of group key `i`. */
  lemma {:induction false} PropagateChildKept(op: Op, p: Part, n: Node, i: nat)
    requires Keeps(op, p) && i < |n.schema.groups|
    requires forall j :: i <= j < |n.schema.groups| ==> Memo(n.schema.groups[j]) in n.children
    requires ChildOf(n.schema, Memo(n.schema.groups[i]), n.children[Memo(n.schema.groups[i])].schema)
    ensures Kept(p, n, PropagateChildren(op, n, i).1)
    decreases n.schema, 0, |n.schema.groups| - i, 0
  {
    var a := Memo(n.schema.groups[i]);
    var (r, c) := Propagated(op, n.children[a]);
    PropagatedKept(op, p, n.children[a]);
    var n' := n.(children := n.children[a := c]);
    ReplaceChildKept(p, n, a, c);
    if r.Pass? {
      PropagateChildrenKept(op, p, n', i + 1);
      KeptTrans(p, n, n', PropagateChildren(op, n', i + 1).1);
    }
  }

  /** No instance in the tree has a cache entry. */
  ghost predicate AllCachesEmpty(n: Node) {
    AllBlank(CachePart, n)
  }

  /** Every instance in the tree has `s` as its last source. */
  ghost predicate AllEndWith(n: Node, s: ConfigSource)
    decreases n
  {
    && |n.sources| > 0 && n.sources[|n.sources| - 1] == s
    && forall a :: a in n.children ==> AllEndWith(n.children[a], s)
  }

  /** Every key of a node is the memo name of one of its group keys. */
  lemma MemoOfSomeGroup(n: Node, a: string)
    requires WF(n) && a in n.children
    ensures exists j :: 0 <= j < |n.schema.groups| && Memo(n.schema.groups[j]) == a
  {
    var g :| g in n.schema.groups && Memo(g) == a && g.cls == n.children[a].schema;
    var j :| 0 <= j < |n.schema.groups| && n.schema.groups[j] == g;
  }

  /**
   * After `clear_cache`, no instance of the tree has a cache entry, and
   * every instance keeps its source list.
   */
  lemma {:induction false} ClearCacheEmptiesTree(n: Node)
    requires WF(n)
    ensures Propagated(ClearCache, n).0 == Pass
    ensures AllCachesEmpty(Propagated(ClearCache, n).1)
    ensures Kept(SourcesPart, n, Propagated(ClearCache, n).1)
    decreases n.schema, 1
  {
    PropagatedKept(ClearCache, SourcesPart, n);
    MaterializeKeepsWF(n, 0);
    var m := MaterializeFrom(n, 0);
    var (r, m1) := OwnStep(ClearCache, m);
    ClearCacheChildren(m1, 0);
  }

  lemma {:induction false} ClearCacheChildren(n: Node, i: nat)
    requires WF(n) && i <= |n.schema.groups| && n.cache == map[]
    requires forall j :: 0 <= j < |n.schema.groups| ==> Memo(n.schema.groups[j]) in n.children
    requires forall j :: 0 <= j < i ==>
               AllCachesEmpty(n.children[Memo(n.schema.groups[j])])
    ensures PropagateChildren(ClearCache, n, i).0 == Pass
    ensures AllCachesEmpty(PropagateChildren(ClearCache, n, i).1)
    decreases n.schema, 0, |n.schema.groups| - i
  {
    if i == |n.schema.groups| {
      forall a | a in n.children
        ensures AllCachesEmpty(n.children[a])
      {
        MemoOfSomeGroup(n, a);
      }
    } else {
      var a := Memo(n.schema.groups[i]);
      ClearCacheEmptiesTree(n.children[a]);
      PropagatedKeepsWF(ClearCache, n.children[a]);
      var (r, c) := Propagated(ClearCache, n.children[a]);
      var n' := n.(children := n.children[a := c]);
      assert ChildOf(n.schema, a, c.schema) by {
        assert ChildOf(n.schema, a, n.children[a].schema);
      }
      assert WF(n');
      ClearCacheChildren(n', i + 1);
    }
  }

  /**
   * `add_source` with a source succeeds, appends it to the instance's own
   * list, and leaves it at the end of the list of every instance in the
   * tree; with anything else it raises TypeError and the instance's list is
   * unchanged. Either way every cache of the tree is kept, so a value cached
   * before still wins over the new source.
   */
  lemma {:induction false} AddSourceReachesTree(n: Node, a: Arg)
    requires WF(n)
    ensures var (r, n') := Propagated(AddSource(a), n);
            && (a.NotASource? ==> r == Fail(TypeError(NotASourceMessage)) && n'.sources == n.sources
                                  && Kept(SourcesPart, n, n'))
            && (a.Src? ==> r == Pass && n'.sources == n.sources + [a.source]
                           && AllEndWith(n', a.source) && Kept(SourcesThen(a.source), n, n'))
            && Kept(CachePart, n, n')
    decreases n.schema, 1
  {
    PropagatedKept(AddSource(a), CachePart, n);
    if a.Src? {
      PropagatedKept(AddSource(a), SourcesThen(a.source), n);
    } else {
      PropagatedKept(AddSource(a), SourcesPart, n);
    }
    if a.Src? {
      MaterializeKeepsWF(n, 0);
      var m := MaterializeFrom(n, 0);
      var (r, m1) := OwnStep(AddSource(a), m);
      AddSourceChildren(m1, a.source, 0);
    }
  }

  lemma {:induction false} AddSourceChildren(n: Node, s: ConfigSource, i: nat)
    requires WF(n) && i <= |n.schema.groups| && |n.sources| > 0 && n.sources[|n.sources| - 1] == s
    requires forall j :: 0 <= j < |n.schema.groups| ==> Memo(n.schema.groups[j]) in n.children
    requires forall j :: 0 <= j < i ==>
               AllEndWith(n.children[Memo(n.schema.groups[j])], s)
    ensures PropagateChildren(AddSource(Src(s)), n, i).0 == Pass
    ensures AllEndWith(PropagateChildren(AddSource(Src(s)), n, i).1, s)
    decreases n.schema, 0, |n.schema.groups| - i
  {
    if i == |n.schema.groups| {
      forall a | a in n.children
        ensures AllEndWith(n.children[a], s)
      {
        MemoOfSomeGroup(n, a);
      }
    } else {
      var a := Memo(n.schema.groups[i]);
      AddSourceReachesTree(n.children[a], Src(s));
      PropagatedKeepsWF(AddSource(Src(s)), n.children[a]);
      var (r, c) := Propagated(AddSource(Src(s)), n.children[a]);
      var n' := n.(children := n.children[a := c]);
      assert ChildOf(n.schema, a, c.schema) by {
        assert ChildOf(n.schema, a, n.children[a].schema);
      }
      assert WF(n');
      AddSourceChildren(n', s, i + 1);
    }
  }

  /**
   * The operation runs on the instance before any child: the instance's own
   * cache and sources end up as its own step leaves them, and an exception
   * there is the result, with no child visited.
   */
  lemma OwnStepFirst(op: Op, n: Node)
    ensures var (r0, m1) := OwnStep(op, MaterializeFrom(n, 0));
            var (r, n') := Propagated(op, n);
            && n'.cache == m1.cache && n'.sources == m1.sources
            && (r0.Fail? ==> r == r0 && n' == m1)
  {
  }

  /**
   * A child that two group keys share is visited once per group key, so
   * `add_source` on the parent appends the source to that child twice.
   */
  lemma SharedChildGetsSourceTwice(cls: Schema, g1: GroupDecl, g2: GroupDecl, s: ConfigSource)
    requires cls.groups == [g1, g2] && g1.cls.name == g2.cls.name && g1.cls.groups == []
    ensures var n := Propagated(AddSource(Src(s)), FreshNode(cls)).1;
            && n.sources == [s]
            && n.children.Keys == {Memo(g1)}
            && n.children[Memo(g1)].sources == [s, s]
  {
    var op := AddSource(Src(s));
    var a := Memo(g1);
    assert Memo(g2) == a;
    var child := FreshNode(g1.cls);
    var m := MaterializeFrom(FreshNode(cls), 0);
    MaterializeStep(FreshNode(cls), 0);
    MaterializeStep(Attach(FreshNode(cls), g1), 1);
    SameNameSharesChild(FreshNode(cls), g1, g2);
    assert m.children == map[a := child];
    assert m.sources + [s] == [s];
    var m1 := m.(sources := [s]);
    assert ChildOf(cls, a, g1.cls) by {
      assert g1 in cls.groups;
    }
    var once := child.(sources := [s]);
    var twice := child.(sources := [s, s]);
    assert Propagated(op, child) == (Pass, once) by {
      assert MaterializeFrom(child, 0) == child;
      assert OwnStep(op, child) == (Pass, once);
      assert PropagateChildren(op, once, 0) == (Pass, once);
    }
    assert Propagated(op, once) == (Pass, twice) by {
      assert MaterializeFrom(once, 0) == once;
      assert once.sources + [s] == [s, s];
      assert PropagateChildren(op, twice, 0) == (Pass, twice);
    }
    var n1 := m1.(children := map[a := once]);
    var n2 := m1.(children := map[a := twice]);
    assert m1.children[a := once] == map[a := once];
    assert n1.children[a := twice] == map[a := twice];
    assert PropagateChildren(op, m1, 0) == PropagateChildren(op, n1, 1);
    assert PropagateChildren(op, n1, 1) == PropagateChildren(op, n2, 2);
  }

  /** Accessing group keys whose children all exist changes nothing. */
  lemma {:induction false} MaterializeNoop(n: Node, i: nat)
    requires WF(n) && i <= |n.schema.groups|
    requires forall j :: 0 <= j < |n.schema.groups| ==> Memo(n.schema.groups[j]) in n.children
    ensures MaterializeFrom(n, i) == n
    decreases |n.schema.groups| - i
  {
    if i < |n.schema.groups| {
      MaterializeNoop(n, i + 1);
    }
  }

  /** `Config(sources=args)`: `add_source` for each argument in turn, stopping at the first exception. */
  ghost function AddSources(n: Node, args: seq<Arg>): (res: (Outcome, Node))
    decreases |args|
  {
    if args == [] then (Pass, n)
    else
      var (r, n1) := Propagated(AddSource(args[0]), n);
      if r.Fail? then (r, n1) else AddSources(n1, args[1..])
  }

  /**
   * Adding sources one by one succeeds exactly when every argument is a
   * source, and the instance's own list grows by the sources before the
   * first argument that is not one.
   */
  lemma {:induction false} AddSourcesRoot(n: Node, args: seq<Arg>)
    requires WF(n)
    ensures AddSources(n, args).0 == if AllSources(args) then Pass else Fail(TypeError(NotASourceMessage))
    ensures AddSources(n, args).1.sources == n.sources + ValidPrefix(args)
    decreases |args|
  {
    if args == [] {
      assert n.sources + [] == n.sources;
    } else {
      AddSourceReachesTree(n, args[0]);
      ValidPrefixFirst(args);
      var (r, n1) := Propagated(AddSource(args[0]), n);
      if r.Pass? {
        PropagatedKeepsWF(AddSource(args[0]), n);
        AddSourcesRoot(n1, args[1..]);
        AppendAssoc(n.sources, [args[0].source], ValidPrefix(args[1..]));
      } else {
        assert n1.sources + [] == n1.sources;
      }
    }
  }

  /** One step of `AddSources`: the first argument is added to the whole tree. */
  lemma AddSourcesFirst(n: Node, args: seq<Arg>)
    requires |args| > 0
    ensures AddSources(n, args) ==
              var (r, n1) := Propagated(AddSource(args[0]), n);
              if r.Fail? then (r, n1) else AddSources(n1, args[1..])
  {
  }

  lemma AppendAssoc<T>(a: seq<T>, b: seq<T>, c: seq<T>)
    ensures (a + b) + c == a + (b + c)
  {
  }

  /** When every argument is a source, the last one ends the list of every instance in the tree. */
  lemma {:induction false} AddSourcesLast(n: Node, args: seq<Arg>)
    requires WF(n) && AllSources(args) && |args| > 0
    ensures AllEndWith(AddSources(n, args).1, args[|args| - 1].source)
    decreases |args|
  {
    AddSourceReachesTree(n, args[0]);
    if |args| > 1 {
      PropagatedKeepsWF(AddSource(args[0]), n);
      var n1 := Propagated(AddSource(args[0]), n).1;
      assert args[1..][|args| - 2] == args[|args| - 1];
      AddSourcesLast(n1, args[1..]);
    }
  }

  // ---------------------------------------------------------------------
  // Instances

  /** The footprints of two instances have nothing in common. */
  ghost predicate Apart(c: Config, d: Config)
    reads c, d
  {
    c.Repr !! d.Repr
  }

  /**
   * A `Config` instance: section name, cache, sources, and the children its
   * group keys memoised. `model` is the tree rooted here as a value.
   */
  class Config {
    const schema: Schema
    const sectionName: Option<string>
    var cache: NestedCache.Cache<Value>
    var sources: seq<ConfigSource>
    var children: map<string, Config>
    ghost var model: Node
    ghost var Repr: set<Config>

    /** `model` mirrors this instance and its children, which form a tree. */
    ghost predicate Valid()
      reads this, Repr
      decreases Repr, 1
    {
      && this in Repr
      && Shape()
      && model.schema == schema && model.section == sectionName
      && model.cache == cache && model.sources == sources
      && model.children.Keys == children.Keys
      && (forall a :: a in children ==> model.children[a] == children[a].model)
      && Fitted()
    }

    /** Each child is an instance of the class of a group key memoised under its name. */
    ghost predicate Fitted()
      reads this`children
    {
      forall a {:trigger ChildOf(schema, a, children[a].schema)} :: a in children ==> ChildOf(schema, a, children[a].schema)
    }

    /**
     * Each child is a valid instance of a group key's class and owns a part
     * of the footprint separate from this instance and from its siblings.
     */
    ghost predicate Shape()
      reads this`children, this`Repr, Repr - {this}
      decreases Repr, 0
    {
      && this in Repr
      && (forall a :: a in children ==>
            && children[a] in Repr && children[a] != this
            && children[a].Repr <= Repr && this !in children[a].Repr)
      && (forall a, b {:trigger Apart(children[a], children[b])} ::
            a in children && b in children && a != b ==> Apart(children[a], children[b]))
      && (forall a :: a in children ==> children[a].Valid())
    }

    /** Every group key has a memoised child. */
    ghost predicate Attached()
      reads this
    {
      forall j :: 0 <= j < |schema.groups| ==> Memo(schema.groups[j]) in children
    }

    /** What `Valid` says about one child: it is valid and its tree is the model's child. */
    lemma ChildMirror(a: string)
      requires Valid() && a in children
      ensures model.schema == schema && a in model.children
      ensures children[a].Valid() && model.children[a] == children[a].model
      ensures children[a].model.schema == children[a].schema
      ensures children[a].Repr <= Repr && this !in children[a].Repr
      ensures ChildOf(schema, a, children[a].schema)
    {
      assert Shape() && Fitted();
    }

    /** The tree of a valid instance is well formed. */
    lemma {:induction false} ModelWF()
      requires Valid()
      ensures WF(model)
      decreases Repr
    {
      forall a | a in model.children
        ensures ChildOf(model.schema, a, model.children[a].schema) && WF(model.children[a])
      {
        ChildMirror(a);
        children[a].ModelWF();
      }
    }

    /** Attaching a new valid child under a fresh memo name keeps the tree valid. */
    static twostate lemma AttachKeepsValid(p: Config, new a: string, new c: Config)
      requires old(p.Valid())
      requires a !in old(p.children) && p.children == old(p.children)[a := c]
      requires fresh(c) && c.Valid() && c.Repr == {c} && ChildOf(p.schema, a, c.schema)
      requires p.Repr == old(p.Repr) + {c}
      requires p.cache == old(p.cache) && p.sources == old(p.sources)
      requires p.model == old(p.model).(children := old(p.model).children[a := c.model])
      requires unchanged(old(p.Repr) - {p})
      ensures p.Valid()
    {
      assert p.Fitted() by {
        assert old(p.Fitted());
      }
      AttachFootprint(p, a);
      AttachMirror(p, a);
      p.Assemble();
    }

    /** After the attachment, every child owns a separate part of the footprint and is valid. */
    static twostate lemma AttachFootprint(p: Config, new a: string)
      requires old(p.Valid())
      requires a !in old(p.children) && a in p.children && p.children == old(p.children)[a := p.children[a]]
      requires p.children[a].Valid() && p.children[a].Repr == {p.children[a]} && p.children[a] !in old(p.Repr)
      requires p.Repr == old(p.Repr) + {p.children[a]}
      requires unchanged(old(p.Repr) - {p})
      ensures p in p.Repr
      ensures forall b :: b in p.children ==>
                && p.children[b] in p.Repr && p.children[b] != p
                && p.children[b].Repr <= p.Repr && p !in p.children[b].Repr
      ensures forall b1, b2 {:trigger Apart(p.children[b1], p.children[b2])} ::
                b1 in p.children && b2 in p.children && b1 != b2 ==> Apart(p.children[b1], p.children[b2])
      ensures forall b :: b in p.children ==> p.children[b].Valid()
    {
      OldChildrenKept(p);
      forall b | b in old(p.children)
        ensures p.children[b] in old(p.Repr) && p.children[b] != p
      {
        assert old(p.children[b] in p.Repr && p.children[b] != p);
      }
      forall b1, b2 | b1 in p.children && b2 in p.children && b1 != b2
        ensures Apart(p.children[b1], p.children[b2])
      {
        if b1 != a && b2 != a {
          assert old(Apart(p.children[b1], p.children[b2]));
        }
      }
    }

    /** After the attachment, the model's children are the children's models. */
    static twostate lemma AttachMirror(p: Config, new a: string)
      requires old(p.Valid())
      requires a !in old(p.children) && a in p.children && p.children == old(p.children)[a := p.children[a]]
      requires p.model == old(p.model).(children := old(p.model).children[a := p.children[a].model])
      requires unchanged(old(p.Repr) - {p})
      ensures p.model.schema == p.schema && p.model.section == p.sectionName
      ensures p.model.children.Keys == p.children.Keys
      ensures forall b :: b in p.children ==> p.model.children[b] == p.children[b].model
    {
      forall b | b in p.children
        ensures p.model.children[b] == p.children[b].model
      {
        if b != a {
          assert old(p.model.children[b] == p.children[b].model);
          assert old(p.children[b] in p.Repr && p.children[b] != p);
        }
      }
    }

    /** `Valid`, conjunct by conjunct. */
    lemma Assemble()
      requires this in Repr
      requires forall a :: a in children ==>
                 && children[a] in Repr && children[a] != this
                 && children[a].Repr <= Repr && this !in children[a].Repr
      requires forall a, b {:trigger Apart(children[a], children[b])} ::
                 a in children && b in children && a != b ==> Apart(children[a], children[b])
      requires forall a :: a in children ==> children[a].Valid()
      requires model.schema == schema && model.section == sectionName
      requires model.cache == cache && model.sources == sources
      requires model.children.Keys == children.Keys
      requires forall a :: a in children ==> model.children[a] == children[a].model
      requires Fitted()
      ensures Valid()
    {
    }

    /** The children the parent already had are untouched by a change outside its old footprint. */
    static twostate lemma OldChildrenKept(p: Config)
      requires old(p.Valid())
      requires unchanged(old(p.Repr) - {p})
      ensures forall b :: b in old(p.children) ==>
                var d := old(p.children[b]);
                d.Valid() && d.Repr == old(d.Repr) && d.Repr <= old(p.Repr) && p !in d.Repr
    {
      forall b | b in old(p.children)
        ensures var d := old(p.children[b]);
                d.Valid() && d.Repr == old(d.Repr) && d.Repr <= old(p.Repr) && p !in d.Repr
      {
        var d := old(p.children[b]);
        assert old(d.Valid() && d.Repr <= p.Repr && p !in d.Repr);
        assert d.Repr == old(d.Repr);
      }
    }

    /** A child updated within its own footprint, which grew only by new objects, leaves the tree valid. */
    static twostate lemma ChildUpdateKeepsValid(p: Config, new a: string)
      requires old(p.Valid()) && a in old(p.children)
      requires p.children == old(p.children) && p.cache == old(p.cache) && p.sources == old(p.sources)
      requires p.children[a].Valid() && fresh(p.children[a].Repr - old(p.children[a].Repr))
      requires p.Repr == old(p.Repr) + p.children[a].Repr
      requires p.model == old(p.model).(children := old(p.model).children[a := p.children[a].model])
      requires unchanged(old(p.Repr) - old(p.children[a].Repr) - {p})
      ensures p.Valid()
    {
      assert p.Fitted() by {
        assert old(p.Fitted());
      }
      UpdateFootprint(p, a);
      UpdateMirror(p, a);
      p.Assemble();
    }

    /** After the update of child `a`, every child owns a separate part of the footprint and is valid. */
    static twostate lemma UpdateFootprint(p: Config, new a: string)
      requires old(p.Valid()) && a in old(p.children) && p.children == old(p.children)
      requires p.children[a].Valid() && fresh(p.children[a].Repr - old(p.children[a].Repr))
      requires p.Repr == old(p.Repr) + p.children[a].Repr
      requires unchanged(old(p.Repr) - old(p.children[a].Repr) - {p})
      ensures p in p.Repr
      ensures forall b :: b in p.children ==>
                && p.children[b] in p.Repr && p.children[b] != p
                && p.children[b].Repr <= p.Repr && p !in p.children[b].Repr
      ensures forall b1, b2 {:trigger Apart(p.children[b1], p.children[b2])} ::
                b1 in p.children && b2 in p.children && b1 != b2 ==> Apart(p.children[b1], p.children[b2])
      ensures forall b :: b in p.children ==> p.children[b].Valid()
    {
      assert old(p in p.Repr && p.children[a] in p.Repr && p.children[a] != p && p !in p.children[a].Repr);
      forall b | b in p.children && b != a
        ensures p.children[b].Valid() && p.children[b].Repr == old(p.children[b].Repr)
        ensures p.children[b].Repr !! p.children[a].Repr && p !in p.children[b].Repr
        ensures p.children[b] in old(p.Repr) && p.children[b] != p && p.children[b].Repr <= old(p.Repr)
      {
        SiblingKept(p, a, b);
        assert old(p.children[b] in p.Repr && p.children[b] != p && p.children[b].Repr <= p.Repr);
      }
      forall b1, b2 | b1 in p.children && b2 in p.children && b1 != b2
        ensures Apart(p.children[b1], p.children[b2])
      {
        if b1 != a && b2 != a {
          assert old(Apart(p.children[b1], p.children[b2]));
        }
      }
    }

    /** After the update of child `a`, the model's children are still the children's models. */
    static twostate lemma UpdateMirror(p: Config, new a: string)
      requires old(p.Valid()) && a in old(p.children) && p.children == old(p.children)
      requires p.model == old(p.model).(children := old(p.model).children[a := p.children[a].model])
      requires unchanged(old(p.Repr) - old(p.children[a].Repr) - {p})
      ensures p.model.schema == p.schema && p.model.section == p.sectionName
      ensures p.model.children.Keys == p.children.Keys
      ensures forall b :: b in p.children ==> p.model.children[b] == p.children[b].model
    {
      forall b | b in p.children
        ensures p.model.children[b] == p.children[b].model
      {
        if b != a {
          var c, d := p.children[a], p.children[b];
          assert old(p.model.children[b] == d.model && d in p.Repr && d != p && d.Valid() && Apart(d, c));
          assert old(d in d.Repr);
        }
      }
    }

    /** The sibling `b` of the updated child `a` is untouched: still valid, and apart from `a`'s grown footprint. */
    static twostate lemma SiblingKept(p: Config, new a: string, new b: string)
      requires old(p.Valid()) && a in old(p.children) && b in old(p.children) && a != b
      requires p.children == old(p.children)
      requires fresh(p.children[a].Repr - old(p.children[a].Repr))
      requires unchanged(old(p.Repr) - old(p.children[a].Repr) - {p})
      ensures p.children[b].Valid() && p.children[b].Repr == old(p.children[b].Repr)
      ensures p.children[b].Repr !! p.children[a].Repr && p !in p.children[b].Repr
      ensures p.children[b].model == old(p.children[b].model)
    {
      var c, d := p.children[a], p.children[b];
      assert old(d.Valid() && Apart(d, c) && d.Repr <= p.Repr && p !in d.Repr);
      assert forall o :: o in old(d.Repr) ==> o in old(p.Repr) - old(c.Repr) - {p};
      assert d.Repr == old(d.Repr);
    }

    /** `Config.__init__` with no sources: nothing cached, no children yet. */
    constructor(cls: Schema, section: Option<string>)
      ensures Valid() && fresh(Repr) && Repr == {this}
      ensures model == Node(cls, section, map[], [], map[])
    {
      schema := cls;
      sectionName := section;
      cache := map[];
      sources := [];
      children := map[];
      model := Node(cls, section, map[], [], map[]);
      Repr := {this};
    }

    /**
     * `cls(section_name, sources)`: a new instance with the section
     * `InitialSection` gives, then `add_source` for each of the sources in
     * turn; the first argument that is not a source makes the constructor
     * raise TypeError. When the section itself is rejected, `r` is that
     * TypeError and `c` is an instance no caller receives.
     */
    static method New(cls: Schema, explicit: SectionArg, args: Option<seq<Arg>>) returns (c: Config, r: Outcome)
      ensures c.Valid() && fresh(c.Repr)
      ensures InitialSection(cls, explicit).Err? ==> r == Fail(InitialSection(cls, explicit).error)
      ensures InitialSection(cls, explicit).Ok? ==>
                (r, c.model) == AddSources(Node(cls, InitialSection(cls, explicit).value, map[], [], map[]),
                                           if args.None? then [] else args.value)
      ensures InitialSection(cls, explicit).Ok? ==>
                && r == (if args.None? || AllSources(args.value) then Pass else Fail(TypeError(NotASourceMessage)))
                && c.sources == (if args.None? then [] else ValidPrefix(args.value))
      ensures InitialSection(cls, explicit).Ok? && args.Some? && |args.value| > 0 && AllSources(args.value) ==>
                AllEndWith(c.model, args.value[|args.value| - 1].source)
    {
      var init := InitialSection(cls, explicit);
      if init.Err? {
        c := new Config(cls, cls.section);
        r := Fail(init.error);
        return;
      }
      c := new Config(cls, init.value);
      var todo := if args.None? then [] else args.value;
      ghost var m0 := c.model;
      AddSourcesRoot(m0, todo);
      if |todo| > 0 && AllSources(todo) {
        AddSourcesLast(m0, todo);
      }
      r := c.AddEach(todo);
    }

    /** The loop of `__init__`: `add_source` on each argument in turn, stopping at the first exception. */
    method AddEach(args: seq<Arg>) returns (r: Outcome)
      requires Valid()
      modifies Repr
      ensures Valid() && fresh(Repr - old(Repr))
      ensures (r, model) == AddSources(old(model), args)
    {
      ghost var target := AddSources(model, args);
      r := Pass;
      var i := 0;
      while i < |args| && r.Pass?
        invariant 0 <= i <= |args|
        invariant Valid() && fresh(Repr - old(Repr))
        invariant if r.Fail? then (r, model) == target else AddSources(model, args[i..]) == target
      {
        AddSourcesFirst(model, args[i..]);
        assert args[i..][1..] == args[i + 1..];
        r := AddSource(args[i]);
        i := i + 1;
      }
    }

    /** `_get_from_cache`: the cached value of (section, key), if any. */
    method GetFromCache(section: string, key: string) returns (v: Option<Value>)
      ensures v == NestedCache.Get(cache, section, key)
      ensures v.Some? <==> section in cache && key in cache[section]
    {
      if section in cache && key in cache[section] {
        v := Some(cache[section][key]);
      } else {
        v := None;
      }
    }

    /** `_add_to_cache`: records a value under (section, key); nothing else changes. */
    method AddToCache(section: string, key: string, value: Value)
      requires Valid()
      modifies this
      ensures Valid() && Repr == old(Repr) && children == old(children) && sources == old(sources)
      ensures cache == NestedCache.Put(old(cache), section, key, value)
      ensures model == old(model).(cache := cache)
    {
      cache := NestedCache.Put(cache, section, key, value);
      model := model.(cache := cache);
    }

    /**
     * `get_key`: asks the sources in order and returns the first value
     * found; `queried` counts the sources asked.
     */
    method GetKey(section: string, key: string, env: Env) returns (v: Option<string>, ghost queried: nat)
      ensures v == FirstValue(sources, section, key, env)
      ensures queried == if v.Some? then FirstHit(sources, section, key, env) + 1 else |sources|
    {
      v := None;
      queried := 0;
      var i := 0;
      while i < |sources|
        invariant 0 <= i <= |sources| && queried == i
        invariant i <= FirstHit(sources, section, key, env)
        invariant v == None
      {
        v := sources[i].GetConfigValue(section, key, env);
        queried := queried + 1;
        if v.Some? {
          break;
        }
        i := i + 1;
      }
    }

    /** The getter of key declaration `d` on this instance. */
    method Get(d: KeyDecl, env: Env) returns (r: Result<Option<Value>>)
      requires Valid()
      modifies this
      ensures Valid() && Repr == old(Repr) && children == old(children) && sources == old(sources)
      ensures Fetch(d, sectionName, old(cache), sources, env) == Fetched(r, cache)
      ensures model == old(model).(cache := cache)
    {
      var section: string;
      if d.sectionName.Some? {
        section := d.sectionName.value;
      } else if sectionName.Some? {
        section := sectionName.value;
      } else {
        return Err(ValueError(NoSectionMessage));
      }
      var key := d.KeyName();
      r := Lookup(d, section, key, env);
    }

    /** The getter once the section and the key name are resolved: cache, then sources, default and cast. */
    method Lookup(d: KeyDecl, section: string, key: string, env: Env) returns (r: Result<Option<Value>>)
      requires Valid() && key == d.KeyName()
      modifies this
      ensures Valid() && Repr == old(Repr) && children == old(children) && sources == old(sources)
      ensures FetchIn(d, section, old(cache), sources, env) == Fetched(r, cache)
      ensures model == old(model).(cache := cache)
    {
      var cached := GetFromCache(section, key);
      if cached.Some? {
        return Ok(cached);
      }
      ghost var queried: nat;
      var raw;
      raw, queried := GetKey(section, key, env);
      var value: Option<Value>;
      if raw.None? {
        if d.required {
          return Err(KeyError(MissingKeyMessage(section, key)));
        }
        value := d.defaultValue;
      } else {
        value := Some(Str(raw.value));
      }
      if d.cast.Some? {
        var casted := d.cast.value(value);
        if casted.Err? {
          return Err(casted.error);
        }
        value := casted.value;
      }
      if value.Some? {
        AddToCache(section, key, value.value);
      }
      r := Ok(value);
    }

    /**
     * The getter of group key `g`: the child memoised under `Memo(g)`, made
     * with `g.cls()` on first access.
     */
    method Group(g: GroupDecl) returns (c: Config)
      requires Valid() && g in schema.groups
      modifies this
      ensures Valid() && fresh(Repr - old(Repr))
      ensures Repr == if Memo(g) in old(children) then old(Repr) else old(Repr) + {c}
      ensures cache == old(cache) && sources == old(sources)
      ensures Memo(g) in children && c == children[Memo(g)]
      ensures children == if Memo(g) in old(children) then old(children) else old(children)[Memo(g) := c]
      ensures model == Attach(old(model), g)
    {
      var a := Memo(g);
      if a in children {
        c := children[a];
      } else {
        c := new Config(g.cls, g.cls.section);
        children := children[a := c];
        model := model.(children := model.children[a := c.model]);
        Repr := Repr + c.Repr;
        assert ChildOf(schema, a, c.schema);
        AttachKeepsValid(this, a, c);
      }
    }

    /** One turn of `get_registered_composed_config`: access group key `i` and record its instance. */
    method AccessNext(i: nat, done: seq<Config>, ghost target: Node) returns (cs: seq<Config>)
      requires Valid() && i < |schema.groups| && |done| == i
      requires Accessed(children, done, schema.groups) && MaterializeFrom(model, i) == target
      modifies this
      ensures Valid() && fresh(Repr - old(Repr))
      ensures cache == old(cache) && sources == old(sources)
      ensures |cs| == i + 1 && Accessed(children, cs, schema.groups) && MaterializeFrom(model, i + 1) == target
    {
      MaterializeStep(model, i);
      ghost var before := children;
      var c := Group(schema.groups[i]);
      ExtendAccessed(before, children, done, schema.groups, c);
      cs := done + [c];
    }

    /** `get_registered_composed_config`: every group key accessed, in declaration order. */
    method RegisteredComposed() returns (cs: seq<Config>)
      requires Valid()
      modifies this
      ensures Valid() && fresh(Repr - old(Repr))
      ensures cache == old(cache) && sources == old(sources)
      ensures |cs| == |schema.groups| && Accessed(children, cs, schema.groups)
      ensures model == MaterializeFrom(old(model), 0)
    {
      ghost var target := MaterializeFrom(model, 0);
      cs := [];
      for i := 0 to |schema.groups|
        invariant |cs| == i
        invariant Valid() && fresh(Repr - old(Repr))
        invariant cache == old(cache) && sources == old(sources)
        invariant Accessed(children, cs, schema.groups)
        invariant MaterializeFrom(model, i) == target
      {
        cs := AccessNext(i, cs, target);
      }
    }

    /** The body of `read` on this instance alone: every key getter in order, failing fast. */
    method ReadOwn(env: Env) returns (r: Outcome)
      requires Valid()
      modifies this
      ensures Valid()
      ensures Repr == old(Repr) && children == old(children) && sources == old(sources)
      ensures (r, cache) == ReadKeys(schema.keys, sectionName, old(cache), sources, env)
      ensures model == old(model).(cache := cache)
    {
      var i := 0;
      while i < |schema.keys|
        invariant 0 <= i <= |schema.keys|
        invariant Valid()
        invariant Repr == old(Repr) && children == old(children) && sources == old(sources)
        invariant ReadKeys(schema.keys[i..], sectionName, cache, sources, env)
               == ReadKeys(schema.keys, sectionName, old(cache), sources, env)
        invariant model == old(model).(cache := cache)
      {
        var d := schema.keys[i];
        assert schema.keys[i..][1..] == schema.keys[i + 1..];
        var v := Get(d, env);
        if v.Err? {
          return Fail(v.error);
        }
        i := i + 1;
      }
      r := Pass;
    }

    /** The body of `add_source`, `clear_cache` or `read` on this instance alone. */
    method ApplyOwn(op: Op) returns (r: Outcome)
      requires Valid()
      modifies this
      ensures Valid() && Repr == old(Repr) && children == old(children)
      ensures (r, model) == OwnStep(op, old(model))
    {
      match op
      case AddSource(a) =>
        if a.NotASource? {
          r := Fail(TypeError(NotASourceMessage));
        } else {
          sources := sources + [a.source];
          model := model.(sources := sources);
          r := Pass;
        }
      case ClearCache =>
        cache := map[];
        model := model.(cache := cache);
        r := Pass;
      case Read(env) =>
        r := ReadOwn(env);
    }

    /**
     * A method decorated with `_propagate_to_children`: the group keys are
     * accessed, the body runs on this instance, then the decorated method
     * runs on each child in group-key order, and the first exception ends it.
     */
    method Apply(op: Op) returns (r: Outcome)
      requires Valid()
      modifies Repr
      ensures Valid() && fresh(Repr - old(Repr))
      ensures (r, model) == Propagated(op, old(model))
      decreases schema, 3
    {
      var kids := RegisteredComposed();
      r := ApplyOwn(op);
      if r.Pass? {
        r := ApplyChildren(op, kids);
      }
    }

    /** The loop over `child_configs`: each child in turn, stopping at the first exception. */
    method ApplyChildren(op: Op, kids: seq<Config>) returns (r: Outcome)
      requires Valid()
      requires |kids| == |schema.groups| && Accessed(children, kids, schema.groups)
      modifies Repr
      ensures Valid() && fresh(Repr - old(Repr))
      ensures (r, model) == PropagateChildren(op, old(model), 0)
      decreases schema, 2
    {
      ghost var target := PropagateChildren(op, model, 0);
      ghost var repr := Repr;
      r := Pass;
      var i := 0;
      while i < |kids| && r.Pass?
        invariant 0 <= i <= |kids|
        invariant Valid() && fresh(Repr - repr)
        invariant children == old(children)
        invariant Tracks(op, model, i, r, target)
      {
        r := ApplyNext(op, i, kids, target);
        i := i + 1;
      }
      TracksDone(op, model, i, r, target);
    }

    /** One turn of the loop over `child_configs`: the decorated method run on child `i`. */
    method ApplyNext(op: Op, i: nat, kids: seq<Config>, ghost target: (Outcome, Node))
      returns (r: Outcome)
      requires Valid() && i < |kids| == |schema.groups|
      requires Accessed(children, kids, schema.groups) && Tracks(op, model, i, Pass, target)
      modifies Repr
      ensures Valid() && fresh(Repr - old(Repr))
      ensures children == old(children) && Tracks(op, model, i + 1, r, target)
      decreases schema, 1
    {
      ghost var m := model;
      var a := Memo(schema.groups[i]);
      r := ApplyChild(op, a, kids[i]);
      TracksStep(op, m, i, r, model.children[a], target);
    }

    /** The decorated method run on child `c`, memoised under `a`, whose tree takes the place of the old one. */
    method ApplyChild(op: Op, a: string, c: Config) returns (r: Outcome)
      requires Valid() && a in children && c == children[a]
      modifies Repr
      ensures Valid() && fresh(Repr - old(Repr)) && children == old(children)
      ensures a in old(model).children && ChildOf(old(model).schema, a, old(model).children[a].schema)
      ensures model == old(model).(children := old(model).children[a := model.children[a]])
      ensures (r, model.children[a]) == Propagated(op, old(model).children[a])
      decreases schema, 0
    {
      ghost var m, repr := model, Repr;
      ChildMirror(a);
      r := c.Apply(op);
      model := m.(children := m.children[a := c.model]);
      Repr := repr + c.Repr;
      ChildUpdateKeepsValid(this, a);
    }

    /**
     * `add_source`, propagated to every child: with a source, it ends up
     * last in the list of this instance and of every instance below it;
     * with anything else, TypeError and this instance's list is unchanged.
     */
    method AddSource(a: Arg) returns (r: Outcome)
      requires Valid()
      modifies Repr
      ensures Valid() && fresh(Repr - old(Repr))
      ensures (r, model) == Propagated(Op.AddSource(a), old(model))
      ensures a.NotASource? ==> r == Fail(TypeError(NotASourceMessage)) && sources == old(sources)
                                && Kept(SourcesPart, old(model), model)
      ensures a.Src? ==> r == Pass && sources == old(sources) + [a.source] && AllEndWith(model, a.source)
                         && Kept(SourcesThen(a.source), old(model), model)
      ensures cache == old(cache) && Kept(CachePart, old(model), model)
    {
      ModelWF();
      ghost var m := model;
      r := Apply(Op.AddSource(a));
      AddSourceReachesTree(m, a);
    }

    /**
     * `clear_cache`, propagated to every child: afterwards no instance of the
     * tree has a cache entry, and every instance keeps its sources.
     */
    method ClearCache() returns (r: Outcome)
      requires Valid()
      modifies Repr
      ensures Valid() && fresh(Repr - old(Repr))
      ensures (r, model) == Propagated(Op.ClearCache, old(model))
      ensures r == Pass && AllCachesEmpty(model)
      ensures sources == old(sources) && Kept(SourcesPart, old(model), model)
    {
      ModelWF();
      ghost var m := model;
      r := Apply(Op.ClearCache);
      ClearCacheEmptiesTree(m);
    }

    /**
     * `read`, propagated to every child: this instance's keys are read
     * first, in order, into its cache, and an exception among them is the
     * result before any child is read. No instance's sources change.
     */
    method Read(env: Env) returns (r: Outcome)
      requires Valid()
      modifies Repr
      ensures Valid() && fresh(Repr - old(Repr))
      ensures (r, model) == Propagated(Op.Read(env), old(model))
      ensures sources == old(sources)
      ensures var (r0, c) := ReadKeys(schema.keys, sectionName, old(cache), old(sources), env);
              cache == c && (r0.Fail? ==> r == r0)
      ensures Kept(SourcesPart, old(model), model)
    {
      ghost var m := model;
      r := Apply(Op.Read(env));
      OwnStepFirst(Op.Read(env), m);
      PropagatedKept(Op.Read(env), SourcesPart, m);
    }
  }
}
