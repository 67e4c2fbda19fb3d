/**
 * The cast helpers of typedconfig/casts.py: `enum_cast`, which looks a name up
 * in an enum, and `tuple_cast`, which splits a delimited string into a tuple.
 * Both are closures over their parameters; here the parameters are passed
 * explicitly, and `EnumKeyCast`/`TupleKeyCast` give the closures as casts
 * that a key declaration can carry.
 */
module Casts {
  import opened Common
  import opened Text

  /**
   * A Python `Enum` class: its name and the `NAME = value` assignments of
   * its body in definition order. An assignment whose value an earlier one
   * already has does not define a member: its name is an alias of that
   * earlier member. `__members__`, which `enum_type[name]` looks in, maps
   * every name, alias or not, to its member.
   */
  datatype EnumType = EnumType(name: string, body: seq<EnumMember>)

  /** Names in a class body are unique, as Python enforces when the class is defined. */
  ghost predicate UniqueNames(e: EnumType) {
    forall i, j :: 0 <= i < j < |e.body| ==> e.body[i].name != e.body[j].name
  }

  /** The assignment at `i` defines a member: no earlier assignment has its value. */
  ghost predicate Canonical(body: seq<EnumMember>, i: nat)
    requires i < |body|
  {
    forall j :: 0 <= j < i ==> body[j].value != body[i].value
  }

  /** The position of the assignment to `name`, or `|body|` when there is none. */
  function NameIndex(body: seq<EnumMember>, name: string): (k: nat)
    ensures k <= |body| && (k < |body| ==> body[k].name == name)
    ensures forall j :: 0 <= j < k ==> body[j].name != name
  {
    if |body| == 0 || body[0].name == name then 0
    else
      var k := NameIndex(body[1..], name);
      assert forall j :: 1 <= j < |body| ==> body[j] == body[1..][j - 1];
      k + 1
  }

  /** The position of the first assignment of value `v`, or `|body|` when there is none. */
  function ValueIndex(body: seq<EnumMember>, v: int): (k: nat)
    ensures k <= |body| && (k < |body| ==> body[k].value == v)
    ensures forall j :: 0 <= j < k ==> body[j].value != v
  {
    if |body| == 0 || body[0].value == v then 0
    else
      var k := ValueIndex(body[1..], v);
      assert forall j :: 1 <= j < |body| ==> body[j] == body[1..][j - 1];
      k + 1
  }

  /** The message of the KeyError `enum_cast` raises. */
  function NotAMemberMessage(e: EnumType, name: string): string {
    name + " is not a member of <enum '" + e.name + "'>"
  }

  /**
   * `enum_cast(e)(name)`: `e[name]`, the member that the assignment to
   * `name` defines or is an alias of; KeyError when no assignment has that
   * name.
   */
  function EnumCast(e: EnumType, name: string): (r: Result<EnumMember>)
    ensures r.Err? <==> forall i :: 0 <= i < |e.body| ==> e.body[i].name != name
    ensures r.Err? ==> r.error == KeyError(NotAMemberMessage(e, name))
    ensures r.Ok? ==> exists i, c :: 0 <= c <= i < |e.body| && e.body[i].name == name
                                     && e.body[c] == r.value && e.body[c].value == e.body[i].value
                                     && Canonical(e.body, c)
  {
    var i := NameIndex(e.body, name);
    if i == |e.body| then Err(KeyError(NotAMemberMessage(e, name)))
    else
      var c := ValueIndex(e.body, e.body[i].value);
      assert 0 <= c <= i < |e.body| && e.body[i].name == name && Canonical(e.body, c);
      Ok(e.body[c])
  }

  /**
   * The name of an assignment finds the member it defines, or, for an
   * alias, the earlier member with the same value.
   */
  lemma EnumCastResolves(e: EnumType, i: nat, c: nat)
    requires UniqueNames(e) && c <= i < |e.body|
    requires e.body[c].value == e.body[i].value && Canonical(e.body, c)
    ensures EnumCast(e, e.body[i].name) == Ok(e.body[c])
  {
    assert NameIndex(e.body, e.body[i].name) == i;
    assert ValueIndex(e.body, e.body[i].value) == c;
  }

  /**
   * With `class E(Enum): A = 1; B = 1`, `B` is an alias: `enum_cast(E)("B")`
   * returns `E.A`, whose name is `A`.
   */
  lemma EnumCastAlias()
    ensures var e := EnumType("E", [EnumMember("A", 1), EnumMember("B", 1)]);
            EnumCast(e, "B") == Ok(EnumMember("A", 1))
  {
    var e := EnumType("E", [EnumMember("A", 1), EnumMember("B", 1)]);
    EnumCastResolves(e, 1, 0);
  }

  /** `str(n)` for a non-negative integer: its decimal digits. */
  function Decimal(n: nat): (r: string)
    ensures |r| > 0 && forall i :: 0 <= i < |r| ==> '0' <= r[i] <= '9'
  {
    var last := [(48 + n % 10) as char];
    if n < 10 then last else Decimal(n / 10) + last
  }

  /**
   * `str(v)` for the values a key can hold other than a string: `None`, an
   * integer, a boolean and an enum member (`E.A`). A tuple's form is not
   * modelled.
   */
  function Render(v: Option<Value>): Option<string> {
    match v
    case None => Some("None")
    case Some(Int(i)) => Some(if i < 0 then "-" + Decimal(-i) else Decimal(i))
    case Some(Bool(b)) => Some(if b then "True" else "False")
    case Some(Member(en, m)) => Some(en + "." + m.name)
    case Some(_) => None
  }

  /**
   * The closure `enum_cast(e)` applied to a key's value: `e[v]`, re-raised
   * as KeyError naming `str(v)`. A string is looked up by name; any other
   * value, `None` included, names no member.
   */
  function EnumKeyCast(e: EnumType): (cast: Cast)
    ensures forall name :: cast(Some(Str(name))).Ok? <==> EnumCast(e, name).Ok?
    ensures forall name :: EnumCast(e, name).Ok? ==>
              cast(Some(Str(name))) == Ok(Some(Member(e.name, EnumCast(e, name).value)))
    ensures forall name :: EnumCast(e, name).Err? ==> cast(Some(Str(name))) == Err(EnumCast(e, name).error)
    ensures forall v: Option<Value> :: !(v.Some? && v.value.Str?) ==> cast(v).Err? && cast(v).error.KeyError?
    ensures forall v: Option<Value> {:trigger Render(v)} :: Render(v).Some? ==> cast(v) == Err(KeyError(NotAMemberMessage(e, Render(v).value)))
    ensures cast(None) == Err(KeyError(NotAMemberMessage(e, "None")))
  {
    (v: Option<Value>) =>
      match v
      case Some(Str(name)) =>
        (match EnumCast(e, name)
         case Ok(m) => Ok(Some(Member(e.name, m)))
         case Err(err) => Err(err))
      case _ => Err(KeyError(match Render(v) case Some(r) => NotAMemberMessage(e, r) case None => ""))
  }

  /** The parameters of `tuple_cast`, with their defaults in `DefaultTupleOptions`. */
  datatype TupleOptions = TupleOptions(
    baseCast: Option<string -> Result<Value>>,
    delimiter: string,
    ignoreTrailingDelimiter: bool,
    strip: bool)

  function DefaultTupleOptions(): TupleOptions {
    TupleOptions(None, ",", true, true)
  }

  /** Each piece stripped, in order. */
  function StripAll(ps: seq<string>): (r: seq<string>)
    ensures |r| == |ps| && forall i :: 0 <= i < |ps| ==> r[i] == Strip(ps[i])
  {
    seq(|ps|, i requires 0 <= i < |ps| => Strip(ps[i]))
  }

  /** The split pieces, stripped when `strip` is set. */
  function Trimmed(o: TupleOptions, s: string): (r: seq<string>)
    requires |o.delimiter| > 0
    ensures |r| == |Split(s, o.delimiter)|
  {
    var split := Split(s, o.delimiter);
    if o.strip then StripAll(split) else split
  }

  /**
   * The pieces a non-empty input is cut into before `base_cast` runs:
   * split, optionally stripped, with one empty trailing piece dropped when
   * `ignore_trailing_delimiter` is set.
   */
  function Pieces(o: TupleOptions, s: string): (r: seq<string>)
    requires |o.delimiter| > 0
    ensures var t := Trimmed(o, s); |t| - 1 <= |r| <= |t| && r == t[..|r|]
    ensures |r| < |Trimmed(o, s)| <==> o.ignoreTrailingDelimiter && Trimmed(o, s)[|Trimmed(o, s)| - 1] == ""
  {
    var ps := Trimmed(o, s);
    if o.ignoreTrailingDelimiter && |ps[|ps| - 1]| == 0 then ps[..|ps| - 1] else ps
  }

  /** Each piece as a string value, in order. */
  function StrValues(ps: seq<string>): (r: seq<Value>)
    ensures |r| == |ps| && forall i :: 0 <= i < |ps| ==> r[i] == Str(ps[i])
  {
    seq(|ps|, i requires 0 <= i < |ps| => Str(ps[i]))
  }

  /**
   * `tuple(f(p) for p in ps)`: `f` applied to each piece in order; the first
   * exception raised stops the generator and propagates.
   */
  function MapCast(f: string -> Result<Value>, ps: seq<string>): (r: Result<seq<Value>>)
    ensures r.Ok? <==> forall i :: 0 <= i < |ps| ==> f(ps[i]).Ok?
    ensures r.Ok? ==> |r.value| == |ps| && forall i :: 0 <= i < |ps| ==> r.value[i] == f(ps[i]).value
    ensures r.Err? ==> exists i :: 0 <= i < |ps| && f(ps[i]) == Err(r.error)
                                   && forall j :: 0 <= j < i ==> f(ps[j]).Ok?
  {
    if |ps| == 0 then Ok([])
    else
      match f(ps[0])
      case Err(e) => Err(e)
      case Ok(v) =>
        match MapCast(f, ps[1..])
        case Err(e) =>
          assert forall i :: 1 <= i < |ps| ==> ps[i] == ps[1..][i - 1];
          Err(e)
        case Ok(vs) =>
          assert forall i :: 1 <= i < |ps| ==> ps[i] == ps[1..][i - 1];
          Ok([v] + vs)
  }

  /**
   * `tuple_cast(...)(s)` on a string: the empty tuple for the empty string,
   * ValueError for an empty delimiter, otherwise one element per delimiter
   * plus one, less a dropped trailing empty piece; strings unless there is a
   * base cast.
   */
  function TupleCast(o: TupleOptions, s: string): (r: Result<seq<Value>>)
    ensures |s| == 0 ==> r == Ok([])
    ensures |s| > 0 && |o.delimiter| == 0 ==> r == Err(ValueError("empty separator"))
    ensures |s| > 0 && |o.delimiter| > 0 && r.Ok? ==>
              Count(s, o.delimiter) <= |r.value| <= Count(s, o.delimiter) + 1
    ensures o.baseCast.None? && (|s| == 0 || |o.delimiter| > 0) ==>
              r.Ok? && forall i :: 0 <= i < |r.value| ==> r.value[i].Str?
  {
    if |s| == 0 then Ok([])
    else if |o.delimiter| == 0 then Err(ValueError("empty separator"))
    else
      var ps := Pieces(o, s);
      if o.baseCast.None? then Ok(StrValues(ps)) else MapCast(o.baseCast.value, ps)
  }

  /** `type(v).__name__` for the values `len` rejects. */
  function TypeName(v: Option<Value>): string {
    match v
    case None => "NoneType"
    case Some(Int(_)) => "int"
    case Some(Bool(_)) => "bool"
    case Some(Member(en, _)) => en
    case Some(Str(_)) => "str"
    case Some(Tuple(_)) => "tuple"
  }

  /** The TypeError `len(v)` raises for a value without a length. */
  function NoLenMessage(v: Option<Value>): string {
    "object of type '" + TypeName(v) + "' has no len()"
  }

  /**
   * The closure `tuple_cast(...)` applied to a key's value. Only a string is
   * split. `len` raises TypeError on `None`, a number, a boolean or an enum
   * member; an empty tuple has length 0 and comes back as an empty tuple; a
   * non-empty tuple has no `split` and raises AttributeError.
   */
  function TupleKeyCast(o: TupleOptions): (cast: Cast)
    ensures forall s :: cast(Some(Str(s))).Ok? <==> TupleCast(o, s).Ok?
    ensures forall s :: TupleCast(o, s).Ok? ==> cast(Some(Str(s))) == Ok(Some(Tuple(TupleCast(o, s).value)))
    ensures forall s :: TupleCast(o, s).Err? ==> cast(Some(Str(s))) == Err(TupleCast(o, s).error)
    ensures forall v: Option<Value> {:trigger NoLenMessage(v)} :: v.None? || v.value.Int? || v.value.Bool? || v.value.Member? ==>
              cast(v) == Err(TypeError(NoLenMessage(v)))
    ensures cast(None) == Err(TypeError(NoLenMessage(None)))
  {
    (v: Option<Value>) =>
      match v
      case Some(Str(s)) =>
        (match TupleCast(o, s)
         case Ok(items) => Ok(Some(Tuple(items)))
         case Err(e) => Err(e))
      case Some(Tuple(items)) =>
        if |items| == 0 then Ok(Some(Tuple([])))
        else Err(AttributeError("'tuple' object has no attribute 'split'"))
      case _ => Err(TypeError(NoLenMessage(v)))
  }


  /** The empty string gives the empty tuple, whatever the options. */
  lemma TupleCastEmpty(o: TupleOptions)
    ensures TupleCast(o, "") == Ok([])
  {
  }

  /** An empty delimiter is rejected as soon as the input is non-empty. */
  lemma TupleCastEmptyDelimiter(o: TupleOptions, s: string)
    requires |s| > 0 && o.delimiter == ""
    ensures TupleCast(o, s) == Err(ValueError("empty separator"))
  {
  }

  /**
   * Without stripping, trailing-delimiter removal or base cast, the result is
   * exactly the split pieces, and joining them with the delimiter gives back
   * the input.
   */
  lemma TupleCastRoundTrip(o: TupleOptions, s: string)
    requires o.baseCast.None? && !o.strip && !o.ignoreTrailingDelimiter
    requires |s| > 0 && |o.delimiter| > 0
    ensures TupleCast(o, s) == Ok(StrValues(Split(s, o.delimiter)))
    ensures Join(Split(s, o.delimiter), o.delimiter) == s
  {
    JoinSplit(s, o.delimiter);
  }

  /**
   * A non-empty input yields one element more than it has delimiters, less
   * exactly one when `ignore_trailing_delimiter` is set and the last
   * (possibly stripped) piece is empty.
   */
  lemma TupleCastLength(o: TupleOptions, s: string)
    requires |s| > 0 && |o.delimiter| > 0 && TupleCast(o, s).Ok?
    ensures var ps := Trimmed(o, s);
            var dropped := if o.ignoreTrailingDelimiter && ps[|ps| - 1] == "" then 1 else 0;
            |TupleCast(o, s).value| == Count(s, o.delimiter) + 1 - dropped
  {
  }

  /** With `strip` set and no base cast, no element begins or ends with whitespace. */
  lemma TupleCastStripped(o: TupleOptions, s: string)
    requires o.strip && o.baseCast.None?
    requires TupleCast(o, s).Ok?
    ensures forall i :: 0 <= i < |TupleCast(o, s).value| ==>
              var item := TupleCast(o, s).value[i];
              item.Str? && (item.s != [] ==> !IsSpace(item.s[0]) && !IsSpace(item.s[|item.s| - 1]))
  {
    if |s| > 0 {
      var ps := Pieces(o, s);
      var all := Trimmed(o, s);
      assert forall i :: 0 <= i < |ps| ==> ps[i] == all[i];
    }
  }

  /**
   * With a base cast, the result has one element per piece, each the base
   * cast of that piece, in order; otherwise the first failing piece's
   * exception propagates.
   */
  lemma TupleCastBaseCast(o: TupleOptions, s: string)
    requires |s| > 0 && |o.delimiter| > 0 && o.baseCast.Some?
    ensures var ps := Pieces(o, s); var r := TupleCast(o, s);
            (r.Ok? <==> forall i :: 0 <= i < |ps| ==> o.baseCast.value(ps[i]).Ok?)
            && (r.Ok? ==> |r.value| == |ps| &&
                          forall i :: 0 <= i < |ps| ==> r.value[i] == o.baseCast.value(ps[i]).value)
  {
  }

  /** The pieces of `"a, b, c"` split at commas keep their spaces. */
  lemma SplitExample()
    ensures Split("a, b, c", ",") == ["a", " b", " c"]
  {
    SplitExampleMiddle();
    assert "," == [','];
    SplitChar(',', " b, c", ',');
    assert [','] + " b, c" == ", b, c";
    assert Split(", b, c", ",") == ["", " b", " c"];
    SplitChar('a', ", b, c", ',');
    assert ['a'] + "" == "a" && ["", " b", " c"][1..] == [" b", " c"];
    assert ['a'] + ", b, c" == "a, b, c";
  }

  /** The pieces of `" b, c"` split at commas. */
  lemma SplitExampleMiddle()
    ensures Split(" b, c", ",") == [" b", " c"]
  {
    SplitExampleTail();
    assert "," == [','];
    SplitChar(' ', "b, c", ',');
    assert [' '] + "b" == " b" && ["b", " c"][1..] == [" c"];
    assert [' '] + "b, c" == " b, c";
  }

  /** The pieces of `"b, c"` split at commas. */
  lemma SplitExampleTail()
    ensures Split("b, c", ",") == ["b", " c"]
  {
    assert "," == [','];
    assert Split("", ",") == [""];
    SplitChar('c', "", ',');
    assert ['c'] + "" == "c";
    assert Split("c", ",") == ["c"];
    SplitChar(' ', "c", ',');
    assert [' '] + "c" == " c";
    assert Split(" c", ",") == [" c"];
    SplitChar(',', " c", ',');
    assert [','] + " c" == ", c";
    assert Split(", c", ",") == ["", " c"];
    SplitChar('b', ", c", ',');
    assert ['b'] + "" == "b" && ["", " c"][1..] == [" c"];
    assert ['b'] + ", c" == "b, c";
  }

  /** Stripping a piece with one leading space. */
  lemma StripLeadingSpace(c: char)
    requires !IsSpace(c)
    ensures Strip([' ', c]) == [c]
  {
    assert SpanStart([' ', c], 1) == 1;
    assert SpanEnd([' ', c], 1, 2) == 2;
  }

  /** With the default options, `"a, b, c"` gives `("a", "b", "c")`. */
  lemma TupleCastDefault()
    ensures TupleCast(DefaultTupleOptions(), "a, b, c") == Ok([Str("a"), Str("b"), Str("c")])
  {
    var o := DefaultTupleOptions();
    SplitExample();
    StripExample();
    assert Trimmed(o, "a, b, c") == ["a", "b", "c"];
    assert Pieces(o, "a, b, c") == ["a", "b", "c"];
    assert StrValues(["a", "b", "c"]) == [Str("a"), Str("b"), Str("c")];
  }

  /** Stripping the pieces of the example drops the spaces in front of them. */
  lemma StripExample()
    ensures StripAll(["a", " b", " c"]) == ["a", "b", "c"]
  {
    StripLeadingSpace('b');
    StripLeadingSpace('c');
    assert Strip("a") == "a" by {
      assert SpanEnd("a", 0, 1) == 1;
    }
    assert [' ', 'b'] == " b" && [' ', 'c'] == " c";
    var stripped := StripAll(["a", " b", " c"]);
    assert stripped[0] == "a" && stripped[1] == "b" && stripped[2] == "c";
  }

  /**
   * With `strip=False`, `"a, b, c"` gives `("a", " b", " c")`: the spaces
   * stay in front of the pieces, not behind them as the docstring of
   * `tuple_cast` says.
   */
  lemma TupleCastWithoutStrip()
    ensures TupleCast(DefaultTupleOptions().(strip := false), "a, b, c") == Ok([Str("a"), Str(" b"), Str(" c")])
  {
    var o := DefaultTupleOptions().(strip := false);
    SplitExample();
    assert Trimmed(o, "a, b, c") == ["a", " b", " c"];
    assert Pieces(o, "a, b, c") == ["a", " b", " c"];
    assert StrValues(["a", " b", " c"]) == [Str("a"), Str(" b"), Str(" c")];
  }

  /** Splitting at a one-character delimiter, one character at a time. */
  lemma SplitChar(c: char, s: string, x: char)
    ensures Split([c] + s, [x]) ==
              if c == x then [""] + Split(s, [x])
              else var rest := Split(s, [x]); [[c] + rest[0]] + rest[1..]
  {
    assert ([c] + s)[..1] == [c];
    assert ([c] + s)[1..] == s;
  }
}
