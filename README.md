# typed-config, modelled in Dafny

typed-config lets a program declare its configuration as a Python class.
Each attribute of such a class is one of two kinds:

- a *key*: `key(section_name, key_name, required, cast, default)` reads a
  string from an ordered list of *configuration sources*, casts it, and
  caches the result per instance;
- a *group key*: `group_key(cls)` holds a child configuration instance,
  created on first access and memoised on the parent.

`read`, `clear_cache` and `add_source` run on an instance and then on every
child, recursively. The package also offers cast helpers (`enum_cast`,
`tuple_cast`), in-memory sources (`DictConfigSource` and
`EnvironmentConfigSource`), and a `ConfigProvider` that keeps a cache and a
source list of its own. `Config` does not use `ConfigProvider` in this
version of the code.

The project has these modules:

- `Common` (common.dfy): `Option`, `Result`, the Python exceptions as an
  `Error` datatype, and the values a key can hold.
- `Text` (text.dfy): the ASCII string operations the package relies on
  (`upper`, `lower`, `strip`, `split`, `join`, `count`).
- `Casts` (casts.dfy): `enum_cast` and `tuple_cast`.
- `Sources` (sources.dfy):
  - the `ConfigSource` class with its environment and in-memory backends;
  - the checks and case folding of `DictConfigSource`;
  - the first-source-wins lookup that `get_key` performs.
- `NestedCache` (cache.dfy): the two-level section/key cache.
- `Provider` (provider.dfy): the `ConfigProvider` class, whose cache and
  source list its methods update in place.
- `Configuration` (config.dfy):
  - key resolution as the functions `Fetch` and `ReadKeys`;
  - trees of instances as `Node` values, with the propagated operations as
    the functions `Propagated` and `PropagateChildren`;
  - the `Config` class, whose instances own their cache, sources and
    memoised children. Each of its methods is proved against those
    functions.

A config class is a `Schema` value. It lists the class's key and group-key
declarations as `inspect.getmembers` returns them: sorted by attribute name,
inherited ones included. The process environment is passed as a map
parameter to every lookup.

## Model

Functions that only compute appear through the members that state their
properties: `Fetch` and `FetchIn` (the key getter) through the `Fetch…`
lemmas, `ReadKeys` through the `ReadKeys…` lemmas, `Section` and
`InitialSection` through `SectionDecorator`, `Memo` and `Attach` through
`MemoCollides`, `SameNameSharesChild` and `AttachKeepsWF`, `AddSources`
through `AddSourcesRoot` and `AddSourcesLast`, `EnvLookup` through
`EnvLookupIgnoresCase`, `DictLookup` and `ParseDict` through
`DictLookupIsLastMatch` and `NewDictSource`, and
`ConfigSource.GetConfigValue`, which picks one of the two, through those;
`FirstValue` (the loop of `get_key`) through `FirstHit`, `FirstValueNone`,
`FirstValuePrecedence` and the two `GetKey` methods; `Upper` and `Lower`
through `CaseConversions`, `LowerIdempotent` and `SameLowerSameUpper`.
`Join` and `Count` are reference definitions for the properties of
`split`.

| member | source | states |
|---|---|---|
| Text.Strip | typedconfig/casts.py:98-99 | `s.strip()` is the slice of `s` left after whitespace-only margins are cut from both ends; it neither starts nor ends with whitespace |
| Text.CaseConversions | typedconfig/source.py:25 | `s.upper()` leaves no lower-case letter and `s.lower()` no upper-case one; both keep the length and change each character at most in case |
| Text.LowerIdempotent | typedconfig/source.py:71-77 | lower-casing a lower-cased name changes nothing, so the keys of the lower-cased tables are their own lookup names |
| Text.Split | typedconfig/casts.py:95 | `s.split(d)` has one piece more than `s` has non-overlapping occurrences of `d` |
| Text.JoinSplit | typedconfig/casts.py:95 | joining the pieces of `s.split(d)` with `d` gives back `s` |
| Text.SameLowerSameUpper | typedconfig/source.py:24-25 | strings equal after `lower()` are equal after `upper()` |
| Casts.EnumCast | typedconfig/casts.py:23-27 | KeyError with the message `<name> is not a member of <enum>` exactly when no assignment of the class body has the name; otherwise the member defined first with that assignment's value, so an alias gives its canonical member |
| Casts.EnumCastResolves | typedconfig/casts.py:25 | with unique names, a member's name gives that member and an alias's name gives the earlier member with the same value |
| Casts.EnumCastAlias | typedconfig/casts.py:25 | in `class E(Enum): A = 1; B = 1`, `enum_cast(E)("B")` is `E.A` |
| Casts.EnumKeyCast | typedconfig/casts.py:23-29 | the closure accepts a string exactly when `enum_cast` does and gives that member; a string naming no member raises `enum_cast`'s KeyError; any other value raises KeyError, with the message naming `str(v)` for `None`, numbers, booleans and members |
| Casts.Trimmed | typedconfig/casts.py:95-99 | the pieces after the split and the optional strip: one per split piece |
| Casts.Pieces | typedconfig/casts.py:95-103 | the trimmed pieces, less the last one exactly when trailing delimiters are ignored and it is empty |
| Casts.TupleCast | typedconfig/casts.py:87-109 | the empty string gives the empty tuple; an empty delimiter raises ValueError; otherwise as many elements as delimiters, or one more; all strings without a base cast |
| Casts.TupleKeyCast | typedconfig/casts.py:84-111 | the closure succeeds on a string exactly when `tuple_cast` does and wraps its tuple, and otherwise raises `tuple_cast`'s error; `None`, a number, a boolean or a member raises `len`'s TypeError naming its type |
| Casts.TupleCastDefault | typedconfig/casts.py:53-75 | with the default options `"a, b, c"` gives `("a", "b", "c")` |
| Casts.TupleCastWithoutStrip | typedconfig/casts.py:76-107 | with `strip=False`, `"a, b, c"` gives `("a", " b", " c")` |
| Casts.MapCast | typedconfig/casts.py:109 | the base cast applied to each piece in order; it succeeds iff every piece casts, else the first failing piece's exception propagates |
| Casts.TupleCastEmpty | typedconfig/casts.py:87-93 | the empty string gives the empty tuple, whatever the options |
| Casts.TupleCastEmptyDelimiter | typedconfig/casts.py:95 | a non-empty input with an empty delimiter raises ValueError |
| Casts.TupleCastRoundTrip | typedconfig/casts.py:95-107 | without strip, trailing-delimiter removal or base cast, the tuple is the split pieces, and joining them with the delimiter restores the input |
| Casts.TupleCastLength | typedconfig/casts.py:95-103 | the tuple has one element more than the input has delimiters, less one when a trailing empty piece is dropped |
| Casts.TupleCastStripped | typedconfig/casts.py:97-107 | with `strip` and no base cast, no element starts or ends with whitespace |
| Casts.TupleCastBaseCast | typedconfig/casts.py:95-109 | with a base cast the result succeeds iff every piece casts, and then holds one cast value per piece, in order |
| Sources.ConfigSource.FromEnvironment | typedconfig/source.py:17-22 | an environment source keeps its prefix |
| Sources.ConfigSource.FromTable | typedconfig/source.py:60-71 | a dict source keeps its normalised table |
| Sources.ValidPrefix | typedconfig/config.py:152-154 | the sources that get added before the first argument that is not a source, in order |
| Sources.AllSourcesPrefix | typedconfig/config.py:152-154 | when every argument is a source, all of them are added |
| Sources.EnvVarName | typedconfig/source.py:20-25 | the variable name has no lower-case letter and one character per character of the prefix, its underscore, the section, the separating underscore and the key |
| Sources.EnvVarNameShape | typedconfig/source.py:20-25 | the variable read is `PREFIX_SECTION_KEY` with a prefix and `SECTION_KEY` without one, all upper-cased |
| Sources.EnvLookupIgnoresCase | typedconfig/source.py:24-25 | an environment lookup gives the same answer for any casing of section and key |
| Sources.EnvVarNameAmbiguous | typedconfig/source.py:25 | for any prefix and strings `a`, `b`, `c`, section `a_b` with key `c` and section `a` with key `b_c` read the same variable |
| Sources.LastMatch | typedconfig/source.py:71 | reference lookup: the value of the last pair whose name equals the given one up to case, `None` iff there is none |
| Sources.LowerKeys | typedconfig/source.py:71 | the comprehension's keys are lower-case, one for each name up to case, each holding the value of a pair with that name |
| Sources.Normalize | typedconfig/source.py:71 | the table is keyed by lower-case names at both levels, with one section per section name up to case |
| Sources.LowerKeysLookup | typedconfig/source.py:71 | the lower-cased dict comprehension holds a name iff some pair matches it up to case, and maps it to the last match |
| Sources.DictLookupIsLastMatch | typedconfig/source.py:71-77 | a dict source answers with the last matching key of the last matching section, both up to case, else `None` |
| Sources.DictFindsStored | typedconfig/source.py:71-77 | any casing of a stored section and key finds the stored value unless a later entry collides with it up to case |
| Sources.DictMissing | typedconfig/source.py:73-77 | an absent section or key gives `None`, not an error |
| Sources.NewDictSource | typedconfig/source.py:61-71 | AssertionError iff the input is not a dict of dicts of strings, else a fresh source over the normalised table |
| Sources.FirstHit | typedconfig/config.py:258-266 | the index of the first source with a value: all earlier ones have none |
| Sources.FirstValueNone | typedconfig/config.py:258-266 | the lookup gives `None` iff no source has a value |
| Sources.FirstValuePrecedence | typedconfig/provider.py:38-49 | an earlier source takes precedence; one without the value passes the question on to the rest |
| NestedCache.Put | typedconfig/config.py:156-159 | the entry is set, every other entry is kept, and the section's dict is created when missing |
| Provider.IndexOf | typedconfig/provider.py:68-71 | the first position holding the identical (`is`) source, `None` iff there is none |
| Provider.Replaced | typedconfig/provider.py:62-73 | TypeError iff the new value is not a source; ValueError iff the old one is absent; otherwise exactly the first identical element is replaced |
| Provider.ConfigProvider.constructor | typedconfig/provider.py:14-16 | a new provider has an empty cache and no sources |
| Provider.ConfigProvider.New | typedconfig/provider.py:14-19 | succeeds iff every argument is a source, with all of them in order; otherwise TypeError |
| Provider.ConfigProvider.AddToCache | typedconfig/provider.py:21-24 | the cache becomes `Put` of the old one; the sources are unchanged |
| Provider.ConfigProvider.GetFromCache | typedconfig/provider.py:26-29 | `None` when the section or key is missing or `None` is stored, else the stored value |
| Provider.ConfigProvider.ClearCache | typedconfig/provider.py:31-32 | the cache is empty; the sources are unchanged |
| Provider.ConfigProvider.GetKey | typedconfig/provider.py:38-49 | the value of the first source with one; no source after it is asked |
| Provider.ConfigProvider.AddSource | typedconfig/provider.py:51-55 | TypeError for a non-source with nothing changed, else the source is appended |
| Provider.ConfigProvider.SetSources | typedconfig/provider.py:57-60 | the list becomes the sources before the first non-source; TypeError iff there is one |
| Provider.ConfigProvider.ReplaceSource | typedconfig/provider.py:62-73 | the list and outcome are those of `Replaced`; the cache is unchanged |
| Configuration.MemoCollides | typedconfig/config.py:121-125 | two group keys use the same memo attribute exactly when their classes have the same `__name__` |
| Configuration.SectionDecorator | typedconfig/config.py:131-138 | a decorated class succeeds exactly when no section is passed, and then takes the decorator's; a section passed by keyword or position, `None` included, raises TypeError with the message for that form; an undecorated class takes the section passed, or none |
| Configuration.ResolveSection | typedconfig/config.py:56-62 | the key's own section wins, then the instance's; ValueError iff neither exists |
| Configuration.FetchCacheHit | typedconfig/config.py:76-79 | a cached value is returned as is: no source is asked, the cast does not run, the cache is unchanged |
| Configuration.FetchNothingFound | typedconfig/config.py:81-93 | with nothing cached or found, a required key raises KeyError; an optional one casts its default, `None` included |
| Configuration.MissingOptionalCastKeyRaises | typedconfig/config.py:81-93 | an optional key with no default and nothing found raises `len`'s TypeError for `NoneType` under `tuple_cast` and KeyError `None is not a member of <enum 'E'>` under `enum_cast`, because the cast runs on `None` |
| Configuration.FetchCachesOnlyValues | typedconfig/config.py:95-97 | the cache changes only to record a result that is not `None` under the key's section and name |
| Configuration.FetchGrows | typedconfig/config.py:95-97 | a key access never removes a cache entry |
| Configuration.FetchTwice | typedconfig/config.py:76-99 | after an access that gave a value, the next access returns it from the cache whatever the sources hold; a `None` result is not cached |
| Configuration.ReadKeysGrows | typedconfig/config.py:213-215 | reading an instance's keys never removes a cache entry |
| Configuration.ReadKeysFailFast | typedconfig/config.py:213-215 | a failed read is the exception of the first key that raised, after all earlier keys were read |
| Configuration.ReadKeysSettles | typedconfig/config.py:202-215 | after a successful read, reading the instance's keys again from any cache that covers the result succeeds and changes nothing |
| Configuration.SameNameSharesChild | typedconfig/config.py:119-125 | group keys whose classes share a `__name__` share one memoised child, of the first one's class |
| Configuration.DecoratedGroupsShareChild | typedconfig/config.py:119-138 | two group keys of `section`-decorated classes share one child, which has the first one's section |
| Configuration.AttachKeepsWF | typedconfig/config.py:119-125 | accessing a group key keeps every child an instance of its group key's class |
| Configuration.MaterializeFrom | typedconfig/config.py:188-200 | accessing the group keys in order keeps every existing child and memoises a child for every group key |
| Configuration.MaterializeKeys | typedconfig/config.py:188-200 | the children afterwards are the old ones plus one memo name per group key, and nothing else |
| Configuration.MaterializeFresh | typedconfig/config.py:119-125 | every child that accessing the group keys creates is a fresh instance of its class: the class's section, an empty cache, no sources and no children |
| Configuration.MaterializeKeepsWF | typedconfig/config.py:188-200 | accessing the group keys keeps the tree well formed |
| Configuration.MaterializeNoop | typedconfig/config.py:121-125 | accessing group keys whose children exist changes nothing |
| Configuration.OwnStep | typedconfig/config.py:202-244 | the body of `read`, `clear_cache` or `add_source` changes only the instance's cache and sources |
| Configuration.Propagated | typedconfig/config.py:12-20 | a propagated method keeps the class and leaves one child per group key |
| Configuration.PropagateChildren | typedconfig/config.py:17-18 | visiting the children changes only the children, and no child is added or removed |
| Configuration.PropagatedKeepsWF | typedconfig/config.py:12-20 | the propagated methods keep the tree well formed |
| Configuration.OwnStepFirst | typedconfig/config.py:14-16 | the instance's own step runs before any child, and its exception is the result with no child visited |
| Configuration.PropagatedKept | typedconfig/config.py:12-20 | for every part the operation keeps on one instance, the whole tree keeps it: `add_source` keeps every cache and only appends its source to source lists (and changes no list when it raises), `clear_cache` and `read` keep every source list; children created on the way hold nothing there (or only copies of the source) |
| Configuration.ClearCacheEmptiesTree | typedconfig/config.py:217-228 | after `clear_cache` no instance in the tree has a cache entry, and every instance keeps its sources |
| Configuration.AddSourceReachesTree | typedconfig/config.py:230-244 | `add_source` raises TypeError for a non-source with the sources unchanged; otherwise it appends to the instance's list, every instance in the tree keeps its old list as a prefix followed only by copies of the new source, and ends with it; every cache is kept |
| Configuration.SharedChildGetsSourceTwice | typedconfig/config.py:12-20 | a child that two group keys share receives each propagated source twice |
| Configuration.AddSourcesRoot | typedconfig/config.py:148-154 | adding the constructor's sources in turn adds those before the first non-source, and raises TypeError iff there is one |
| Configuration.AddSourcesLast | typedconfig/config.py:148-154 | after a construction with only sources, every instance in the tree ends with the last of them |
| Configuration.Config.constructor | typedconfig/config.py:148-151 | a new instance has its section, an empty cache, no sources and no children |
| Configuration.Config.New | typedconfig/config.py:131-154 | the section as `SectionDecorator` states, so a decorated class given a section in any form, `None` included, raises TypeError; then the outcome, source list and tree are those of adding each argument in turn |
| Configuration.Config.AddEach | typedconfig/config.py:152-154 | the instance tree becomes `AddSources` of the old one |
| Configuration.Config.GetFromCache | typedconfig/config.py:161-164 | the cached value of (section, key), present iff both levels hold it |
| Configuration.Config.AddToCache | typedconfig/config.py:156-159 | the cache becomes `Put` of the old one; nothing else changes |
| Configuration.Config.GetKey | typedconfig/config.py:246-266 | the value of the first source with one; no source after it is asked |
| Configuration.Config.Get | typedconfig/config.py:48-99 | the key getter returns, and leaves the cache, as `Fetch` says; nothing else changes |
| Configuration.Config.Lookup | typedconfig/config.py:76-99 | the getter once its section is resolved, as `FetchIn` says |
| Configuration.Config.Group | typedconfig/config.py:119-125 | returns the child memoised under `'_' + cls.__name__`, creating it on first access only |
| Configuration.Config.RegisteredComposed | typedconfig/config.py:188-200 | returns one child per group key, in group-key order, each the one memoised for it |
| Configuration.Config.ReadOwn | typedconfig/config.py:213-215 | reads the instance's keys in order as `ReadKeys` says |
| Configuration.Config.ApplyOwn | typedconfig/config.py:16 | the instance's own step, as `OwnStep` says |
| Configuration.Config.Apply | typedconfig/config.py:12-20 | a propagated method changes the tree as `Propagated` says |
| Configuration.Config.ApplyChildren | typedconfig/config.py:17-18 | the children visited in group-key order, as `PropagateChildren` says |
| Configuration.Config.AddSource | typedconfig/config.py:230-244 | TypeError for a non-source, with no source list changed; otherwise appended here, and every instance of the tree keeps its old list as a prefix followed only by copies of the source, which ends it; no cache changes |
| Configuration.Config.ClearCache | typedconfig/config.py:217-228 | afterwards no instance of the tree has a cache entry, and no source list has changed |
| Configuration.Config.Read | typedconfig/config.py:202-215 | the instance's own keys are read first into its cache, and their exception is the result; no source list changes |

## Code and tests

The test files and one docstring describe some behaviour that the code
does not have. The model follows the code:

- A key with a cast and no value found casts its default, even when the
  default is `None`: `key(cast=str, required=False, default=None)` passes
  `None` to `str` (`Configuration.FetchNothingFound`). The test
  `test_cast_with_default` expects the key to give `None`.
- A group key memoises its child under `'_' + cls.__name__`. Two group keys
  of the same class therefore share one child
  (`Configuration.SameNameSharesChild`); `test_reuse_child_config` expects
  two. Every class that `section` returns is named `SectionConfig`, so two
  group keys of differently decorated classes also share one child, with
  the first one's section (`Configuration.DecoratedGroupsShareChild`);
  `test_multiple_group_keys_with_section_decorators` expects two.
- A propagated method visits a shared child once per group key, so that
  child receives each source twice
  (`Configuration.SharedChildGetsSourceTwice`).
- The docstring of `tuple_cast` says that with `strip=False` the input
  `"a, b, c"` gives `["a", "b ", "c "]`. Splitting at the comma leaves each
  space in front of the next piece, so the code gives `("a", " b", " c")`
  (`Casts.TupleCastWithoutStrip`).

## Left out

- Configuration.Config.AddSource: states the exact source list of the instance itself only; below it, each old list is kept as a prefix followed only by copies of the new source, without the number of copies, because a shared child receives one per group key that reaches it.
- Configuration.Config.Read: states how the instance's own keys are read and the whole tree as `Propagated`; that a second read of the whole tree changes nothing is proved per instance only (`ReadKeysSettles`).
- Configuration.Config.New: a positional first argument is a section name or `None`; any other value there (a list of sources, say) becomes the section of an undecorated class in Python and is not modelled. Python's constructor raises, and hands no instance to the caller, both when the section is rejected and when an argument is not a source; the model still returns `c`, which in the second case holds the sources added before that argument.
- Casts.EnumKeyCast: a tuple value raises KeyError, but the message, which holds the tuple's `str`, is not modelled.
- Enum values other than integers, `auto()` and lookups by value: an `EnumType` is its list of `NAME = integer` assignments, which is what decides members and aliases.
- Configuration.Memo: the getter tests the memo attribute with `hasattr` on the instance, so a group-key class whose name with `_` in front is the name of any other attribute of the instance finds that attribute and returns it instead of a child: `cache`, `section_name` and `config_sources` (the instance's state), `add_to_cache` and `get_from_cache` (methods), `composed_config_registration_string` and `config_key_registration_string` (class constants), names such as `_class__` or `_init__` that form a dunder, and the memo of another group key or any underscore attribute of the user's class. The model keeps children apart from every such attribute.
- Classes that reach themselves through group keys (such as `A.child = group_key(A)` assigned after the class exists): `read`, `clear_cache` and `add_source` then recurse without end in Python. A `Schema` is a finite value, so the model has no such class and every propagated method terminates.
- The memo of a key's name (`_mutable_state`, typedconfig/config.py:41-46 and 64-74): the model takes the attribute the declaration is bound to, upper-cased. The search through the class dictionaries is reflection, and differs from that in three cases. It follows only `__base__`, the first base class, so a key without `key_name` declared in a second base (`class C(A, B)` with the key in `B`) is never found and its first access raises IndexError. The name is stored in the key object on first access, so every class that shares the object then uses the name found for the first one. And one `key(...)` object bound to two attribute names gets the name found first.
- `inspect.getmembers`, `get_registered_properties` and `is_member_registered`: reflection; a `Schema` lists the declarations in the order they produce.
- The branch of `get_registered_composed_config` for a registered member that is not a property: `group_key` always registers a property.
- A child that is not an instance of any of its group keys' classes: it cannot arise, and `PropagateChildren` passes over it.
- Applying `section` to a class that is already decorated: Python then fails at instantiation with a duplicate keyword argument, and `Section` requires an undecorated class.
- `AbstractIniConfigSource`, `IniStringConfigSource` and `IniFileConfigSource`: they rest on `configparser` and the file system.
- `os.environ`: the environment is a map parameter of every lookup, read at the time of the call.
- Logging in provider.py and every `__repr__`: they do not affect state or results.
- typedconfig/concurrent.py is not part of this model (threads).
- The `config_sources` properties: plain accessors of the `sources` fields.
- `str.upper`, `str.lower` and `str.isspace` outside ASCII: the model covers ASCII only.
- The casts users supply (`int`, `bool`, …): a cast is any function from an optional value to a result, and the built-in conversions are not modelled.
- Provider.ConfigProvider.SetSources: the argument is a sequence value, so `p.set_sources(p.config_sources)` keeps the list. In Python `config_sources` returns the list object itself, which `clear()` empties before the loop, so the provider ends with no sources; this aliasing is not modelled.
- `DictConfigSource`'s checks are `assert` statements; running Python with `-O` removes them, which is not modelled.
