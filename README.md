# Query-parameter rewriting for a Traefik plugin, in Dafny

This project models the core of a Traefik middleware plugin that rewrites the
query string of each incoming request. The query is an ordered list of
`(name, value)` pairs in which a name may occur several times. The
configuration maps each parameter name to one operation, in declaration
order:

- **add** inserts `(name, value)` (the value defaults to `""`) at a signed
  position: non-negative positions count from the front, negative ones from
  the end, and `-1`, the default, appends.
- **remove** without a position removes "all" pairs, optionally tested
  against a regular expression on the value; with a position it removes one
  pair selected by an ordinal among the pairs of that name.

The request hook applies every operation in turn to one working list and
hands the result back to the host.

Modules, one per source file:

- `Util` (`util.dfy`, src/util.rs): `PositionToIndex`, the resolver that
  turns an `i8` position into an index in `[0, len]`, in insertion or
  removal mode. It is written with the same `checked_sub` / `map` /
  `unwrap_or` / `min` steps as the Rust code.
- `QueryList` (`query.dfy`): the `Vec<(String, String)>` the operations
  mutate. It is a class `Query` whose `pairs: seq<Pair>` field its methods
  `Insert`, `Retain` and `Remove` reassign. `Remove` reports the
  out-of-bounds panic of `Vec::remove` as `ok == false`. Beside it are the
  value-level functions `InsertAt`, `Filter` and `RemoveAt`, with lemmas
  about `Filter`.
- `AddOp` (`add.dfy`, src/add.rs): the datatype `AddOperation`. Its method
  `Apply` mutates a `Query`. Its function `Applied` gives the resulting list
  as a value.
- `RemoveOp` (`remove.dfy`, src/remove.rs): `Regex` (known by its pattern),
  `MatchingIndices` (the index-collecting iterator pipeline) and the datatype
  `RemoveOperation`. Its `Apply` method mutates a `Query`, and its `Applied`
  function returns `Done(list)` or `Panic`. Everything here follows the code
  as written.
- `RemoveOpIntended` (`remove_intended.dfy`): corrected versions of the two
  places where the remove code does not do what it evidently means to (see
  "## Findings"), with the intended properties proved. These include the
  round trip of adding a pair under a new name and removing it again, which
  the code as written does not satisfy.
- `Plugin` (`main.dfy`, src/main.rs): `QueryParamOperation`, `Config` (a
  sequence of entries with unique names, standing for the `IndexMap`),
  `GetConfig` (fallback to an empty configuration with one warning),
  `ApplyOperation` and `ApplyAll` (the pass as a left fold), and the method
  `HttpRequest`. `HttpRequest` runs the `for` loop over the entries on a
  `Query` object and is proved equal to `ApplyAll`.

Regular-expression matching is not modelled. Every member that matches takes
a parameter `isMatch: (pattern, value) -> bool`, the compiled matcher's
`is_match`, and nothing is assumed about it. The model assumes that
`is_match` itself never fails.

Two places in src/remove.rs do not do what the operation's name, the names of
its variables and its unit tests say. The model follows the code as written
and puts the evident intent beside it (see "## Findings"):

- All mode with a regular expression. The retain predicate (src/remove.rs:61-67)
  keeps a pair only if its name differs *and* the regular expression matches its
  value. So it removes every pair named `name`, and also every pair of another
  name whose value does not match (`RemoveOp.AllModeKeepsExactly`,
  `RemoveOp.RetainDropsUnmatchedOtherNames`).
- Positional mode. The code collects `matching_param_indices`, the indices of
  the pairs named `name` (src/remove.rs:70-75). It then resolves the position
  over that vector to an ordinal `index_to_remove` and passes the ordinal itself
  to `query.remove`, not `matching_param_indices[index_to_remove]`
  (src/remove.rs:76-79). So the pair removed is whole-list index `k`, whatever
  its name (`RemoveOp.PositionalRemovesAtOrdinal`). The unit tests
  `remove_positive` and `remove_negative` use lists made only of pairs named
  `key`, where the ordinal and the index agree.

## Model

| member | source | states |
|---|---|---|
| `Util.PositionToIndex` | src/util.rs:1-10 | for every `i8` position, every length and both modes the index lies in `[0, len]`; a negative position in removal mode on a non-empty slice gives an index `< len` |
| `Util.NonNegativePosition` | src/util.rs:7-8 | a non-negative position resolves to `min(position, len)` in both modes |
| `Util.NegativeUnderflow` | src/util.rs:2-6 | a negative position with `abs(position) > len` resolves to 0 in both modes |
| `Util.NegativeRemoval` | src/util.rs:3-6 | in removal mode, a negative position with `abs(position) <= len` resolves to `len - abs(position)`, which is `< len` |
| `Util.NegativeInsertion` | src/util.rs:3-6 | in insertion mode, a negative position with `abs(position) <= len` resolves to `len - abs(position) + 1`, so `-1` gives `len` |
| `Util.InsertionIsOnePastRemoval` | src/util.rs:5 | outside underflow, a negative position resolves one further in insertion mode than in removal mode |
| `Util.OnlyLengthMatters` | src/util.rs:1 | two slices of equal length, of any element types, resolve every position alike |
| `Util.RemovalPastEnd` | src/util.rs:8 | in removal mode a non-negative position `>= len` resolves to `len`, which is no element index |
| `QueryList.Filter` | src/remove.rs:61 | `retain` on values: the result is no longer than the input, and it holds exactly the input elements that pass the predicate |
| `QueryList.FilterMultiplicity` | src/remove.rs:61 | each element that passes the predicate occurs in the result as often as in the input; each one that fails does not occur |
| `QueryList.Query.Insert` | src/add.rs:20 | `Vec::insert`: the new list is the old one with the element placed at `index` |
| `QueryList.Query.Retain` | src/remove.rs:61 | `Vec::retain`: the new list is the old one filtered by the predicate |
| `QueryList.Query.Remove` | src/remove.rs:79 | `Vec::remove`: succeeds exactly when `index < len` and then drops that element; otherwise (the panic) the list is unchanged |
| `AddOp.AddOperation.Apply` | src/add.rs:17-27 | the list afterwards is the old list with `(name, value or "")` inserted at `PositionToIndex(position, list, true)` |
| `AddOp.AppliedShape` | src/add.rs:18-26 | the list grows by exactly one; the new pair sits at the resolved index; the pairs before it are unchanged and those from it onward shift right by one |
| `AddOp.MissingValueIsEmpty` | src/add.rs:24 | without a configured value, the inserted pair has the empty value |
| `AddOp.DefaultPositionAppends` | src/add.rs:29-31 | the default position `-1` appends `(name, value)` at the end, on an empty list too |
| `AddOp.UnderflowInsertsAtFront` | src/add.rs:18-20 | a negative position that falls off the front inserts the pair at index 0 |
| `AddOp.NotIdempotent` | src/add.rs:20 | applying the same add twice adds two pairs, so the second application changes the list |
| `AddOp.ExampleAddNegative` | src/main.rs:95-112 | `-1` on `[one=1]` with `two=2` gives `[one=1, two=2]` |
| `AddOp.ExampleAddNegativeOverflow` | src/main.rs:114-125 | `-5` on `[one=1]` with `two=2` gives `[two=2, one=1]` |
| `RemoveOp.RegexEqualityIsByPattern` | src/remove.rs:52-56 | two regular expressions are equal exactly when their pattern strings are |
| `RemoveOp.MatchingIndices` | src/remove.rs:70-75 | the result is strictly increasing, each entry is the index of a pair named `name`, and every such index appears |
| `RemoveOp.NoOccurrenceNoIndices` | src/remove.rs:70-75 | a list without a pair named `name` collects no index |
| `RemoveOp.RemoveOperation.Apply` | src/remove.rs:59-83 | the list afterwards is what `Applied` gives; when the call panics, the list is unchanged |
| `RemoveOp.AllModeKeepsExactly` | src/remove.rs:61-68 | all mode never panics and keeps exactly the pairs with `key != name` and (no regexp, or the regexp matches the value) |
| `RemoveOp.AllModeRemovesEveryName` | src/remove.rs:62 | after all mode no pair is named `name`, with or without a regexp |
| `RemoveOp.AllModePreservesOrder` | src/remove.rs:61 | all mode on `q1 + q2` is all mode on `q1` followed by all mode on `q2`, so the survivors keep their order |
| `RemoveOp.AllModeWithoutRegexp` | src/remove.rs:61-67 | without a regexp, all mode removes the pairs named `name` and keeps the others in order |
| `RemoveOp.AllModeIdempotent` | src/remove.rs:61 | applying all mode twice gives the same list as applying it once |
| `RemoveOp.PositionalWithoutMatchIsNoOp` | src/remove.rs:76 | positional mode leaves a list without a pair named `name` unchanged |
| `RemoveOp.PositionalRemovesAtOrdinal` | src/remove.rs:69-81 | with `c >= 1` pairs named `name`, `k = PositionToIndex(p, c, removal) <= c`; the result is the list without whole-list index `k`, one shorter and in order, or a panic when `k == len` |
| `RemoveOp.AllNamedAllIndices` | src/remove.rs:70-75 | when every pair is named `name`, every index of the list is collected |
| `RemoveOp.OtherNameFewerIndices` | src/remove.rs:70-75 | one pair of another name leaves fewer collected indices than pairs |
| `RemoveOp.AllIndicesMatchIffAllNamed` | src/remove.rs:70-75 | the collected indices are as many as the pairs exactly when every pair is named `name` |
| `RemoveOp.PositionalPanicsExactly` | src/remove.rs:69-81 | for every list and position, positional mode panics if and only if the list is non-empty, every pair is named `name`, and the position is `>= len` |
| `RemoveOp.PositionalIgnoresRegexp` | src/remove.rs:69-81 | positional mode gives the same outcome whatever the regexp |
| `RemoveOp.ExampleRemoveAll` | src/main.rs:127-134 | all mode on `[remove-me=1, keep=2, remove-me=3]` gives `[keep=2]` |
| `RemoveOp.ExampleRemoveMiddle` | src/main.rs:136-162 | on three pairs named `key`, positions `1` and `-2` both remove the middle one |
| `RemoveOp.RetainDropsUnmatchedOtherNames` | src/remove.rs:61-67 | with a regexp, all mode drops every pair of another name whose value the regexp does not match |
| `RemoveOp.PositionalRemovesWrongPair` | src/remove.rs:77-79 | position 0 for `key` on `[other=x, key=a]` removes `other=x` |
| `RemoveOp.PositionalPanicsPastEnd` | src/remove.rs:77-79 | position 1 for `key` on `[key=a]` panics |
| `RemoveOpIntended.IntendedAllSparesOtherNames` | src/remove.rs:61-67 | corrected all mode removes a pair exactly when it is named `name` and (no regexp, or the regexp matches); every other-named pair survives, in order |
| `RemoveOpIntended.IntendedPositionalRemovesOccurrence` | src/remove.rs:70-79 | corrected positional mode removes the selected pair named `name` (ordinal clamped to the last one): one fewer `name` pair, other-named pairs unchanged in order, never a panic |
| `RemoveOpIntended.IntendedRemovesRightPair` | src/remove.rs:77-79 | corrected: position 0 for `key` on `[other=x, key=a]` leaves `[other=x]` |
| `RemoveOpIntended.IntendedClampsPastEnd` | src/remove.rs:77-79 | corrected: position 1 for `key` on `[key=a]` removes `key=a` |
| `RemoveOpIntended.IntendedAddThenRemove` | src/remove.rs:70-79 | corrected: adding a pair under a name the list lacks, at any position, and then removing that name at any position gives back the original list |
| `RemoveOpIntended.AsWrittenAddThenRemoveFails` | src/remove.rs:77-79 | as written, the same round trip fails: appending `key=a` to `[other=x]` and removing position `-1` of `key` leaves `[key=a]` |
| `Plugin.ApplyOperation` | src/main.rs:55-62 | an add always succeeds and grows the list by one; a remove that succeeds never grows it |
| `Plugin.HttpRequest` | src/main.rs:54-75 | the loop over the entries in order gives the left fold `ApplyAll`; on success the hook returns status 1 with the rewritten pairs; a panic becomes a trap |
| `Plugin.EmptyConfigIsNoOp` | src/main.rs:54 | an empty operation set leaves the pairs unchanged and in order |
| `Plugin.InvalidConfigIsNoOp` | src/main.rs:29-39 | a configuration that fails to decode gives exactly one warning and a pass that changes nothing |
| `Plugin.ValidConfigIsUsed` | src/main.rs:30-31 | a decoded configuration is used as it is, with no warning |
| `Plugin.ApplyAllConcat` | src/main.rs:54-63 | applying `c1 + c2` is applying `c2` to the result of `c1` (a panic in `c1` stays a panic) |
| `Plugin.ConfigConcat` | src/main.rs:20-23 | two configurations over disjoint names concatenate into a valid configuration, which runs the second after the first |
| `Plugin.AddsOnlyNeverTrap` | src/main.rs:54-63 | a configuration of adds only never traps and adds one pair per entry |
| `Plugin.AtMostOneOperationPerName` | src/main.rs:22 | in a configuration, two entries with the same name are the same entry |

## Findings

| source | as written | input that shows it | evidently intended | confidence | as-written member | corrected member |
|---|---|---|---|---|---|---|
| src/remove.rs:61-67 | the retain predicate `key != name && regexp.map(is_match).unwrap_or(true)` keeps only other-named pairs whose value matches | regexp `r`, name `token`, query `[other=v]` where `r` does not match `v`: the pair `other=v` is removed | remove only pairs named `name` whose value the regexp matches (keep `key != name`, or a value that does not match) | high; not executed | `RemoveOp.RetainDropsUnmatchedOtherNames` | `RemoveOpIntended.IntendedAllSparesOtherNames` |
| src/remove.rs:77-79 | removes whole-list index `k`, the ordinal among the pairs named `name` | position 0 for `key` on `[other=x, key=a]` removes `other=x` | remove `matching_param_indices[k]` | high; not executed | `RemoveOp.PositionalRemovesWrongPair` | `RemoveOpIntended.IntendedPositionalRemovesOccurrence` |
| src/remove.rs:77-79 | removal-mode resolution returns `k == count` for a position `>= count`, and `Vec::remove(count)` panics when every pair has that name, and only then (`RemoveOp.PositionalPanicsExactly`) | position 1 for `key` on `[key=a]` panics | clamp the ordinal to the last occurrence, as every other out-of-range position is clamped | medium; not executed | `RemoveOp.PositionalPanicsPastEnd` | `RemoveOpIntended.IntendedClampsPastEnd` |

The request pass (`Plugin.ApplyAll`, `Plugin.HttpRequest`) uses the remove
operation as written, because it models what the deployed plugin does. The
corrected definitions stand beside it, and their properties are proved.

## Left out

- URL handling is not modelled: parsing the request target behind the `http://example.invalid` prefix, extracting and percent-decoding the query pairs, clearing and re-serialising them, and building the new request target (src/main.rs:45-53, 64-73). These are calls into the `url` crate. `HttpRequest` starts from the decoded pairs and returns the pairs written back. The `unwrap` of the URL parse (src/main.rs:45) is not modelled either.
- Host calls are not modelled: `get_conf`, `get_request_uri`, `set_request_uri` and `send_log` are I/O. The raw payload is replaced by its decoded form (`Plugin.Decoded`). The warning is returned as a list of strings (`Plugin.Loaded.warnings`) instead of being sent.
- The empty response hook `http_response` and the empty `main` (src/main.rs:78-81) do nothing and are not modelled.
- JSON decoding is not modelled: serde, numbers given as strings, the untagged `Internal` enum, `flatten` into an `IndexMap`, and `Regex`'s `Deserialize` (src/remove.rs:43-50, 112-128; src/add.rs:8-11; src/main.rs:12-23). A configuration comes in already decoded, as `Decoded(config)` or `DecodeError(message)`. The default position of an add is `AddOperation.DefaultPosition`.
- Regular-expression compilation (`Regex::new`, src/remove.rs:29-34) and matching are not modelled. Matching is the `isMatch` parameter. A compilation error can only surface during decoding, which is itself left out.
- The one-time global initialisation with `lazy_static` (src/main.rs:25-27) is not modelled. The configuration is a parameter of `HttpRequest`.
- The `Debug` implementation (src/remove.rs:37-41) is formatting only.
- The test-only constructors `all`, `position` and `matching_regexp` (src/remove.rs:85-110) are written directly as datatype values in the example lemmas.
- `Vec::insert`, `Vec::retain` and `Vec::remove` reassign the `pairs` sequence as a whole. The element-by-element moves inside the standard library are not modelled.
- `usize` is an unbounded `nat`. Rust's `i + 1` in src/util.rs:5 cannot overflow, because `i < len`.
