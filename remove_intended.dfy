/**
 * What the remove operation of src/remove.rs evidently means to do, next to
 * the code as written in module RemoveOp: all mode was meant to drop only the
 * pairs named `name` whose value the optional regular expression matches, and
 * positional mode was meant to drop the selected occurrence of `name`.
 */
module RemoveOpIntended {
  import opened Util
  import opened QueryList
  import opened RemoveOp
  import opened AddOp

  /** The intended keep condition: another name, or a value the configured expression does not match. */
  predicate IntendedRetained(op: RemoveOperation, name: string, isMatch: Matcher, pair: Pair)
  {
    pair.key != name || (op.regexp.Some? && !isMatch(op.regexp.value.pattern, pair.value))
  }

  /**
   * The intended result: all mode filters with the intended condition;
   * positional mode removes the occurrence whose ordinal the position
   * selects, clamped to the last one, and so never panics.
   */
  function IntendedApplied(op: RemoveOperation, name: string, isMatch: Matcher, query: seq<Pair>): seq<Pair>
  {
    match op.position
    case None => Filter(pair => IntendedRetained(op, name, isMatch, pair), query)
    case Some(p) =>
      var indices := MatchingIndices(name, query);
      if |indices| == 0 then query else RemoveAt(query, SelectedIndex(p, name, query))
  }

  /** The whole-list index of the occurrence of `name` that position `p` selects, clamped to the last one. */
  function SelectedIndex(p: I8, name: string, query: seq<Pair>): (i: nat)
    requires |MatchingIndices(name, query)| > 0
    ensures i < |query| && query[i].key == name
  {
    var indices := MatchingIndices(name, query);
    indices[Min(PositionToIndex(p, indices, false), |indices| - 1)]
  }

  /**
   * Intended all mode removes a pair exactly when it is named `name` and the
   * configured expression, if any, matches its value; the pairs of every
   * other name survive, all of them and in order.
   */
  lemma IntendedAllSparesOtherNames(op: RemoveOperation, name: string, isMatch: Matcher, query: seq<Pair>)
    requires op.position.None?
    ensures forall x :: x in IntendedApplied(op, name, isMatch, query) <==>
      x in query && !(x.key == name && (op.regexp.None? || isMatch(op.regexp.value.pattern, x.value)))
    ensures Filter(OtherThan(name), IntendedApplied(op, name, isMatch, query)) == Filter(OtherThan(name), query)
  {
    FilterAfterWeaker(OtherThan(name), pair => IntendedRetained(op, name, isMatch, pair), query);
  }

  /** Removing a pair named `name` removes one such pair and leaves the other names alone. */
  lemma RemovingOneOccurrence(name: string, query: seq<Pair>, i: nat)
    requires i < |query| && query[i].key == name
    ensures |Filter(Named(name), RemoveAt(query, i))| == |Filter(Named(name), query)| - 1
    ensures Filter(OtherThan(name), RemoveAt(query, i)) == Filter(OtherThan(name), query)
  {
    FilterRemoveAtEffect(Named(name), query, i);
    FilterRemoveAtEffect(OtherThan(name), query, i);
  }

  /**
   * Intended positional mode removes one pair named `name`, the selected
   * occurrence, and leaves the pairs of every other name as they were.
   */
  lemma IntendedPositionalRemovesOccurrence(op: RemoveOperation, name: string, isMatch: Matcher, query: seq<Pair>)
    requires op.position.Some?
    requires exists x :: x in query && x.key == name
    ensures |MatchingIndices(name, query)| > 0
    ensures var i, r := SelectedIndex(op.position.value, name, query), IntendedApplied(op, name, isMatch, query);
      && query[i].key == name
      && r == query[..i] + query[i + 1..]
      && |Filter(Named(name), r)| == |Filter(Named(name), query)| - 1
      && Filter(OtherThan(name), r) == Filter(OtherThan(name), query)
  {
    OccurrenceHasIndex(name, query);
    var i := SelectedIndex(op.position.value, name, query);
    assert IntendedApplied(op, name, isMatch, query) == RemoveAt(query, i);
    RemovingOneOccurrence(name, query, i);
  }

  /** On `[other=x, key=a]`, removing occurrence 0 of `key` drops `key=a`, the pair at the first entry of the matching indices. */
  lemma IntendedRemovesRightPair(isMatch: Matcher)
    ensures IntendedApplied(RemoveOperation(Some(0), None), "key", isMatch, [Pair("other", "x"), Pair("key", "a")])
            == [Pair("other", "x")]
  {
    var q := [Pair("other", "x"), Pair("key", "a")];
    assert q[..1] == [Pair("other", "x")];
    NoOccurrenceNoIndices("key", q[..1]);
    assert MatchingIndices("key", q) == [1];
    assert SelectedIndex(0, "key", q) == 1;
    assert RemoveAt(q, 1) == [Pair("other", "x")];
  }

  /** A position past the last occurrence removes the last occurrence instead of panicking. */
  lemma IntendedClampsPastEnd(isMatch: Matcher)
    ensures IntendedApplied(RemoveOperation(Some(1), None), "key", isMatch, [Pair("key", "a")]) == []
  {
    var q := [Pair("key", "a")];
    assert q[..0] == [];
    assert MatchingIndices("key", q) == [0];
  }

  /** Appending pairs of other names adds no matching index. */
  lemma {:induction false} NoOccurrenceSuffix(name: string, front: seq<Pair>, back: seq<Pair>)
    requires forall j :: 0 <= j < |back| ==> back[j].key != name
    ensures MatchingIndices(name, front + back) == MatchingIndices(name, front)
  {
    if back == [] {
      assert front + back == front;
    } else {
      var both, shorter := front + back, back[..|back| - 1];
      assert both[..|both| - 1] == front + shorter;
      assert both[|both| - 1] == back[|back| - 1];
      NoOccurrenceSuffix(name, front, shorter);
    }
  }

  /** A pair named `name` inserted into a list without that name is the only occurrence. */
  lemma OnlyInsertedOccurrence(name: string, value: string, query: seq<Pair>, i: nat)
    requires i <= |query|
    requires forall j :: 0 <= j < |query| ==> query[j].key != name
    ensures MatchingIndices(name, InsertAt(query, i, Pair(name, value))) == [i]
  {
    var front := query[..i] + [Pair(name, value)];
    assert InsertAt(query, i, Pair(name, value)) == front + query[i..];
    NoOccurrenceSuffix(name, front, query[i..]);
    assert front[..i] == query[..i];
    NoOccurrenceNoIndices(name, query[..i]);
  }

  /**
   * Adding a pair under a name the list does not have and then removing it
   * by any position gives back the original list.
   */
  lemma IntendedAddThenRemove(add: AddOperation, p: I8, regexp: Option<Regex>, name: string, isMatch: Matcher, query: seq<Pair>)
    requires forall j :: 0 <= j < |query| ==> query[j].key != name
    ensures IntendedApplied(RemoveOperation(Some(p), regexp), name, isMatch, add.Applied(name, query)) == query
  {
    var i := add.Index(query);
    OnlyInsertedOccurrence(name, add.value.UnwrapOr(""), query, i);
    var added := add.Applied(name, query);
    assert SelectedIndex(p, name, added) == i;
    RemoveInsertedAt(query, i, add.NewPair(name));
  }

  /**
   * The code as written fails that round trip: on `[other=x]`, appending
   * `key=a` and removing position `-1` of `key` leaves `[key=a]`.
   */
  lemma AsWrittenAddThenRemoveFails(isMatch: Matcher)
    ensures var added := AddOperation(-1, Some("a")).Applied("key", [Pair("other", "x")]);
      && added == [Pair("other", "x"), Pair("key", "a")]
      && RemoveOperation(Some(-1), None).Applied("key", isMatch, added) == Done([Pair("key", "a")])
  {
    var added := AddOperation(-1, Some("a")).Applied("key", [Pair("other", "x")]);
    DefaultPositionAppends(Some("a"), "key", [Pair("other", "x")]);
    assert added[..1] == [Pair("other", "x")];
    NoOccurrenceNoIndices("key", added[..1]);
    assert MatchingIndices("key", added) == [1];
    assert RemoveAt(added, 0) == [Pair("key", "a")];
  }
}
