/** The remove operation (src/remove.rs), as the code is written. */
module RemoveOp {
  import opened Util
  import opened QueryList

  /**
   * The compiled matcher of a pattern: `isMatch(pattern, value)` says whether
   * the regular expression `pattern` matches somewhere in `value`. Matching
   * itself is not modelled, so every operation that matches takes it as a
   * parameter.
   */
  type Matcher = (string, string) -> bool

  /** A configured regular expression, known by its pattern string. */
  datatype Regex = Regex(pattern: string)

  /** Two regular expressions are equal exactly when their pattern strings are. */
  lemma RegexEqualityIsByPattern(a: Regex, b: Regex)
    ensures a == b <==> a.pattern == b.pattern
  {
  }

  /**
   * The indices, in `query`, of the pairs named `name`, in increasing order:
   * the `enumerate().filter(..).map(..)` pipeline of positional mode.
   */
  function MatchingIndices(name: string, query: seq<Pair>): (r: seq<nat>)
    ensures |r| <= |query|
    ensures forall j :: 0 <= j < |r| ==> r[j] < |query| && query[r[j]].key == name
    ensures forall j, k :: 0 <= j < k < |r| ==> r[j] < r[k]
    ensures forall i :: 0 <= i < |query| && query[i].key == name ==> i in r
  {
    if query == [] then []
    else
      var last := |query| - 1;
      var init := MatchingIndices(name, query[..last]);
      if query[last].key == name then init + [last] else init
  }

  /** A list without a pair named `name` has no matching indices. */
  lemma {:induction false} NoOccurrenceNoIndices(name: string, query: seq<Pair>)
    requires forall i :: 0 <= i < |query| ==> query[i].key != name
    ensures MatchingIndices(name, query) == []
  {
    if query != [] {
      NoOccurrenceNoIndices(name, query[..|query| - 1]);
    }
  }

  /** A list with a pair named `name` has a matching index. */
  lemma OccurrenceHasIndex(name: string, query: seq<Pair>)
    requires exists x :: x in query && x.key == name
    ensures |MatchingIndices(name, query)| > 0
  {
    var x :| x in query && x.key == name;
    var i :| 0 <= i < |query| && query[i] == x;
    assert i in MatchingIndices(name, query);
  }

  /** A list whose every pair is named `name` has every index as a matching index. */
  lemma {:induction false} AllNamedAllIndices(name: string, query: seq<Pair>)
    requires forall i :: 0 <= i < |query| ==> query[i].key == name
    ensures |MatchingIndices(name, query)| == |query|
  {
    if query != [] {
      var last := |query| - 1;
      assert query[last].key == name;
      AllNamedAllIndices(name, query[..last]);
    }
  }

  /** A pair of another name at index `i` leaves fewer matching indices than pairs. */
  lemma {:induction false} OtherNameFewerIndices(name: string, query: seq<Pair>, i: nat)
    requires i < |query| && query[i].key != name
    ensures |MatchingIndices(name, query)| < |query|
  {
    var last := |query| - 1;
    if i < last {
      assert query[..last][i] == query[i];
      OtherNameFewerIndices(name, query[..last], i);
    }
  }

  /** Every index of the list matches exactly when every pair is named `name`. */
  lemma AllIndicesMatchIffAllNamed(name: string, query: seq<Pair>)
    ensures |MatchingIndices(name, query)| == |query| <==> forall i :: 0 <= i < |query| ==> query[i].key == name
  {
    if forall i :: 0 <= i < |query| ==> query[i].key == name {
      AllNamedAllIndices(name, query);
    } else {
      var i :| 0 <= i < |query| && query[i].key != name;
      OtherNameFewerIndices(name, query, i);
    }
  }

  /** A `remove` entry: no position means "all", a position selects one occurrence. */
  datatype RemoveOperation = RemoveOperation(position: Option<I8>, regexp: Option<Regex>) {

    /** The predicate all mode hands to `retain`: true for the pairs that stay. */
    predicate Retained(name: string, isMatch: Matcher, pair: Pair)
    {
      pair.key != name && regexp.Map((re: Regex) => isMatch(re.pattern, pair.value)).UnwrapOr(true)
    }

    /** The list `apply` leaves behind, or `Panic` when `Vec::remove` is out of bounds. */
    function Applied(name: string, isMatch: Matcher, query: seq<Pair>): Outcome<seq<Pair>>
    {
      match position
      case None => Done(Filter(pair => Retained(name, isMatch, pair), query))
      case Some(p) =>
        var indices := MatchingIndices(name, query);
        if |indices| == 0 then Done(query)
        else
          var k := PositionToIndex(p, indices, false);
          if k < |query| then Done(RemoveAt(query, k)) else Panic
    }

    /**
     * `RemoveOperation::apply`. `ok` is false when the call panics, which
     * leaves `query` as it was.
     */
    method Apply(name: string, query: Query, isMatch: Matcher) returns (ok: bool)
      modifies query
      ensures Applied(name, isMatch, old(query.pairs)) == if ok then Done(query.pairs) else Panic
      ensures !ok ==> query.pairs == old(query.pairs)
    {
      match position
      case None =>
        query.Retain(pair => Retained(name, isMatch, pair));
        ok := true;
      case Some(p) =>
        var indices := MatchingIndices(name, query.pairs);
        ok := true;
        if |indices| != 0 {
          var k := PositionToIndex(p, indices, false);
          ok := query.Remove(k);
        }
    }
  }

  /**
   * All mode keeps exactly the pairs that are not named `name` and, when a
   * regular expression is configured, whose value it matches; it never fails.
   */
  lemma AllModeKeepsExactly(op: RemoveOperation, name: string, isMatch: Matcher, query: seq<Pair>)
    requires op.position.None?
    ensures op.Applied(name, isMatch, query).Done?
    ensures forall x :: x in op.Applied(name, isMatch, query).value <==>
      x in query && x.key != name && (op.regexp.None? || isMatch(op.regexp.value.pattern, x.value))
  {
  }

  /** All mode leaves no pair named `name`, with or without a regular expression. */
  lemma AllModeRemovesEveryName(op: RemoveOperation, name: string, isMatch: Matcher, query: seq<Pair>)
    requires op.position.None?
    ensures forall x :: x in op.Applied(name, isMatch, query).value ==> x.key != name
  {
  }

  /** All mode keeps the survivors in order: it works piecewise on a split list. */
  lemma AllModePreservesOrder(op: RemoveOperation, name: string, isMatch: Matcher, q1: seq<Pair>, q2: seq<Pair>)
    requires op.position.None?
    ensures op.Applied(name, isMatch, q1 + q2).value
            == op.Applied(name, isMatch, q1).value + op.Applied(name, isMatch, q2).value
  {
    FilterConcat(pair => op.Retained(name, isMatch, pair), q1, q2);
  }

  /** Without a regular expression, all mode removes the pairs named `name` and nothing else. */
  lemma AllModeWithoutRegexp(name: string, isMatch: Matcher, query: seq<Pair>)
    ensures RemoveOperation(None, None).Applied(name, isMatch, query)
            == Done(Filter((pair: Pair) => pair.key != name, query))
  {
    var op := RemoveOperation(None, None);
    FilterAgreeing(pair => op.Retained(name, isMatch, pair), (pair: Pair) => pair.key != name, query);
  }

  /** All mode is idempotent. */
  lemma AllModeIdempotent(op: RemoveOperation, name: string, isMatch: Matcher, query: seq<Pair>)
    requires op.position.None?
    ensures op.Applied(name, isMatch, op.Applied(name, isMatch, query).value)
            == op.Applied(name, isMatch, query)
  {
    FilterIdempotent(pair => op.Retained(name, isMatch, pair), query);
  }

  /** Positional mode with no pair named `name` changes nothing. */
  lemma PositionalWithoutMatchIsNoOp(op: RemoveOperation, name: string, isMatch: Matcher, query: seq<Pair>)
    requires op.position.Some?
    requires forall i :: 0 <= i < |query| ==> query[i].key != name
    ensures op.Applied(name, isMatch, query) == Done(query)
  {
    NoOccurrenceNoIndices(name, query);
  }

  /**
   * Positional mode resolves the position over the number `c` of pairs named
   * `name`, giving an ordinal `k <= c`, and removes the pair at whole-list
   * index `k`: the list shrinks by one and keeps its order. When `k` is no
   * index of the list it panics.
   */
  lemma PositionalRemovesAtOrdinal(op: RemoveOperation, name: string, isMatch: Matcher, query: seq<Pair>)
    requires op.position.Some?
    requires exists x :: x in query && x.key == name
    ensures var k := PositionToIndex(op.position.value, MatchingIndices(name, query), false);
      && k <= |MatchingIndices(name, query)| <= |query|
      && op.Applied(name, isMatch, query) == (if k < |query| then Done(query[..k] + query[k + 1..]) else Panic)
      && (k < |query| ==> |op.Applied(name, isMatch, query).value| == |query| - 1)
  {
    OccurrenceHasIndex(name, query);
  }

  /**
   * Positional mode panics exactly when every pair of a non-empty list is
   * named `name` and the position is at or past the length of the list. Any
   * other name in the list leaves the ordinal, which is at most the number of
   * occurrences, inside the list; a negative position never reaches past the
   * last occurrence.
   */
  lemma PositionalPanicsExactly(op: RemoveOperation, name: string, isMatch: Matcher, query: seq<Pair>)
    requires op.position.Some?
    ensures op.Applied(name, isMatch, query) == Panic <==>
      && |query| > 0
      && (forall i :: 0 <= i < |query| ==> query[i].key == name)
      && op.position.value >= |query|
  {
    AllIndicesMatchIffAllNamed(name, query);
    if |query| > 0 && forall i :: 0 <= i < |query| ==> query[i].key == name {
      assert query[0].key == name;
      OccurrenceHasIndex(name, query);
    }
  }

  /** Positional mode does not consult the regular expression. */
  lemma PositionalIgnoresRegexp(p: I8, r1: Option<Regex>, r2: Option<Regex>, name: string, isMatch: Matcher, query: seq<Pair>)
    ensures RemoveOperation(Some(p), r1).Applied(name, isMatch, query)
            == RemoveOperation(Some(p), r2).Applied(name, isMatch, query)
  {
  }

  /** Unit test `remove_all`. */
  lemma ExampleRemoveAll(isMatch: Matcher)
    ensures RemoveOperation(None, None).Applied(
              "remove-me", isMatch,
              [Pair("remove-me", "1"), Pair("keep", "2"), Pair("remove-me", "3")])
            == Done([Pair("keep", "2")])
  {
    var q := [Pair("remove-me", "1"), Pair("keep", "2"), Pair("remove-me", "3")];
    var keep := (pair: Pair) => pair.key != "remove-me";
    AllModeWithoutRegexp("remove-me", isMatch, q);
    assert q[1..] == [Pair("keep", "2"), Pair("remove-me", "3")];
    assert q[1..][1..] == [Pair("remove-me", "3")];
    assert Filter(keep, q[1..][1..]) == [];
    assert Filter(keep, q[1..]) == [Pair("keep", "2")];
  }

  /** Unit tests `remove_positive` and `remove_negative`: `1` and `-2` both remove the middle pair. */
  lemma ExampleRemoveMiddle(isMatch: Matcher)
    ensures var q := [Pair("key", "kept1"), Pair("key", "removed"), Pair("key", "kept2")];
      && RemoveOperation(Some(1), None).Applied("key", isMatch, q)
         == Done([Pair("key", "kept1"), Pair("key", "kept2")])
      && RemoveOperation(Some(-2), None).Applied("key", isMatch, q)
         == Done([Pair("key", "kept1"), Pair("key", "kept2")])
  {
    var q := [Pair("key", "kept1"), Pair("key", "removed"), Pair("key", "kept2")];
    assert q[..2][..1] == q[..1];
    assert q[..1][..0] == [];
    assert MatchingIndices("key", q) == [0, 1, 2];
    assert q[..1] + q[2..] == [Pair("key", "kept1"), Pair("key", "kept2")];
  }

  /**
   * With a regular expression, all mode also drops every pair of another
   * name whose value the expression does not match.
   */
  lemma RetainDropsUnmatchedOtherNames(name: string, re: Regex, isMatch: Matcher, other: Pair, query: seq<Pair>)
    requires other.key != name && !isMatch(re.pattern, other.value)
    ensures other !in RemoveOperation(None, Some(re)).Applied(name, isMatch, query).value
  {
  }

  /**
   * Positional mode removes by ordinal from the start of the whole list: on
   * `[other=x, key=a]`, removing occurrence 0 of `key` drops `other=x`.
   */
  lemma PositionalRemovesWrongPair(isMatch: Matcher)
    ensures RemoveOperation(Some(0), None).Applied("key", isMatch, [Pair("other", "x"), Pair("key", "a")])
            == Done([Pair("key", "a")])
  {
    var q := [Pair("other", "x"), Pair("key", "a")];
    assert q[..1] == [Pair("other", "x")];
    NoOccurrenceNoIndices("key", q[..1]);
    assert MatchingIndices("key", q) == [1];
    assert PositionToIndex(0, [1], false) == 0;
    assert RemoveAt(q, 0) == [Pair("key", "a")];
  }

  /**
   * A position at or past the number of occurrences, on a list made only of
   * pairs of that name, resolves to the length of the list and panics.
   */
  lemma PositionalPanicsPastEnd(isMatch: Matcher)
    ensures RemoveOperation(Some(1), None).Applied("key", isMatch, [Pair("key", "a")]) == Panic
  {
    var q := [Pair("key", "a")];
    assert q[..0] == [];
    assert MatchingIndices("key", q) == [0];
  }
}
