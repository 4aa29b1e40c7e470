/**
 * The working list of query pairs, `Vec<(String, String)>`: an ordered
 * sequence in which several pairs may share a name. The class `Query` is the
 * vector that the operations update in place; the functions below are the
 * value-level meaning of the three vector operations they use.
 */
module QueryList {

  /** One `name=value` unit of a query string. */
  datatype Pair = Pair(key: string, value: string)

  /** What an operation leaves behind: a new list, or a panic that aborts the request. */
  datatype Outcome<T> = Done(value: T) | Panic

  /** `Vec::insert` on values: `x` lands at `index`, later elements shift right. */
  function InsertAt<T>(s: seq<T>, index: nat, x: T): (r: seq<T>)
    requires index <= |s|
    ensures |r| == |s| + 1
    ensures r[index] == x
    ensures forall i :: 0 <= i < index ==> r[i] == s[i]
    ensures forall i :: index < i < |r| ==> r[i] == s[i - 1]
  {
    s[..index] + [x] + s[index..]
  }

  /** `Vec::remove` on values: the element at `index` goes, later elements shift left. */
  function RemoveAt<T>(s: seq<T>, index: nat): (r: seq<T>)
    requires index < |s|
    ensures |r| == |s| - 1
    ensures forall i :: 0 <= i < index ==> r[i] == s[i]
    ensures forall i :: index <= i < |r| ==> r[i] == s[i + 1]
  {
    s[..index] + s[index + 1..]
  }

  /** Removing what was just inserted at the same index gives back the original. */
  lemma RemoveInsertedAt<T>(s: seq<T>, index: nat, x: T)
    requires index <= |s|
    ensures RemoveAt(InsertAt(s, index, x), index) == s
  {
    var t := InsertAt(s, index, x);
    assert t[..index] == s[..index] && t[index + 1..] == s[index..];
    assert s[..index] + s[index..] == s;
  }

  /**
   * `Vec::retain` on values: the elements satisfying `keep`, in their original
   * order. How often each element survives is what `FilterMultiplicity`
   * states, and the order is what `FilterConcat` states.
   */
  function Filter<T>(keep: T -> bool, s: seq<T>): (r: seq<T>)
    ensures |r| <= |s|
    ensures forall x :: x in r ==> x in s && keep(x)
    ensures forall x :: x in s && keep(x) ==> x in r
  {
    if s == [] then []
    else if keep(s[0]) then [s[0]] + Filter(keep, s[1..])
    else Filter(keep, s[1..])
  }

  /** Each kept element occurs in the result as often as in the input, each dropped one not at all. */
  lemma {:induction false} FilterMultiplicity<T>(keep: T -> bool, s: seq<T>, x: T)
    ensures multiset(Filter(keep, s))[x] == if keep(x) then multiset(s)[x] else 0
  {
    if s != [] {
      assert s == [s[0]] + s[1..];
      FilterMultiplicity(keep, s[1..], x);
    }
  }

  /** The pairs named `name`. */
  function Named(name: string): Pair -> bool
  {
    (pair: Pair) => pair.key == name
  }

  /** The pairs of any other name. */
  function OtherThan(name: string): Pair -> bool
  {
    (pair: Pair) => pair.key != name
  }

  /** Retaining commutes with concatenation: the survivors keep their relative order. */
  lemma {:induction false} FilterConcat<T>(keep: T -> bool, s: seq<T>, t: seq<T>)
    ensures Filter(keep, s + t) == Filter(keep, s) + Filter(keep, t)
  {
    if s == [] {
      assert s + t == t;
    } else {
      assert (s + t)[0] == s[0];
      assert (s + t)[1..] == s[1..] + t;
      FilterConcat(keep, s[1..], t);
    }
  }

  /** A list whose every element passes `keep` is retained whole. */
  lemma {:induction false} FilterAllKept<T>(keep: T -> bool, s: seq<T>)
    requires forall x :: x in s ==> keep(x)
    ensures Filter(keep, s) == s
  {
    if s != [] {
      assert s[0] in s;
      assert forall x :: x in s[1..] ==> x in s;
      FilterAllKept(keep, s[1..]);
    }
  }

  /** Two predicates that agree on the elements of a list retain the same elements. */
  lemma {:induction false} FilterAgreeing<T>(keep1: T -> bool, keep2: T -> bool, s: seq<T>)
    requires forall x :: x in s ==> keep1(x) == keep2(x)
    ensures Filter(keep1, s) == Filter(keep2, s)
  {
    if s != [] {
      assert s[0] in s;
      assert forall x :: x in s[1..] ==> x in s;
      FilterAgreeing(keep1, keep2, s[1..]);
    }
  }

  /** Retaining by a weaker predicate first does not change what a stronger one retains. */
  lemma {:induction false} FilterAfterWeaker<T>(strong: T -> bool, weak: T -> bool, s: seq<T>)
    requires forall x :: strong(x) ==> weak(x)
    ensures Filter(strong, Filter(weak, s)) == Filter(strong, s)
  {
    if s != [] {
      FilterAfterWeaker(strong, weak, s[1..]);
    }
  }

  /** Removing an element that passes loses one retained element; removing one that fails loses none. */
  lemma FilterRemoveAtEffect<T>(keep: T -> bool, s: seq<T>, index: nat)
    requires index < |s|
    ensures keep(s[index]) ==> |Filter(keep, RemoveAt(s, index))| == |Filter(keep, s)| - 1
    ensures !keep(s[index]) ==> Filter(keep, RemoveAt(s, index)) == Filter(keep, s)
  {
    var front, back := s[..index], s[index + 1..];
    assert s == front + ([s[index]] + back);
    assert RemoveAt(s, index) == front + back;
    FilterConcat(keep, front, [s[index]] + back);
    FilterConcat(keep, [s[index]], back);
    FilterConcat(keep, front, back);
  }

  /** Retaining by a fixed predicate twice is retaining once. */
  lemma FilterIdempotent<T>(keep: T -> bool, s: seq<T>)
    ensures Filter(keep, Filter(keep, s)) == Filter(keep, s)
  {
    FilterAllKept(keep, Filter(keep, s));
  }

  /** The vector of query pairs that the operations mutate. */
  class Query {
    var pairs: seq<Pair>

    constructor (init: seq<Pair>)
      ensures pairs == init
    {
      pairs := init;
    }

    /** `Vec::insert`; the source's callers always pass an index in `[0, len]`. */
    method Insert(index: nat, x: Pair)
      requires index <= |pairs|
      modifies this
      ensures pairs == InsertAt(old(pairs), index, x)
    {
      pairs := pairs[..index] + [x] + pairs[index..];
    }

    /** `Vec::retain`. */
    method Retain(keep: Pair -> bool)
      modifies this
      ensures pairs == Filter(keep, old(pairs))
    {
      pairs := Filter(keep, pairs);
    }

    /**
     * `Vec::remove`, which panics when `index >= len`; `ok` is false exactly
     * then, and the vector is left as it was.
     */
    method Remove(index: nat) returns (ok: bool)
      modifies this
      ensures ok <==> index < |old(pairs)|
      ensures pairs == if ok then RemoveAt(old(pairs), index) else old(pairs)
    {
      ok := index < |pairs|;
      if ok {
        pairs := pairs[..index] + pairs[index + 1..];
      }
    }
  }
}
