/** The insert operation (src/add.rs). */
module AddOp {
  import opened Util
  import opened QueryList

  /** An `add` entry of the configuration: where to insert, and the value (absent means ""). */
  datatype AddOperation = AddOperation(position: I8, value: Option<string>) {

    /** The position a configuration without `position` gets: append at the end. */
    static function DefaultPosition(): I8
    {
      -1
    }

    /** The pair this operation inserts under `name`. */
    function NewPair(name: string): Pair
    {
      Pair(name, value.UnwrapOr(""))
    }

    /** Where the pair goes in `query`. */
    function Index(query: seq<Pair>): (index: nat)
      ensures index <= |query|
    {
      PositionToIndex(position, query, true)
    }

    /** The list `apply` leaves behind, as a value. */
    function Applied(name: string, query: seq<Pair>): seq<Pair>
    {
      InsertAt(query, Index(query), NewPair(name))
    }

    /** `AddOperation::apply`: inserts `(name, value or "")` at the resolved insertion index. */
    method Apply(name: string, query: Query)
      modifies query
      ensures query.pairs == Applied(name, old(query.pairs))
    {
      var index := PositionToIndex(position, query.pairs, true);
      query.Insert(index, Pair(name, value.UnwrapOr("")));
    }
  }

  /**
   * The shape of the result: one pair longer, the new pair at the resolved
   * index, the pairs before it unchanged and those from it onward shifted
   * right by one.
   */
  lemma AppliedShape(op: AddOperation, name: string, query: seq<Pair>)
    ensures var r, k := op.Applied(name, query), op.Index(query);
      && |r| == |query| + 1
      && r[k] == Pair(name, op.value.UnwrapOr(""))
      && r[..k] == query[..k]
      && r[k + 1..] == query[k..]
  {
  }

  /** Without a configured value the inserted pair has the empty value. */
  lemma MissingValueIsEmpty(position: I8, name: string, query: seq<Pair>)
    ensures var op := AddOperation(position, None);
      op.Applied(name, query)[op.Index(query)] == Pair(name, "")
  {
  }

  /** The default position appends, on an empty list too. */
  lemma DefaultPositionAppends(value: Option<string>, name: string, query: seq<Pair>)
    ensures AddOperation(AddOperation.DefaultPosition(), value).Applied(name, query)
            == query + [Pair(name, value.UnwrapOr(""))]
  {
    if query == [] {
      NegativeUnderflow(AddOperation.DefaultPosition(), query, true);
    } else {
      NegativeInsertion(AddOperation.DefaultPosition(), query);
    }
  }

  /** A negative position that falls off the front inserts there. */
  lemma UnderflowInsertsAtFront(op: AddOperation, name: string, query: seq<Pair>)
    requires op.position < 0 && UnsignedAbs(op.position) > |query|
    ensures op.Applied(name, query) == [op.NewPair(name)] + query
  {
    NegativeUnderflow(op.position, query, true);
  }

  /** Applying the same operation twice inserts two pairs: it is not idempotent. */
  lemma NotIdempotent(op: AddOperation, name: string, query: seq<Pair>)
    ensures |op.Applied(name, op.Applied(name, query))| == |query| + 2
    ensures op.Applied(name, op.Applied(name, query)) != op.Applied(name, query)
  {
  }

  /** Unit test `add_negative`: `-1` on `[one=1]` appends `two=2`. */
  lemma ExampleAddNegative()
    ensures AddOperation(-1, Some("2")).Applied("two", [Pair("one", "1")])
            == [Pair("one", "1"), Pair("two", "2")]
  {
    DefaultPositionAppends(Some("2"), "two", [Pair("one", "1")]);
  }

  /** Unit test `add_negative_overflow`: `-5` on `[one=1]` puts `two=2` in front. */
  lemma ExampleAddNegativeOverflow()
    ensures AddOperation(-5, Some("2")).Applied("two", [Pair("one", "1")])
            == [Pair("two", "2"), Pair("one", "1")]
  {
    UnderflowInsertsAtFront(AddOperation(-5, Some("2")), "two", [Pair("one", "1")]);
  }
}
