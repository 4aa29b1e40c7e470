/** Shared helpers of the position arithmetic (src/util.rs). */
module Util {

  /** Rust's `i8`. */
  type I8 = x: int | -128 <= x <= 127

  /** Rust's `Option`. */
  datatype Option<T> = None | Some(value: T) {
    /** `Option::map`. */
    function Map<U>(f: T -> U): (r: Option<U>)
      ensures r.Some? <==> Some?
      ensures Some? ==> r.value == f(value)
    {
      match this
      case Some(v) => Some(f(v))
      case None => None
    }

    /** `Option::unwrap_or`. */
    function UnwrapOr(default: T): (r: T)
      ensures Some? ==> r == value
      ensures None? ==> r == default
    {
      match this
      case Some(v) => v
      case None => default
    }
  }

  /** `i8::unsigned_abs`, widened to `usize`. */
  function UnsignedAbs(x: I8): nat
  {
    if x < 0 then -(x as int) else x
  }

  /** `usize::checked_sub`: `None` when the subtraction would underflow. */
  function CheckedSub(a: nat, b: nat): (r: Option<nat>)
    ensures r.Some? <==> b <= a
    ensures r.Some? ==> r.value + b == a
  {
    if b <= a then Some(a - b) else None
  }

  function Min(a: nat, b: nat): nat
  {
    if a <= b then a else b
  }

  /**
   * Maps a signed position onto an index of `vec`. Negative positions count
   * from the end; in insertion mode `-1` means "after the last element", in
   * removal mode it means "the last element". A negative position that falls
   * off the front resolves to 0, a non-negative one past the end to `|vec|`.
   */
  function PositionToIndex<T>(position: I8, vec: seq<T>, forInsertion: bool): (index: nat)
    ensures index <= |vec|
    ensures position < 0 && !forInsertion && |vec| > 0 ==> index < |vec|
  {
    if position < 0 then
      CheckedSub(|vec|, UnsignedAbs(position))
        .Map(i => if forInsertion then i + 1 else i)
        .UnwrapOr(0)
    else
      Min(position, |vec|)
  }

  /** Whatever the mode, a non-negative position is clamped to the length. */
  lemma NonNegativePosition<T>(position: I8, vec: seq<T>, forInsertion: bool)
    requires position >= 0
    ensures PositionToIndex(position, vec, forInsertion) == (if position <= |vec| then position else |vec|)
  {
  }

  /** A negative position whose magnitude exceeds the length resolves to the front. */
  lemma NegativeUnderflow<T>(position: I8, vec: seq<T>, forInsertion: bool)
    requires position < 0 && UnsignedAbs(position) > |vec|
    ensures PositionToIndex(position, vec, forInsertion) == 0
  {
  }

  /** In removal mode `-m` (with `m <= |vec|`) selects the m-th element from the end. */
  lemma NegativeRemoval<T>(position: I8, vec: seq<T>)
    requires position < 0 && UnsignedAbs(position) <= |vec|
    ensures PositionToIndex(position, vec, false) == |vec| + position
    ensures PositionToIndex(position, vec, false) < |vec|
  {
  }

  /** In insertion mode `-m` (with `m <= |vec|`) inserts after the m-th element from the end. */
  lemma NegativeInsertion<T>(position: I8, vec: seq<T>)
    requires position < 0 && UnsignedAbs(position) <= |vec|
    ensures PositionToIndex(position, vec, true) == |vec| + position + 1
    ensures position == -1 ==> PositionToIndex(position, vec, true) == |vec|
  {
  }

  /** Outside the underflow case, insertion resolves one past removal. */
  lemma InsertionIsOnePastRemoval<T>(position: I8, vec: seq<T>)
    requires position < 0 && UnsignedAbs(position) <= |vec|
    ensures PositionToIndex(position, vec, true) == PositionToIndex(position, vec, false) + 1
  {
  }

  /** Only the length of the slice matters, never its contents. */
  lemma OnlyLengthMatters<T, U>(position: I8, a: seq<T>, b: seq<U>, forInsertion: bool)
    requires |a| == |b|
    ensures PositionToIndex(position, a, forInsertion) == PositionToIndex(position, b, forInsertion)
  {
  }

  /** In removal mode a position at or past the end yields `|vec|`, which is no element index. */
  lemma RemovalPastEnd<T>(position: I8, vec: seq<T>)
    requires position >= 0 && position >= |vec|
    ensures PositionToIndex(position, vec, false) == |vec|
  {
  }
}
