/** The write cursor of SimpleCircularBuffer as declared: an `int` that `add` increments
    without bound and reduces with Java's `%`. After 2^31 adds the increment wraps to a
    negative value, the remainder turns negative, and `add` throws
    ArrayIndexOutOfBoundsException on every call from then on (the cursor is not advanced
    by the failing add). The buffer class in CircularBuffers uses an unbounded counter
    instead, so that sample number `k` always lands in slot `k mod length`. */
module IndexOverflow {
  import opened JavaLang

  /** One `add` on the as-written state: the slot written and the new cursor, or the
      negative slot that makes the array store throw. */
  datatype AddStep = Wrote(slot: int, next: Int) | IndexOutOfBounds(slot: int)

  /** `buffer[(int)(index % buffer.length)] = sample; index++;` with an `int` cursor. */
  function AddAsWritten(index: Int, length: nat): (r: AddStep)
    requires length > 0
    ensures r.Wrote? <==> index >= 0 || JavaRem(index, length) == 0
  {
    var slot := JavaRem(index, length);
    if 0 <= slot < length then Wrote(slot, IncInt(index)) else IndexOutOfBounds(slot)
  }

  /** The cursor after `k` adds that all completed. */
  function IndexAfter(k: nat): Int
  {
    WrapInt(k)
  }

  /** Each of the first 2^31 adds writes slot `k % length` and advances the cursor to the
      value IndexAfter gives for the next add. */
  lemma AddsBeforeWrap(k: nat, length: nat)
    requires length > 0 && k <= MAX_INT
    ensures AddAsWritten(IndexAfter(k), length) == Wrote(k % length, IndexAfter(k + 1))
  {
    DivModUnique(k, length, JavaDiv(k, length), JavaRem(k, length));
  }

  /** With the default 100 slots, add number 2^31 computes slot -48 and throws. */
  lemma AddFailsAtWrap()
    ensures IndexAfter(MAX_INT + 1) == MIN_INT
    ensures AddAsWritten(IndexAfter(MAX_INT + 1), 100) == IndexOutOfBounds(-48)
  {
  }

  /** With any capacity of two or more, add number 2^31 or the one after it throws. */
  lemma {:induction false} AddFailsSoonAfterWrap(length: nat)
    requires length >= 2
    ensures
      var first := AddAsWritten(IndexAfter(MAX_INT + 1), length);
      first.IndexOutOfBounds? || AddAsWritten(first.next, length).IndexOutOfBounds?
  {
    var first := AddAsWritten(MIN_INT, length);
    if first.Wrote? {
      var q := JavaDiv(MIN_INT, length);
      assert MIN_INT == q * length;
      assert first.next == MIN_INT + 1;
      assert -(MIN_INT + 1) == (-q - 1) * length + (length - 1);
      DivModUnique(-(MIN_INT + 1), length, -q - 1, length - 1);
      assert JavaRem(MIN_INT + 1, length) == 1 - length;
    }
  }
}
