/** Circular index arithmetic for a carousel of `length` slides: wrap-around stepping and
    each slide's signed offset from the active one. */
module Carousel {
  import opened Numbers

  /** `(i + length) % length` with JavaScript's truncated `%`: for an index at most one lap
      below 0 this is the index's remainder, so it lands in `[0, length)` and leaves an
      index already there alone. Further below, the truncated `%` gives a result <= 0. */
  function Normalize(i: int, length: int): (r: int)
    requires length > 0
    ensures -length <= i ==> 0 <= r < length && r == i % length
    ensures 0 <= i < length ==> r == i
    ensures i < -length ==> r <= 0
  {
    ModShift(i, 1, length);
    if 0 <= i < length then ModUnique(i, length, 0, i); TruncRem(i + length, length)
    else TruncRem(i + length, length)
  }

  function NextIndex(i: int, length: int): int
    requires length > 0
  {
    Normalize(i + 1, length)
  }

  function PrevIndex(i: int, length: int): int
    requires length > 0
  {
    Normalize(i - 1, length)
  }

  /** From a slide in range both steps stay in range, and they wrap at the two ends. */
  lemma StepsInRange(i: int, length: int)
    requires length > 0 && 0 <= i < length
    ensures 0 <= NextIndex(i, length) < length && 0 <= PrevIndex(i, length) < length
    ensures NextIndex(i, length) == if i == length - 1 then 0 else i + 1
    ensures PrevIndex(i, length) == if i == 0 then length - 1 else i - 1
  {
    if i + 1 < length {
      ModUnique(i + 1, length, 0, i + 1);
    } else {
      ModUnique(i + 1, length, 1, 0);
    }
    if i >= 1 {
      ModUnique(i - 1, length, 0, i - 1);
    } else {
      ModUnique(i - 1, length, -1, length - 1);
    }
  }

  /** Stepping back undoes stepping forward, and the other way round. */
  lemma StepsInverse(i: int, length: int)
    requires length > 0 && 0 <= i < length
    ensures PrevIndex(NextIndex(i, length), length) == i
    ensures NextIndex(PrevIndex(i, length), length) == i
  {
    StepsInRange(i, length);
    StepsInRange(NextIndex(i, length), length);
    StepsInRange(PrevIndex(i, length), length);
  }

  /** `n` presses of "next". */
  function NextTimes(i: int, n: nat, length: int): int
    requires length > 0
  {
    if n == 0 then i else NextIndex(NextTimes(i, n - 1, length), length)
  }

  /** `n` presses of "next" from a slide in range advance it by `n`, modulo `length`. */
  lemma {:induction false} NextTimesAdvances(i: int, n: nat, length: int)
    requires length > 0 && 0 <= i < length
    ensures NextTimes(i, n, length) == (i + n) % length
  {
    if n > 0 {
      NextTimesAdvances(i, n - 1, length);
      var j := NextTimes(i, n - 1, length);
      assert j == (i + n - 1) % length;
      assert NextTimes(i, n, length) == Normalize(j + 1, length);
      ModStep(i + n - 1, length);
    }
  }

  lemma ModStep(a: int, length: int)
    requires length > 0
    ensures (a % length + 1) % length == (a + 1) % length
  {
    var q := a / length;
    assert a == q * length + a % length;
    assert a + 1 == q * length + (a % length + 1);
    ModShift(a % length + 1, q, length);
  }

  /** A full lap of "next" presses comes back to the start. */
  lemma FullLap(i: int, length: int)
    requires length > 0 && 0 <= i < length
    ensures NextTimes(i, length, length) == i
  {
    NextTimesAdvances(i, length, length);
    ModShift(i, 1, length);
    ModUnique(i, length, 0, i);
  }

  /** The hook's slide state: the carousel length it was given and the active slide. */
  class CarouselState {
    const length: int
    var activeIndex: int

    predicate Valid()
      reads this
    {
      length > 0 && 0 <= activeIndex < length
    }

    constructor(length: int, activeIndex: int)
      requires length > 0
      ensures this.length == length && this.activeIndex == activeIndex
      ensures 0 <= activeIndex < length ==> Valid()
    {
      this.length := length;
      this.activeIndex := activeIndex;
    }

    /** The "next" button. */
    method Next()
      requires length > 0
      modifies this
      ensures activeIndex == NextIndex(old(activeIndex), length)
      ensures old(Valid()) ==> Valid()
    {
      activeIndex := Normalize(activeIndex + 1, length);
      assert old(Valid()) ==> Valid() by {
        if old(Valid()) {
          StepsInRange(old(activeIndex), length);
        }
      }
    }

    /** The "previous" button. */
    method Prev()
      requires length > 0
      modifies this
      ensures activeIndex == PrevIndex(old(activeIndex), length)
      ensures old(Valid()) ==> Valid()
    {
      activeIndex := Normalize(activeIndex - 1, length);
      assert old(Valid()) ==> Valid() by {
        if old(Valid()) {
          StepsInRange(old(activeIndex), length);
        }
      }
    }

    /** The signed offset of slide `index` from the active one, folded towards zero: a
        difference beyond half the length in either direction is shifted by one lap. The
        comparisons with `length / 2` are on reals in the source, hence `2 * diff`. */
    method GetRelativeIndex(index: int) returns (diff: int)
      requires length > 0
      ensures (diff - (index - activeIndex)) % length == 0
      ensures index == activeIndex ==> diff == 0
      ensures Valid() && 0 <= index < length ==> -length <= 2 * diff <= length
      ensures diff == (if 2 * (index - activeIndex) > length then index - activeIndex - length
                       else if 2 * (index - activeIndex) < -length then index - activeIndex + length
                       else index - activeIndex)
    {
      diff := index - activeIndex;
      ghost var d0 := diff;
      if 2 * diff > length {
        diff := diff - length;
      }
      if 2 * diff < -length {
        diff := diff + length;
      }
      OneLapApart(diff, d0, length);
    }
  }

  /** Offsets at most one lap apart are congruent modulo the length. */
  lemma OneLapApart(a: int, b: int, length: int)
    requires length > 0 && (a - b == -length || a - b == 0 || a - b == length)
    ensures (a - b) % length == 0
  {
    if a - b == -length {
      ModUnique(-length, length, -1, 0);
    } else if a - b == length {
      ModUnique(length, length, 1, 0);
    }
  }

  /** The folded offset is a shortest one: no other offset congruent to it modulo `length`
      is smaller in size. */
  lemma RelativeIndexShortest(diff: int, length: int, m: int)
    requires length > 0 && -length <= 2 * diff <= length
    ensures Abs(diff) <= Abs(diff + m * length)
  {
    MulSign(m, length);
  }

  function Abs(x: int): int {
    if x < 0 then -x else x
  }
}
