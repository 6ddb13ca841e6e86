/** 12-bit sequence-number arithmetic of the receive path: the macros SEQ_STEPONE and
    SEQ_SMALLER (include/mlme.h) with _Limit = MAXSEQ, and their meaning in terms of the
    forward distance from one number to another. */
module SeqNum {

  const MAXSEQ := 0xFFF
  const SEQ_SPACE := 0x1000
  const RESET_RCV_SEQ := 0xFFFF

  /** A value masked with `& MAXSEQ`. */
  function Mask(x: int): (r: nat)
    ensures r <= MAXSEQ
  {
    x % SEQ_SPACE
  }

  /** SEQ_STEPONE(a, b, MAXSEQ) */
  predicate StepOne(a: int, b: int) {
    a == Mask(b + 1)
  }

  /** SEQ_SMALLER(a, b, MAXSEQ): bit 11 of the two's complement difference. */
  predicate Smaller(a: int, b: int) {
    ((a - b) / 2048) % 2 == 1
  }

  /** How far forward of `base` the number `a` lies on the circle. */
  function Offset(a: int, base: int): (d: nat)
    ensures d < SEQ_SPACE
    ensures Mask(base + d) == Mask(a)
  {
    (a - base) % SEQ_SPACE
  }

  lemma SmallerIsUpperHalf(a: int, b: int)
    ensures Smaller(a, b) <==> Offset(a, b) >= 2048
  {
    var x := a - b;
    assert x == 4096 * (x / 4096) + x % 4096;
    var r := x % 4096;
    assert x / 2048 == 2 * (x / 4096) + r / 2048;
  }

  lemma ModUnique(x: int, q: int, r: int)
    requires x == SEQ_SPACE * q + r && 0 <= r < SEQ_SPACE
    ensures x % SEQ_SPACE == r
  {
  }

  /** Distances of circular numbers that are images of integers less than the space apart. */
  lemma OffsetOfIntegers(m: int, n: int)
    requires -SEQ_SPACE < m - n < SEQ_SPACE
    ensures Offset(Mask(m), Mask(n)) == if m >= n then m - n else m - n + SEQ_SPACE
    ensures Mask(m) == Mask(n) <==> m == n
  {
    var k := n / SEQ_SPACE - m / SEQ_SPACE;
    assert Mask(m) - Mask(n) == SEQ_SPACE * k + (m - n);
    if m >= n {
      ModUnique(Mask(m) - Mask(n), k, m - n);
    } else {
      ModUnique(Mask(m) - Mask(n), k - 1, m - n + SEQ_SPACE);
    }
  }

  lemma MaskStep(n: int)
    ensures Mask(Mask(n) + 1) == Mask(n + 1)
  {
    var r := Mask(n);
    if r + 1 < SEQ_SPACE {
      ModUnique(n + 1, n / SEQ_SPACE, r + 1);
    } else {
      ModUnique(n + 1, n / SEQ_SPACE + 1, 0);
    }
  }

  /** Circular numbers that are images of integers less than half the space apart compare
      like the integers. */
  lemma SmallerOfIntegers(m: int, n: int)
    requires -2048 <= m - n < 2048
    ensures Smaller(Mask(m), Mask(n)) <==> m < n
    ensures Mask(m) == Mask(n) <==> m == n
    ensures StepOne(Mask(m), Mask(n)) <==> m == n + 1
  {
    hide Smaller, Offset, Mask;
    OffsetOfIntegers(m, n);
    OffsetOfIntegers(m, n + 1);
    SmallerIsUpperHalf(Mask(m), Mask(n));
    MaskStep(n);
  }

  /** The five ways in which Indicate_AMPDU_Packet treats a frame. */
  datatype Branch = InOrder | Duplicate | Old | InWindow | BeyondWindow

  /** The if/else chain, with the driver's own tests. */
  function Classify(s: nat, last: nat, win: nat): Branch {
    if StepOne(s, last) then InOrder
    else if s == last then Duplicate
    else if Smaller(s, last) then Old
    else if Smaller(s, Mask(last + win + 1)) then InWindow
    else BeyondWindow
  }

  lemma ClassifyInOrder(s: nat, last: nat, win: nat)
    ensures Classify(s, last, win).InOrder? <==> StepOne(s, last)
  {
  }

  lemma WindowTest(s: nat, last: nat, win: nat)
    requires s <= MAXSEQ && last <= MAXSEQ && win <= 255 && 2 <= Offset(s, last) < 2048
    ensures Smaller(s, Mask(last + win + 1)) <==> Offset(s, last) <= win
  {
    var m := last + win + 1;
    assert Mask(m) == if m < SEQ_SPACE then m else m - SEQ_SPACE;
    assert Offset(s, last) == if s >= last then s - last else s - last + SEQ_SPACE;
    SmallerIsUpperHalf(s, Mask(m));
  }

  /** The chain of bit tests is exactly a partition of the forward distance by intervals. */
  lemma ClassifyIsByDistance(s: nat, last: nat, win: nat)
    requires s <= MAXSEQ && last <= MAXSEQ && win <= 255
    ensures var d := Offset(s, last);
            && (Classify(s, last, win).InOrder? <==> d == 1)
            && (Classify(s, last, win).Duplicate? <==> d == 0)
            && (Classify(s, last, win).Old? <==> 2048 <= d)
            && (Classify(s, last, win).InWindow? <==> 2 <= d <= win)
            && (Classify(s, last, win).BeyondWindow? <==> 2 <= d && win < d < 2048)
  {
    var d := Offset(s, last);
    SmallerIsUpperHalf(s, last);
    assert StepOne(s, last) <==> d == 1;
    assert s == last <==> d == 0;
    if 2 <= d < 2048 {
      WindowTest(s, last, win);
    }
  }

  /** The unwrapped number of a frame d ahead. */
  lemma Unwrap(s: nat, last: int)
    requires s <= MAXSEQ
    ensures Mask(last + Offset(s, Mask(last))) == s
  {
    var d := Offset(s, Mask(last));
    assert last == SEQ_SPACE * (last / SEQ_SPACE) + Mask(last);
    var k := (s - Mask(last)) / SEQ_SPACE;
    assert last + d == SEQ_SPACE * (last / SEQ_SPACE - k) + s;
    ModUnique(last + d, last / SEQ_SPACE - k, s);
  }

  lemma MaskMinus(n: int, win: nat)
    ensures Mask(Mask(n) - win) == Mask(n - win)
  {
    var r := (n - win) % SEQ_SPACE;
    var k := (n - win) / SEQ_SPACE;
    ModUnique(Mask(n) - win, k - n / SEQ_SPACE, r);
  }

  lemma MaskSmall(x: nat)
    requires x <= MAXSEQ
    ensures Mask(x) == x
  {
  }
}
