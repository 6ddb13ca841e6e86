/** checksume16 of btmtk_usb/btmtk_usb.c: a 16-bit checksum with a signed 32-bit accumulator
    whose carries are folded late. Signed overflow wraps, as the kernel is compiled. */
module Checksum {

  import opened Basics

  const INT_LIMIT := 0x8000_0000

  function Wrap32(x: int): (r: int)
    ensures -INT_LIMIT <= r < INT_LIMIT
  {
    (x + INT_LIMIT) % 0x1_0000_0000 - INT_LIMIT
  }

  /** (x & 0xFFFF) + (x >> 16), with an arithmetic shift. */
  function Fold(x: int): int {
    x % 65536 + x / 65536
  }

  /** The little-endian words of the buffer, an odd last byte standing alone. */
  function Word(data: seq<u8>): (w: nat)
    requires data != []
    ensures w <= 65535
  {
    var lo: int := data[0];
    if |data| == 1 then lo
    else
      var hi: int := data[1];
      lo + 256 * hi
  }

  function Rest(data: seq<u8>): seq<u8>
    requires data != []
  {
    if |data| == 1 then [] else data[2..]
  }

  /** The plain sum of all words. */
  function Total(data: seq<u8>): (t: nat)
    ensures t <= 65535 * ((|data| + 1) / 2)
    decreases |data|
  {
    if data == [] then 0 else Word(data) + Total(Rest(data))
  }

  /** One's complement addition: the carry out of bit 15 comes back at bit 0. */
  function OnesAdd(a: nat, b: nat): (r: nat)
    requires a <= 65535 && b <= 65535
    ensures r <= 65535
  {
    if a + b > 65535 then a + b - 65535 else a + b
  }

  /** One's complement sum, carrying end-around at every word (RFC 1071, section 1). */
  function OnesSum(data: seq<u8>, acc: nat): (r: nat)
    requires acc <= 65535
    ensures r <= 65535
    decreases |data|
  {
    if data == [] then acc else OnesSum(Rest(data), OnesAdd(acc, Word(data)))
  }

  /** The checksum of RFC 1071: the complement of the one's complement sum. */
  function Rfc1071(data: seq<u8>): nat {
    65535 - OnesSum(data, 0)
  }

  /** End-around carries subtract multiples of 65535, and never reach zero from a positive sum. */
  lemma {:induction false} OnesSumIs(data: seq<u8>, acc: nat) returns (f: nat)
    requires acc <= 65535
    ensures OnesSum(data, acc) == acc + Total(data) - 65535 * f
    ensures acc + Total(data) > 0 <==> OnesSum(data, acc) > 0
    decreases |data|
  {
    if data == [] {
      f := 0;
    } else {
      f := OnesSumIs(Rest(data), OnesAdd(acc, Word(data)));
      if acc + Word(data) > 65535 {
        f := f + 1;
      }
    }
  }

  /** The loss at one overflow of the accumulator: 65535 * 32769 + 1. */
  const LOSS := INT_LIMIT + 32768

  lemma TotalIs(data: seq<u8>)
    ensures Total(data) == if data == [] then 0 else Word(data) + Total(Rest(data))
  {
  }

  /** The plain sum so far, the accumulator, and what c overflows and d folds of a negative
      value account for. */
  ghost predicate Acc(done: nat, sum: int, c: nat, d: nat) {
    && -32768 <= sum < INT_LIMIT && d <= c && (sum < 0 ==> d < c)
    && done == sum + c * LOSS - 65535 * d
    && (c == 0 <==> done < INT_LIMIT)
  }

  lemma AccStart()
    ensures Acc(0, 0, 0, 0)
  {
  }

  lemma AccStep(done: nat, sum: int, c: nat, d: nat, w: nat)
    requires Acc(done, sum, c, d) && w <= 65535
    ensures var x := sum + w;
            Acc(done + w, if Wrap32(x) < 0 then Fold(Wrap32(x)) else Wrap32(x),
                if x < INT_LIMIT then c else c + 1, if x < 0 then d + 1 else d)
  {
    hide Wrap32, Fold;
    WordStep(sum + w);
  }

  /** The main loop: whole words, folding only when the accumulator turned negative. */
  method SumWords(data: seq<u8>) returns (sum: int, pos: nat, ghost done: nat, ghost c: nat, ghost d: nat)
    ensures pos <= |data| <= pos + 1
    ensures Acc(done, sum, c, d) && done + Total(data[pos..]) == Total(data)
  {
    hide Wrap32, Fold, Acc, Total;
    var len := |data|;
    sum, pos, done, c, d := 0, 0, 0, 0, 0;
    AccStart();
    assert data[0..] == data;
    while len > 1
      invariant 0 <= len <= |data| && pos == |data| - len
      invariant Acc(done, sum, c, d) && done + Total(data[pos..]) == Total(data)
    {
      assert Rest(data[pos..]) == data[pos + 2..];
      TotalIs(data[pos..]);
      var lo: int, hi: int := data[pos], data[pos + 1];
      var w := lo + 256 * hi;
      assert w == Word(data[pos..]);
      ghost var exact := sum + w;
      AccStep(done, sum, c, d, w);
      done := done + w;
      sum := Wrap32(sum + w);
      pos := pos + 2;
      if sum < 0 {
        sum := Fold(sum);
      }
      c, d := if exact < INT_LIMIT then c else c + 1, if exact < 0 then d + 1 else d;
      len := len - 2;
    }
  }

  /** For a buffer whose length is an int, the result is the RFC 1071 checksum exactly when the
      plain sum of the words stays below 2^31. */
  method Checksume16(data: seq<u8>) returns (r: nat)
    requires |data| < INT_LIMIT
    ensures r <= 65535
    ensures r == Rfc1071(data) <==> Total(data) < 0x8000_0000
    ensures Total(data) < 0x8000_0000 ==> OnesSum(Sealed(data, r), 0) == 65535
  {
    var sum, pos;
    ghost var done, c, d;
    sum, pos, done, c, d := SumWords(data);
    ghost var part := sum;
    if pos < |data| {
      assert data[pos..] == [data[pos]];
      part := sum + data[pos];
      ByteStep(part);
      sum := Wrap32(sum + data[pos]);
    }
    var folded;
    ghost var e;
    folded, e := FoldAll(sum);
    ghost var f := OnesSumIs(data, 0);
    Decide(Total(data), sum, c, d, if part >= INT_LIMIT then 1 else 0, folded, e, OnesSum(data, 0), f);
    r := 65535 - folded;
    SealedSum(data);
  }

  /** The last loop: fold until nothing is left above bit 15. */
  method FoldAll(s: int) returns (r: nat, ghost e: int)
    requires -INT_LIMIT <= s < INT_LIMIT
    ensures r <= 65535 && r == s - 65535 * e
    ensures s >= 0 ==> (r > 0 <==> s > 0)
  {
    var sum := s;
    e := 0;
    while sum / 65536 != 0
      invariant sum == s - 65535 * e && (s >= 0 ==> sum >= 0 && (sum > 0 <==> s > 0))
      decreases if sum < 0 then 100000 - sum else sum
    {
      e := e + sum / 65536;
      sum := Fold(sum);
    }
    r := sum;
  }

  /** Adding a word: nothing special, one overflow folded, or a negative value folded. */
  lemma WordStep(x: int)
    requires -32768 <= x < INT_LIMIT + 65535
    ensures x >= INT_LIMIT ==> Wrap32(x) < 0 && Fold(Wrap32(x)) == x - LOSS
    ensures x < 0 ==> Wrap32(x) < 0 && Fold(Wrap32(x)) == x + 65535
    ensures 0 <= x < INT_LIMIT ==> Wrap32(x) == x
  {
    if x >= INT_LIMIT {
      DivIs(x + INT_LIMIT, 0x1_0000_0000, 1, x - INT_LIMIT);
      FoldIs(x - 0x1_0000_0000, -32768 + (x - INT_LIMIT) / 65536, (x - INT_LIMIT) % 65536);
      DivIs(x - INT_LIMIT, 65536, (x - INT_LIMIT) / 65536, (x - INT_LIMIT) % 65536);
    } else {
      DivIs(x + INT_LIMIT, 0x1_0000_0000, 0, x + INT_LIMIT);
      if x < 0 {
        FoldIs(x, -1, x + 65536);
      }
    }
  }

  lemma FoldIs(x: int, q: int, r: nat)
    requires x == q * 65536 + r && r < 65536
    ensures Fold(x) == r + q
  {
    DivIs(x, 65536, q, r);
  }

  lemma ByteStep(x: int)
    requires -32768 <= x < INT_LIMIT + 255
    ensures x == Wrap32(x) + (if x >= INT_LIMIT then 0x1_0000_0000 else 0)
  {
  }

  /** A total that is 2^31 or more loses one unit modulo 65535 at each overflow, and there are
      fewer than 65535 overflows. */
  lemma Decide(t: nat, s: int, c: nat, d: nat, o: nat, folded: nat, e: int, ones: nat, f: nat)
    requires t <= 65535 * 0x4000_0000 && -INT_LIMIT <= s < INT_LIMIT && d <= c && o <= 1
    requires t == s + o * 0x1_0000_0000 + c * LOSS - 65535 * d
    requires c + o == 0 <==> t < INT_LIMIT
    requires folded <= 65535 && folded == s - 65535 * e && (s >= 0 ==> (folded > 0 <==> s > 0))
    requires ones <= 65535 && ones == t - 65535 * f && (t > 0 <==> ones > 0)
    ensures folded == ones <==> t < INT_LIMIT
  {
    var lost, k := c + o, f - e - o * 65537 - c * 32769 + d;
    assert folded - ones == 65535 * k - lost;
    if lost == 0 {
      assert t == s && -2 < k < 2;
    } else {
      assert lost < 65535;
      assert if k <= 0 then folded < ones else folded > ones;
    }
  }

  /** The buffer with an odd last byte filled up, and the checksum behind it, low octet first. */
  function Sealed(data: seq<u8>, c: nat): seq<u8>
    requires c <= 65535
  {
    data + (if |data| % 2 == 1 then [0] else []) + [c % 256, c / 256]
  }

  /** A receiver that sums a buffer with its checksum, word by word, gets all ones. */
  lemma SealedSum(data: seq<u8>)
    ensures OnesSum(Sealed(data, Rfc1071(data)), 0) == 65535
  {
    SealedFrom(data, 0, Rfc1071(data));
  }

  lemma {:induction false} SealedFrom(data: seq<u8>, acc: nat, c: nat)
    requires acc <= 65535 && c == 65535 - OnesSum(data, acc)
    ensures OnesSum(Sealed(data, c), acc) == 65535
    decreases |data|
  {
    var s := Sealed(data, c);
    if data == [] {
      assert s == [c % 256, c / 256] && Rest(s) == [];
      assert Word(s) == c;
    } else if |data| == 1 {
      assert s == [data[0], 0] + [c % 256, c / 256] && Rest(s) == [c % 256, c / 256];
      assert Word(s) == Word(data) && Rest(data) == [];
      assert Sealed([], c) == Rest(s);
      SealedFrom([], OnesAdd(acc, Word(data)), c);
    } else {
      assert Rest(s) == Sealed(Rest(data), c);
      SealedFrom(Rest(data), OnesAdd(acc, Word(data)), c);
    }
  }

  /** Every buffer of at most 65537 bytes is within the bound. */
  lemma ShortBuffers(data: seq<u8>)
    requires |data| <= 65537
    ensures Total(data) < INT_LIMIT
  {
    ShortTotal(data);
    var h := |data| / 2;
    assert h <= 32768;
    assert 65535 * h <= 65535 * 32768;
  }

  /** An odd byte adds at most 255. */
  lemma {:induction false} ShortTotal(data: seq<u8>)
    ensures Total(data) <= 65535 * (|data| / 2) + 255
    decreases |data|
  {
    if |data| > 1 {
      ShortTotal(Rest(data));
    }
  }

  lemma {:induction false} AllOnes(data: seq<u8>)
    requires forall i :: 0 <= i < |data| ==> data[i] == 255
    requires |data| % 2 == 0
    ensures Total(data) == 65535 * (|data| / 2)
    decreases |data|
  {
    if data != [] {
      AllOnes(Rest(data));
    }
  }

  /** The bound is tight: 65538 bytes of 0xFF exceed it. */
  lemma BoundIsTight(data: seq<u8>)
    requires |data| == 65538 && forall i :: 0 <= i < |data| ==> data[i] == 255
    ensures Total(data) >= INT_LIMIT
  {
    AllOnes(data);
  }
}
