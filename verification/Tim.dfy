/** The traffic indication map that APUpdateBeaconFrame (ap/ap_connect.c) writes into the
    beacon, against a decoder of the TIM element of IEEE Std 802.11-2012, section 8.4.2.7. */
module Tim {

  import opened Basics

  const IE_TIM := 5

  function P2(k: nat): nat
    requires k < 8
    ensures P2(k) > 0
  {
    match k
    case 0 => 1 case 1 => 2 case 2 => 4 case 3 => 8 case 4 => 16 case 5 => 32 case 6 => 64 case _ => 128
  }

  predicate BitAt(b: int, k: nat)
    requires k < 8
  {
    (b / P2(k)) % 2 == 1
  }

  /** Octet j of the bitmap; bit 0 of octet 0 stands for group traffic and is masked out. */
  function Masked(bm: seq<u8>, j: nat): int
    requires j < |bm|
  {
    if j == 0 then bm[0] - bm[0] % 2 else bm[j]
  }

  /** Station aid has buffered traffic. */
  predicate Marked(bm: seq<u8>, aid: nat) {
    aid / 8 < |bm| && BitAt(bm[aid / 8], aid % 8)
  }

  /** A receiver of element e finds the bit of station aid set: the octets present start at the
      even number in the bitmap control field and number the length less three. */
  predicate Announces(e: seq<u8>, aid: nat)
    requires |e| >= 5
  {
    var n1 := e[4] - e[4] % 2;
    var octet := aid / 8;
    n1 <= octet < n1 + e[1] - 3 && 5 + octet - n1 < |e| && BitAt(e[5 + octet - n1], aid % 8)
  }

  /** Octet 0 is in use, and the next octet in use is octet 2 or later. */
  predicate LosesOctet0(bm: seq<u8>)
    requires bm != []
  {
    Masked(bm, 0) != 0 && (exists j :: 2 <= j < |bm| && bm[j] != 0) && bm[1] == 0
  }

  /** The octet is the sum of the weights of its bits. */
  lemma BitsSpell(b: u8)
    ensures b == Digit(b, 0) + 2 * Digit(b, 1) + 4 * Digit(b, 2) + 8 * Digit(b, 3)
                 + 16 * Digit(b, 4) + 32 * Digit(b, 5) + 64 * Digit(b, 6) + 128 * Digit(b, 7)
  {
    hide Digit, P2;
    WeightsAre();
    var h0: nat := b;
    var h1 := DigitStep(b, 0, h0, 0);
    var h2 := DigitStep(b, 1, h1, b - 2 * h1);
    var h3 := DigitStep(b, 2, h2, b - 4 * h2);
    var h4 := DigitStep(b, 3, h3, b - 8 * h3);
    var h5 := DigitStep(b, 4, h4, b - 16 * h4);
    var h6 := DigitStep(b, 5, h5, b - 32 * h5);
    var h7 := DigitStep(b, 6, h6, b - 64 * h6);
    DigitIs(b, 7, h7, b - 128 * h7);
    assert h7 < 2;
  }

  function Digit(b: u8, k: nat): (d: int)
    requires k < 8
    ensures 0 <= d <= 1
  {
    if BitAt(b, k) then 1 else 0
  }

  lemma WeightsAre()
    ensures P2(0) == 1 && P2(1) == 2 && P2(2) == 4 && P2(3) == 8 && P2(4) == 16 && P2(5) == 32 && P2(6) == 64
    ensures P2(7) == 128
  {
  }

  /** With the octet split above and below bit k, the next split. */
  lemma DigitStep(b: u8, k: nat, high: nat, low: nat) returns (h: nat)
    requires k < 7 && b as int == high * P2(k) + low && low < P2(k)
    ensures high == 2 * h + Digit(b, k)
  {
    hide P2;
    DigitIs(b, k, high, low);
    h := high / 2;
  }

  lemma DigitIs(b: u8, k: nat, q: nat, r: nat)
    requires k < 8 && b as int == q * P2(k) + r && r < P2(k)
    ensures Digit(b, k) == q % 2
  {
    hide P2;
    DivIs(b as nat, P2(k), q, r);
  }

  lemma BitsOfByte(b: u8)
    ensures b - b % 2 != 0 <==> exists k: nat :: 1 <= k < 8 && BitAt(b, k)
    ensures b != 0 <==> exists k: nat :: k < 8 && BitAt(b, k)
  {
    if BitAt(b, 1) || BitAt(b, 2) || BitAt(b, 3) || BitAt(b, 4) || BitAt(b, 5) || BitAt(b, 6) || BitAt(b, 7) {
    } else {
      HighBits(b);
    }
  }

  lemma Halve(b: u8, k: nat)
    requires k < 8 && !BitAt(b, k) && b < 2 * P2(k)
    ensures b < P2(k)
  {
  }

  lemma HighBits(b: u8)
    requires !BitAt(b, 1) && !BitAt(b, 2) && !BitAt(b, 3) && !BitAt(b, 4) && !BitAt(b, 5) && !BitAt(b, 6)
             && !BitAt(b, 7)
    ensures b < 2 && (b == 1 <==> BitAt(b, 0))
  {
    Halve(b, 7);
    Halve(b, 6);
    Halve(b, 5);
    Halve(b, 4);
    Halve(b, 3);
    Halve(b, 2);
    Halve(b, 1);
  }

  /** What the scan leaves in TimFirst and TimLast after the first i octets. */
  ghost predicate Scanned(bm: seq<u8>, i: nat, first: nat, last: nat)
    requires i <= |bm|
  {
    && (first == 0 ==> forall j :: 1 <= j < i ==> bm[j] == 0)
    && (first != 0 ==> first < i && bm[first] != 0 && forall j :: 1 <= j < first ==> bm[j] == 0)
    && first <= last && (last == 0 || last < i)
    && (last != 0 ==> Masked(bm, last) != 0)
    && (forall j :: last < j < i ==> bm[j] == 0)
  }

  /** The scan over the bitmap octets. TimFirst keeps the value 0 through octet 0, so a later
      octet in use overwrites it. */
  method Scan(bm: seq<u8>) returns (first: nat, last: nat)
    requires 1 <= |bm|
    ensures Scanned(bm, |bm|, first, last)
  {
    first, last := 0, 0;
    var id := 0;
    while id < |bm|
      invariant 0 <= id <= |bm| && Scanned(bm, id, first, last)
    {
      var tim: int := bm[id];
      if id == 0 {
        tim := tim - tim % 2;
      }
      if tim != 0 {
        if first == 0 {
          first := id;
        }
        last := id;
      }
      id := id + 1;
    }
  }

  /** The element: header, DTIM fields, bitmap control, and octets from..last. */
  ghost predicate IsElement(e: seq<u8>, bm: seq<u8>, dtimCount: u8, dtimPeriod: u8, from: nat, last: nat)
    requires from <= last < |bm|
  {
    && |e| == 2 + 3 + (last - from + 1)
    && e[0] == IE_TIM && e[1] == 3 + (last - from + 1) && e[2] == dtimCount && e[3] == dtimPeriod
    && e[4] == from + (if dtimCount == 0 then bm[0] % 2 else 0)
    && e[5..] == bm[from..last + 1]
  }

  /** Step 2 of APUpdateBeaconFrame, in place: `at` is TimIELocationInBeacon. */
  method UpdateTim(beacon: array<u8>, at: nat, bm: seq<u8>, dtimCount: u8, dtimPeriod: u8) returns (len: nat)
    requires 1 <= |bm| <= 251 && at + 5 + |bm| <= beacon.Length
    modifies beacon
    ensures at + len <= beacon.Length && len >= 6
    ensures beacon[..at] == old(beacon[..at]) && beacon[at + len..] == old(beacon[at + len..])
    ensures var e := beacon[at..at + len];
            && |e| - 2 == e[1] && e[0] == 5 && e[2] == dtimCount && e[3] == dtimPeriod
            && (e[4] % 2 == 1 <==> dtimCount == 0 && bm[0] % 2 == 1)
            && (forall aid: nat :: aid >= 1 && Announces(e, aid) ==> Marked(bm, aid))
            && ((forall aid: nat :: aid >= 1 ==> (Announces(e, aid) <==> Marked(bm, aid))) <==> !LosesOctet0(bm))
            && (Masked(bm, 0) == 0 ==> Minimal(e, bm))
  {
    var first, last := Scan(bm);
    var from := if first % 2 == 1 then first - 1 else first;
    len := WriteElement(beacon, at, bm, dtimCount, dtimPeriod, from, last);
    Meaning(beacon[at..at + len], bm, dtimCount, dtimPeriod, first, last);
  }

  /** The writes of step 2: the octets are copied behind the five fixed ones, and the group
      traffic bit is added to the control field when a DTIM is due. */
  method WriteElement(beacon: array<u8>, at: nat, bm: seq<u8>, dtimCount: u8, dtimPeriod: u8, from: nat, last: nat)
    returns (len: nat)
    requires 1 <= |bm| <= 251 && at + 5 + |bm| <= beacon.Length && from <= last < |bm|
    modifies beacon
    ensures at + len <= beacon.Length && IsElement(beacon[at..at + len], bm, dtimCount, dtimPeriod, from, last)
    ensures beacon[..at] == old(beacon[..at]) && beacon[at + len..] == old(beacon[at + len..])
  {
    beacon[at], beacon[at + 2], beacon[at + 3] := IE_TIM, dtimCount, dtimPeriod;
    beacon[at + 1] := 3 + (last - from + 1);
    beacon[at + 4] := from;
    CopyOctets(beacon, at + 5, bm, from, last);
    len := 2 + 3 + (last - from + 1);
    AddGroup(beacon, at + 4, bm[0], dtimCount);
    ghost var b := beacon[..];
    assert b[at + 5..at + len] == beacon[at + 5..at + len] == bm[from..last + 1];
    ElementAt(b, at, bm, dtimCount, dtimPeriod, from, last);
    assert b[at..at + len] == beacon[at..at + len];
    assert beacon[..at] == old(beacon[..at]) && beacon[at + len..] == old(beacon[at + len..]);
  }

  /** The group traffic bit, when a DTIM is due. */
  method AddGroup(beacon: array<u8>, at: nat, first: u8, dtimCount: u8)
    requires at < beacon.Length && beacon[at] <= 250
    modifies beacon
    ensures beacon[at] == old(beacon[at]) + (if dtimCount == 0 then first % 2 else 0)
    ensures forall j :: 0 <= j < beacon.Length && j != at ==> beacon[j] == old(beacon[j])
    ensures forall lo, hi :: at < lo <= hi <= beacon.Length ==> beacon[lo..hi] == old(beacon[lo..hi])
  {
    if dtimCount == 0 {
      beacon[at] := beacon[at] + first % 2;
    }
  }

  lemma ElementAt(b: seq<u8>, at: nat, bm: seq<u8>, dtimCount: u8, dtimPeriod: u8, from: nat, last: nat)
    requires from <= last < |bm| && at + 5 + (last - from + 1) <= |b|
    requires b[at] == IE_TIM && b[at + 1] == 3 + (last - from + 1) && b[at + 2] == dtimCount && b[at + 3] == dtimPeriod
    requires b[at + 4] == from + (if dtimCount == 0 then bm[0] % 2 else 0)
    requires b[at + 5..at + 5 + (last - from + 1)] == bm[from..last + 1]
    ensures IsElement(b[at..at + 5 + (last - from + 1)], bm, dtimCount, dtimPeriod, from, last)
  {
    var e := b[at..at + 5 + (last - from + 1)];
    assert e[5..] == b[at + 5..at + 5 + (last - from + 1)];
  }

  method CopyOctets(beacon: array<u8>, dst: nat, bm: seq<u8>, from: nat, last: nat)
    requires from <= last < |bm| && dst + (last - from + 1) <= beacon.Length
    modifies beacon
    ensures beacon[dst..dst + (last - from + 1)] == bm[from..last + 1]
    ensures forall j :: 0 <= j < beacon.Length && !(dst <= j < dst + (last - from + 1)) ==> beacon[j] == old(beacon[j])
  {
    var i := from;
    while i <= last
      invariant from <= i <= last + 1
      invariant forall j :: from <= j < i ==> beacon[dst + j - from] == bm[j]
      invariant forall j :: 0 <= j < beacon.Length && !(dst <= j < dst + (i - from)) ==> beacon[j] == old(beacon[j])
    {
      beacon[dst + i - from] := bm[i];
      i := i + 1;
    }
  }

  /** The standard's offset and length: N1 is the largest even number of leading octets without
      a mark, N2 the last octet with one, and the length is N2 - N1 + 4. With no mark at all a
      single zero octet is sent. */
  ghost predicate Minimal(e: seq<u8>, bm: seq<u8>)
    requires |e| >= 5
  {
    var n1 := e[4] - e[4] % 2;
    var n2 := n1 + e[1] - 4;
    && n1 <= n2 < |bm|
    && (forall j :: 0 <= j < n1 ==> Masked(bm, j) == 0)
    && (forall j :: n2 < j < |bm| ==> bm[j] == 0)
    && (if exists j :: 0 <= j < |bm| && Masked(bm, j) != 0
        then Masked(bm, n2) != 0 && (Masked(bm, n1) != 0 || (n1 + 1 < |bm| && bm[n1 + 1] != 0))
        else n1 == 0 && n2 == 0)
  }

  lemma Meaning(e: seq<u8>, bm: seq<u8>, dtimCount: u8, dtimPeriod: u8, first: nat, last: nat)
    requires |bm| >= 1 && Scanned(bm, |bm|, first, last)
    requires IsElement(e, bm, dtimCount, dtimPeriod, first - first % 2, last)
    ensures forall aid: nat :: aid >= 1 && Announces(e, aid) ==> Marked(bm, aid)
    ensures (forall aid: nat :: aid >= 1 ==> (Announces(e, aid) <==> Marked(bm, aid))) <==> !LosesOctet0(bm)
    ensures e[4] % 2 == 1 <==> dtimCount == 0 && bm[0] % 2 == 1
    ensures Masked(bm, 0) == 0 ==> Minimal(e, bm)
  {
    hide BitAt, P2, Announces, Marked, Minimal, Masked, IsElement, Scanned, LosesOctet0;
    ControlBit(e, bm, dtimCount, dtimPeriod, first, last);
    forall aid: nat | aid >= 1
      ensures Announces(e, aid) <==> Marked(bm, aid) && first - first % 2 <= aid / 8
    {
      MeaningAt(e, bm, dtimCount, dtimPeriod, first, last, aid);
    }
    if LosesOctet0(bm) {
      var k := LostBit(bm, first, last);
      assert k / 8 == 0 && Marked(bm, k) && !Announces(e, k);
    } else {
      forall aid: nat | aid >= 1 ensures Announces(e, aid) <==> Marked(bm, aid) {
        NothingLost(bm, first, last, aid);
      }
    }
    if Masked(bm, 0) == 0 {
      IsMinimal(e, bm, dtimCount, dtimPeriod, first, last);
    }
  }

  /** The control octet: group traffic in bit 0, the offset above it. */
  lemma ControlBit(e: seq<u8>, bm: seq<u8>, dtimCount: u8, dtimPeriod: u8, first: nat, last: nat)
    requires |bm| >= 1 && Scanned(bm, |bm|, first, last)
    requires IsElement(e, bm, dtimCount, dtimPeriod, first - first % 2, last)
    ensures |e| >= 5 && (e[4] % 2 == 1 <==> dtimCount == 0 && bm[0] % 2 == 1)
  {
  }

  lemma LostBit(bm: seq<u8>, first: nat, last: nat) returns (k: nat)
    requires |bm| >= 1 && Scanned(bm, |bm|, first, last) && LosesOctet0(bm)
    ensures 1 <= k < 8 && k / 8 == 0 && Marked(bm, k) && first - first % 2 >= 2
  {
    hide BitAt, P2;
    BitsOfByte(bm[0]);
    k :| 1 <= k < 8 && BitAt(bm[0], k);
    assert k / 8 == 0 && k % 8 == k;
  }

  lemma NothingLost(bm: seq<u8>, first: nat, last: nat, aid: nat)
    requires |bm| >= 1 && Scanned(bm, |bm|, first, last) && !LosesOctet0(bm) && aid >= 1
    ensures Marked(bm, aid) ==> first - first % 2 <= aid / 8
  {
    hide BitAt, P2;
    if Marked(bm, aid) {
      BitsOfByte(bm[aid / 8]);
    }
  }

  lemma IsMinimal(e: seq<u8>, bm: seq<u8>, dtimCount: u8, dtimPeriod: u8, first: nat, last: nat)
    requires |bm| >= 1 && Scanned(bm, |bm|, first, last) && Masked(bm, 0) == 0
    requires IsElement(e, bm, dtimCount, dtimPeriod, first - first % 2, last)
    ensures Minimal(e, bm)
  {
    hide BitAt, P2;
    var n1, n2 := first - first % 2, last;
    assert e[4] - e[4] % 2 == n1 && n1 + e[1] - 4 == n2;
    LeadingZeros(bm, first, last);
    assert forall j :: n2 < j < |bm| ==> bm[j] == 0;
    if first == 0 {
      assert forall j :: 0 <= j < |bm| ==> Masked(bm, j) == 0;
    } else {
      assert Masked(bm, first) == bm[first] != 0 && (n1 == first || n1 + 1 == first);
      assert Masked(bm, n2) != 0;
    }
  }

  lemma LeadingZeros(bm: seq<u8>, first: nat, last: nat)
    requires |bm| >= 1 && Scanned(bm, |bm|, first, last) && Masked(bm, 0) == 0
    ensures forall j :: 0 <= j < first ==> Masked(bm, j) == 0
    ensures first == 0 ==> last == 0 && forall j :: 0 <= j < |bm| ==> Masked(bm, j) == 0
    ensures first != 0 ==> last != 0
  {
  }

  lemma MeaningAt(e: seq<u8>, bm: seq<u8>, dtimCount: u8, dtimPeriod: u8, first: nat, last: nat, aid: nat)
    requires |bm| >= 1 && Scanned(bm, |bm|, first, last) && aid >= 1
    requires IsElement(e, bm, dtimCount, dtimPeriod, first - first % 2, last)
    ensures Announces(e, aid) <==> Marked(bm, aid) && first - first % 2 <= aid / 8
  {
    hide BitAt, P2;
    var from, octet := first - first % 2, aid / 8;
    assert e[4] - e[4] % 2 == from;
    if from <= octet <= last {
      assert e[5..][octet - from] == bm[octet];
    } else if last < octet < |bm| {
      BitsOfByte(bm[octet]);
    }
  }
}
