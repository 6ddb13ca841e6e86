/** A receiver of A-MSDUs (IEEE Std 802.11-2012, section 8.3.2.2) that hands up Ethernet frames as
    IEEE Std 802.1H has it, and what it makes of what the driver sends. Nothing of the receiver, and
    of what it is to receive, is defined through the driver's own functions. */
module AmsduReceiver {
  import opened Basics
  import opened Amsdu

  /** A frame as it is handed up. */
  datatype Ether = Ether(da: seq<u8>, sa: seq<u8>, typeLen: seq<u8>, data: seq<u8>)

  datatype Received = Rejected | Frames(list: seq<Ether>)

  // ---------------------------------------------------------------- the receiver

  function Number(hi: u8, lo: u8): nat { 256 * (hi as nat) + lo as nat }

  /** The types that 802.1H carries under its own OUI: IPX and AppleTalk ARP. */
  predicate Tunnelled(typeLen: seq<u8>) { typeLen == [0x81, 0x37] || typeLen == [0x80, 0xf3] }

  /** The body starts with LLC/SNAP, the OUI that belongs to the type behind it, and a type. */
  predicate Snapped(body: seq<u8>) {
    && |body| >= 8 && Number(body[6], body[7]) > 1500
    && body[..6] == [0xaa, 0xaa, 0x03, 0x00, 0x00, if Tunnelled(body[6..8]) then 0xf8 else 0x00]
  }

  /** One MSDU handed up: without LLC/SNAP under its type, or as it is under its length. */
  function Decapsulated(da: seq<u8>, sa: seq<u8>, body: seq<u8>): Received {
    if Snapped(body) then Frames([Ether(da, sa, body[6..8], body[8..])])
    else if |body| > 1500 then Rejected
    else Frames([Ether(da, sa, [|body| / 256, |body| % 256], body)])
  }

  /** Where the subframe behind one that ends here starts. */
  function Next(end: nat): (r: nat)
    ensures end <= r
  {
    (end + 3) / 4 * 4
  }

  /** The subframes one after the other, each but the last padded to a multiple of four. */
  function Receive(s: seq<u8>): Received {
    if |s| < 14 then Rejected
    else
      var end := 14 + Number(s[12], s[13]);
      if end > |s| then Rejected
      else
        var first := Decapsulated(s[..6], s[6..12], s[14..end]);
        if end == |s| then first
        else if Next(end) > |s| then Rejected
        else Both(first, Receive(s[Next(end)..]))
  }

  function Both(first: Received, rest: Received): Received {
    if first.Rejected? || rest.Rejected? then Rejected else Frames(first.list + rest.list)
  }

  // ---------------------------------------------------------------- what is sent

  function EtherOf(p: Frame): Ether { Ether(p.da, p.sa, p.typeLen, p.data) }

  function EthersOf(ps: seq<Frame>): (r: seq<Ether>)
    ensures |r| == |ps| && forall i :: 0 <= i < |ps| ==> r[i] == EtherOf(ps[i])
  {
    seq(|ps|, i requires 0 <= i < |ps| => EtherOf(ps[i]))
  }

  /** An Ethernet II frame, or an 802.3 frame whose length is that of its data, which does not itself
      look like an Ethernet II frame in LLC/SNAP. */
  predicate Regular(p: Frame) {
    Number(p.typeLen[0], p.typeLen[1]) > 1500
    || (Number(p.typeLen[0], p.typeLen[1]) == |p.data| && !Snapped(p.data))
  }

  /** The sixteen-bit length field has room, for LLC/SNAP and type as well. */
  predicate HasRoom(p: Frame) {
    |p.data| + (if Number(p.typeLen[0], p.typeLen[1]) > 1500 then 8 else 0) < 65536
  }

  // ---------------------------------------------------------------- proofs

  lemma NumberIs(hi: u8, lo: u8)
    ensures Word(hi, lo) == Number(hi, lo)
  {
  }

  lemma NextIs(n: nat)
    ensures Next(n) == n + PadOf(n)
  {
    var q, m := n / 4, n % 4;
    if m == 0 {
      DivIs(n + 3, 4, q, 3);
    } else {
      DivIs(n + 3, 4, q + 1, m - 1);
    }
  }

  lemma EncapIs(p: Frame)
    ensures Encap(p) == if Number(p.typeLen[0], p.typeLen[1]) > 1500 then
                          [0xaa, 0xaa, 0x03, 0x00, 0x00, if Tunnelled(p.typeLen) then 0xf8 else 0x00] + p.typeLen
                        else []
    ensures HasRoom(p) <==> Fits(p)
  {
    NumberIs(p.typeLen[0], p.typeLen[1]);
  }

  /** What the receiver hands up of an MSDU tells which it was. */
  lemma DecapsulatedOnce(m: Msdu, n: Msdu)
    requires var d := Decapsulated(m.da, m.sa, m.body); d.Frames? && d == Decapsulated(n.da, n.sa, n.body)
    ensures m == n
  {
    var a, b := m.body, n.body;
    if Snapped(a) && Snapped(b) {
      assert a == a[..6] + a[6..8] + a[8..] && b == b[..6] + b[6..8] + b[8..];
    } else if Snapped(a) {
      ShortType(a, b);
    } else if Snapped(b) {
      ShortType(b, a);
    }
  }

  lemma ShortType(a: seq<u8>, b: seq<u8>)
    requires Snapped(a) && |b| <= 1500
    ensures a[6..8] != [|b| / 256, |b| % 256]
  {
    assert a[6..8] == [a[6], a[7]];
  }

  /** A regular frame, and no other, comes back from its MSDU. */
  lemma FrameComesBack(p: Frame)
    ensures var m := MsduOf(p); Decapsulated(m.da, m.sa, m.body) == Frames([EtherOf(p)]) <==> Regular(p)
  {
    hide Encap;
    EncapIs(p);
    var e, body, n := Encap(p), Encap(p) + p.data, Number(p.typeLen[0], p.typeLen[1]);
    if n > 1500 {
      assert body[..6] == e[..6] && body[6..8] == e[6..8] == p.typeLen && body[8..] == p.data;
      assert body[6] == p.typeLen[0] && body[7] == p.typeLen[1];
    } else {
      assert body == p.data;
      if Snapped(p.data) {
        assert |p.data[8..]| < |p.data|;
      } else if |p.data| <= 1500 {
        LengthComesBack(p.typeLen, p.data);
      }
    }
  }

  lemma LengthComesBack(typeLen: seq<u8>, data: seq<u8>)
    requires |typeLen| == 2 && |data| <= 1500
    ensures typeLen == [|data| / 256, |data| % 256] <==> Number(typeLen[0], typeLen[1]) == |data|
  {
    if Number(typeLen[0], typeLen[1]) == |data| {
      DivIs(|data|, 256, typeLen[0], typeLen[1]);
    }
  }

  /** All MSDUs handed up. */
  function AllUp(ms: seq<Msdu>): Received {
    if ms == [] then Frames([]) else Both(Decapsulated(ms[0].da, ms[0].sa, ms[0].body), AllUp(ms[1..]))
  }

  /** One step of either parser. */
  lemma ParseShape(s: seq<u8>, end: nat)
    requires |s| >= 14 && end == 14 + Number(s[12], s[13])
    ensures end > |s| || end < |s| < Next(end) ==> Parse(s) == Malformed
    ensures end == |s| ==> Parse(s) == Msdus([Msdu(s[..6], s[6..12], s[14..end])])
    ensures end < |s| && end <= Next(end) <= |s| ==>
              Parse(s) == Joined(Msdu(s[..6], s[6..12], s[14..end]), Parse(s[Next(end)..]))
  {
    hide Word, PadOf, Number, Joined, Next, Parse;
    NumberIs(s[12], s[13]);
    NextIs(end);
    if end == |s| {
      ParseEnd(s, end);
    } else if end < |s| && Next(end) <= |s| {
      ParseNext(s, end);
    } else {
      ParseStops(s, end);
    }
  }

  lemma ParseEnd(s: seq<u8>, end: nat)
    requires |s| >= 14 && end == 14 + Word(s[12], s[13]) == |s|
    ensures Parse(s) == Msdus([Msdu(s[..6], s[6..12], s[14..end])])
  {
    hide Word, PadOf, Joined;
  }

  lemma ParseStops(s: seq<u8>, end: nat)
    requires |s| >= 14 && end == 14 + Word(s[12], s[13])
    requires end > |s| || end < |s| < end + PadOf(end)
    ensures Parse(s) == Malformed
  {
    hide Word, PadOf, Joined;
  }

  lemma ReceiveShape(s: seq<u8>, end: nat)
    requires |s| >= 14 && end == 14 + Number(s[12], s[13])
    ensures end > |s| || end < |s| < Next(end) ==> Receive(s) == Rejected
    ensures end == |s| ==> Receive(s) == Decapsulated(s[..6], s[6..12], s[14..end])
    ensures end < |s| && end <= Next(end) <= |s| ==>
              Receive(s) == Both(Decapsulated(s[..6], s[6..12], s[14..end]), Receive(s[Next(end)..]))
  {
    hide Number, Decapsulated, Next, Both, PadOf;
  }

  lemma {:induction false} ReceiveIs(s: seq<u8>)
    ensures Receive(s) == if Parse(s).Malformed? then Rejected else AllUp(Parse(s).list)
    decreases |s|
  {
    hide Parse, Receive, Decapsulated, Number, AllUp, Both, Next, PadOf;
    if |s| < 14 {
      TooShort(s);
    } else {
      var end := 14 + Number(s[12], s[13]);
      NextIs(end);
      ParseShape(s, end);
      ReceiveShape(s, end);
      if end < |s| && Next(end) <= |s| {
        ReceiveIs(s[Next(end)..]);
        OneMore(Msdu(s[..6], s[6..12], s[14..end]), Parse(s[Next(end)..]));
        BothRejected(Decapsulated(s[..6], s[6..12], s[14..end]));
      } else if end == |s| {
        OneUp(Msdu(s[..6], s[6..12], s[14..end]));
      }
    }
  }

  lemma TooShort(s: seq<u8>)
    requires |s| < 14
    ensures Receive(s) == Rejected && Parse(s) == Malformed
  {
  }

  lemma BothRejected(r: Received)
    ensures Both(r, Rejected) == Rejected
  {
  }

  lemma OneUp(m: Msdu)
    ensures AllUp([m]) == Decapsulated(m.da, m.sa, m.body)
  {
    hide Decapsulated;
    assert [m][1..] == [];
    var d := Decapsulated(m.da, m.sa, m.body);
    assert d.Frames? ==> d.list + [] == d.list;
  }

  lemma OneMore(m: Msdu, r: Parsed)
    ensures r.Msdus? ==> AllUp([m] + r.list) == Both(Decapsulated(m.da, m.sa, m.body), AllUp(r.list))
  {
    hide Decapsulated, Both;
    if r.Msdus? {
      assert ([m] + r.list)[0] == m && ([m] + r.list)[1..] == r.list;
    }
  }

  lemma DecapsulatedOne(da: seq<u8>, sa: seq<u8>, body: seq<u8>)
    ensures Decapsulated(da, sa, body).Frames? ==> |Decapsulated(da, sa, body).list| == 1
  {
  }

  /** Exactly the sent MSDUs of regular frames are handed up as those frames. */
  lemma {:induction false} AllComeBack(ms: seq<Msdu>, ps: seq<Frame>)
    ensures AllUp(ms) == Frames(EthersOf(ps)) <==>
            ms == MsdusOf(ps) && forall i :: 0 <= i < |ps| ==> Regular(ps[i])
    decreases |ms|
  {
    hide Decapsulated, Regular, MsduOf, EtherOf, MsdusOf, EthersOf;
    if ms == [] {
      assert AllUp(ms) == Frames([]);
    } else if ps == [] {
      DecapsulatedOne(ms[0].da, ms[0].sa, ms[0].body);
    } else {
      var m, p := ms[0], ps[0];
      var first, rest := Decapsulated(m.da, m.sa, m.body), AllUp(ms[1..]);
      AllComeBack(ms[1..], ps[1..]);
      FirstComesBack(m, p);
      DecapsulatedOne(m.da, m.sa, m.body);
      SplitLists(ms, ps);
      SplitRegular(ps);
      if first.Frames? && rest.Frames? {
        SplitSame(first.list, rest.list, EtherOf(p), EthersOf(ps[1..]));
      }
    }
  }

  lemma SplitLists(ms: seq<Msdu>, ps: seq<Frame>)
    requires ms != [] && ps != []
    ensures EthersOf(ps) == [EtherOf(ps[0])] + EthersOf(ps[1..])
    ensures ms == MsdusOf(ps) <==> ms[0] == MsduOf(ps[0]) && ms[1..] == MsdusOf(ps[1..])
  {
    hide EtherOf, MsduOf, EthersOf, MsdusOf;
    HeadEther(ps);
    HeadMsdu(ps);
    HeadTail(ms);
    SplitSame([ms[0]], ms[1..], MsduOf(ps[0]), MsdusOf(ps[1..]));
  }

  lemma HeadTail<T>(s: seq<T>)
    requires s != []
    ensures s == [s[0]] + s[1..]
  {
  }

  lemma HeadEther(ps: seq<Frame>)
    requires ps != []
    ensures EthersOf(ps) == [EtherOf(ps[0])] + EthersOf(ps[1..])
  {
    hide EtherOf;
    var a, b := EthersOf(ps), [EtherOf(ps[0])] + EthersOf(ps[1..]);
    assert forall i :: 0 <= i < |ps| ==> a[i] == b[i];
  }

  lemma HeadMsdu(ps: seq<Frame>)
    requires ps != []
    ensures MsdusOf(ps) == [MsduOf(ps[0])] + MsdusOf(ps[1..])
  {
    hide MsduOf;
    var a, b := MsdusOf(ps), [MsduOf(ps[0])] + MsdusOf(ps[1..]);
    assert forall i :: 0 <= i < |ps| ==> a[i] == b[i];
  }

  lemma SplitSame<T>(a: seq<T>, b: seq<T>, x: T, c: seq<T>)
    requires |a| == 1
    ensures a + b == [x] + c <==> a == [x] && b == c
  {
    if a + b == [x] + c {
      assert a == (a + b)[..1] == [x] && b == (a + b)[1..] == c;
    }
  }

  lemma SplitRegular(ps: seq<Frame>)
    requires ps != []
    ensures (forall i :: 0 <= i < |ps| ==> Regular(ps[i])) <==>
            Regular(ps[0]) && forall i :: 0 <= i < |ps[1..]| ==> Regular(ps[1..][i])
  {
    hide Regular;
    if Regular(ps[0]) && forall i :: 0 <= i < |ps[1..]| ==> Regular(ps[1..][i]) {
      forall i | 0 <= i < |ps| ensures Regular(ps[i]) {
        assert i > 0 ==> Regular(ps[1..][i - 1]);
      }
    }
  }

  lemma FirstComesBack(m: Msdu, p: Frame)
    ensures Decapsulated(m.da, m.sa, m.body) == Frames([EtherOf(p)]) <==> m == MsduOf(p) && Regular(p)
  {
    hide Decapsulated, Regular, MsduOf, EtherOf;
    FrameComesBack(p);
    if Decapsulated(m.da, m.sa, m.body) == Frames([EtherOf(p)]) {
      if !Regular(p) {
        OnlyRegular(m, p);
      }
      DecapsulatedOnce(m, MsduOf(p));
    }
  }

  /** Whatever the receiver hands up is regular. */
  lemma OnlyRegular(m: Msdu, p: Frame)
    requires Decapsulated(m.da, m.sa, m.body) == Frames([EtherOf(p)])
    ensures Regular(p)
  {
    var b := m.body;
    if Snapped(b) {
      assert p.typeLen == b[6..8];
      assert p.typeLen[0] == b[6] && p.typeLen[1] == b[7];
    } else {
      LengthComesBack(p.typeLen, p.data);
    }
  }

  /** The round trip: the receiver hands up the frames that were sent, addresses, type and data, exactly
      when each has room, is regular, and its header survives. */
  lemma DeliveredExactly(left: seq<u8>, ps: seq<Frame>)
    requires ps != []
    ensures Receive(Wire(left, ps)) == Frames(EthersOf(ps)) <==>
            (forall i :: 0 <= i < |ps| ==> Regular(ps[i])) && AllSurvive(left, ps)
  {
    hide Receive, Parse, Wire, AllUp, Regular, AllSurvive;
    ReceiveIs(Wire(left, ps));
    RoundTrip(left, ps);
    var r := Parse(Wire(left, ps));
    if r.Msdus? {
      AllComeBack(r.list, ps);
    }
  }

  /** Built at the bottom of the buffer. */
  lemma DeliveredAtBottom(ps: seq<Frame>)
    requires ps != []
    ensures Receive(Wire([], ps)) == Frames(EthersOf(ps)) <==>
            forall i :: 0 <= i < |ps| ==> Regular(ps[i]) && HasRoom(ps[i])
  {
    hide Receive, Wire, Regular, HasRoom, Fits, AllSurvive;
    DeliveredExactly([], ps);
    RoundTrip([], ps);
    RoundTripAtBottom(ps);
    forall i | 0 <= i < |ps| ensures HasRoom(ps[i]) <==> Fits(ps[i]) {
      EncapIs(ps[i]);
    }
  }

  /** The octets that descriptor and padding put in place of the j-th one of a header. */
  function Instead(left: seq<u8>, pad: nat, j: nat): u8
    requires |left| == 4 && pad < 4
  {
    if pad + j % 4 < 4 then left[pad + j % 4] else 0
  }

  /** In access point mode: a frame after the first is an 802.3 frame, and its addresses and length are
      the octets put in their place. */
  ghost predicate Lucky(left: seq<u8>, before: Frame, p: Frame)
    requires |left| == 4
  {
    && Number(p.typeLen[0], p.typeLen[1]) <= 1500
    && exists pad: nat :: pad < 4 && PaddingBehind(before, pad) && |p.data| < 65536 &&
         forall j :: 0 <= j < 14 ==> Instead(left, pad, j) == HeaderOctet(p, j)
  }

  /** The padding behind a subframe. */
  predicate PaddingBehind(p: Frame, pad: nat) {
    (14 + |p.data| + (if Number(p.typeLen[0], p.typeLen[1]) > 1500 then 8 else 0) + pad) % 4 == 0
  }

  function HeaderOctet(p: Frame, j: nat): u8
    requires j < 14 && |p.data| < 65536
  {
    if j < 6 then p.da[j] else if j < 12 then p.sa[j - 6] else if j == 12 then |p.data| / 256 else |p.data| % 256
  }

  lemma PaddingIs(p: Frame, pad: nat)
    requires pad < 4
    ensures PaddingBehind(p, pad) <==> pad == PadAfter(p)
  {
    hide Encap;
    EncapIs(p);
    var n, r := 14 + |p.data| + (if Number(p.typeLen[0], p.typeLen[1]) > 1500 then 8 else 0), PadAfter(p);
    assert (n + r) % 4 == 0;
    if (n + pad) % 4 == 0 {
      assert ((n + r) - (n + pad)) % 4 == 0;
    }
  }

  lemma LuckyIs(left: seq<u8>, before: Frame, p: Frame)
    requires |left| == 4 && HasRoom(p)
    ensures Lucky(left, before, p) <==> Spells(left, PadAfter(before), p)
  {
    hide Encap, PadAfter;
    EncapIs(p);
    var pad := PadAfter(before);
    PaddingIs(before, pad);
    if Number(p.typeLen[0], p.typeLen[1]) <= 1500 {
      HeaderIs(p);
      CycleOctets(left, pad);
      var h, c := p.da + p.sa + LengthField(|p.data|), Cycle(left, pad);
      assert h == c <==> forall j :: 0 <= j < 14 ==> h[j] == c[j];
      forall pad': nat | pad' < 4 && PaddingBehind(before, pad') ensures pad' == pad {
        PaddingIs(before, pad');
      }
    }
  }

  lemma HeaderIs(p: Frame)
    requires |p.data| < 65536
    ensures var h := p.da + p.sa + LengthField(|p.data|);
            |h| == 14 && forall j :: 0 <= j < 14 ==> h[j] == HeaderOctet(p, j)
  {
  }

  lemma CycleOctets(left: seq<u8>, pad: nat)
    requires |left| == 4 && pad < 4
    ensures forall j :: 0 <= j < 14 ==> Cycle(left, pad)[j] == Instead(left, pad, j)
  {
    var c := left[pad..] + Zeros(pad);
    hide Instead;
    forall j: nat | j < 4 ensures c[j] == Instead(left, pad, j) {
      FirstFour(left, pad, j);
    }
    forall j: nat | j < 14 ensures Cycle(left, pad)[j] == Instead(left, pad, j) {
      var i := if j < 4 then j else if j < 8 then j - 4 else if j < 12 then j - 8 else j - 12;
      assert Cycle(left, pad)[j] == c[i];
      SamePlace(left, pad, i, j);
    }
  }

  lemma FirstFour(left: seq<u8>, pad: nat, j: nat)
    requires |left| == 4 && pad < 4 && j < 4
    ensures (left[pad..] + Zeros(pad))[j] == Instead(left, pad, j)
  {
    DivIs(j, 4, 0, j);
  }

  lemma SamePlace(left: seq<u8>, pad: nat, i: nat, j: nat)
    requires |left| == 4 && pad < 4 && i < 4 && (j == i || j == i + 4 || j == i + 8 || j == i + 12)
    ensures Instead(left, pad, j) == Instead(left, pad, i)
  {
    DivIs(j, 4, (j - i) / 4, i);
    DivIs(i, 4, 0, i);
  }

  /** In access point mode, for any mix of packets. */
  lemma DeliveredByAccessPoint(left: seq<u8>, ps: seq<Frame>)
    requires ps != [] && |left| == 4 && left[2] == 8 && left[3] == 4
    ensures Receive(Wire(left, ps)) == Frames(EthersOf(ps)) <==>
            (forall i :: 0 <= i < |ps| ==> Regular(ps[i]) && HasRoom(ps[i])) &&
            (forall i :: 1 <= i < |ps| ==> Lucky(left, ps[i - 1], ps[i]))
  {
    hide Receive, Wire, Regular, HasRoom, Fits, AllSurvive, Lucky, Spells, PadAfter;
    DeliveredExactly(left, ps);
    RoundTrip(left, ps);
    AccessPointRoundTrip(left, ps);
    forall i | 0 <= i < |ps| ensures HasRoom(ps[i]) <==> Fits(ps[i]) {
      EncapIs(ps[i]);
    }
    if forall i :: 0 <= i < |ps| ==> HasRoom(ps[i]) {
      forall i | 1 <= i < |ps| ensures Lucky(left, ps[i - 1], ps[i]) <==> Spells(left, PadAfter(ps[i - 1]), ps[i]) {
        LuckyIs(left, ps[i - 1], ps[i]);
      }
    }
  }
}
