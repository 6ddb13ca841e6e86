/** The A-MSDU that AP_AMSDU_Frame_Tx (ap/ap_data.c) and RtmpUSB_WriteMultiTxResource
    (common/cmm_data_usb.c) put on the bulk-out pipe, against a parser of the A-MSDU format of
    IEEE Std 802.11-2012, section 8.3.2.2. */
module Amsdu {

  import opened Basics

  const AMSDU_SUBHEAD_LEN := 14
  const LENGTH_802_1_H := 8
  const MT_DMA_HDR_LEN := 4
  const HEADER_BUF_LEN := 128
  const SNAP_802_1H: seq<u8> := [0xaa, 0xaa, 0x03, 0x00, 0x00, 0x00]
  const SNAP_BRIDGE_TUNNEL: seq<u8> := [0xaa, 0xaa, 0x03, 0x00, 0x00, 0xf8]
  const IPX: seq<u8> := [0x81, 0x37]
  const APPLE_TALK: seq<u8> := [0x80, 0xf3]

  /** A queued Ethernet frame: `typeLen` is the type or length field behind any VLAN tag. A frame
      that RTMP_FillTxBlkInfo refuses is not `usable`. */
  datatype Packet = Packet(usable: bool, da: seq<u8>, sa: seq<u8>, typeLen: seq<u8>, data: seq<u8>) {
    predicate WellFormed() { |da| == 6 && |sa| == 6 && |typeLen| == 2 }
  }

  type Frame = p: Packet | p.WellFormed() witness Packet(true, seq(6, _ => 0), seq(6, _ => 0), [0, 0], [])

  datatype Msdu = Msdu(da: seq<u8>, sa: seq<u8>, body: seq<u8>)
  datatype Parsed = Malformed | Msdus(list: seq<Msdu>)

  /** What a receiver is to find: Ethernet II frames carry an LLC/SNAP header and their type. */
  function Encap(p: Frame): (r: seq<u8>)
    ensures |r| == 0 || |r| == LENGTH_802_1_H
  {
    if Word(p.typeLen[0], p.typeLen[1]) > 1500 then
      (if p.typeLen == IPX || p.typeLen == APPLE_TALK then SNAP_BRIDGE_TUNNEL else SNAP_802_1H) + p.typeLen
    else []
  }

  function MsduOf(p: Frame): Msdu { Msdu(p.da, p.sa, Encap(p) + p.data) }

  function MsdusOf(ps: seq<Frame>): (r: seq<Msdu>)
    ensures |r| == |ps| && forall i :: 0 <= i < |ps| ==> r[i] == MsduOf(ps[i])
  {
    seq(|ps|, i requires 0 <= i < |ps| => MsduOf(ps[i]))
  }

  function PadOf(n: nat): (r: nat)
    ensures r < 4 && (n + r) % 4 == 0
  {
    (4 - n % 4) % 4
  }

  /** A receiver: every subframe but the last is followed by padding to a multiple of four. */
  function Parse(s: seq<u8>): Parsed {
    if |s| < 14 then Malformed
    else
      var n := 14 + Word(s[12], s[13]);
      if n > |s| then Malformed
      else
        var m := Msdu(s[..6], s[6..12], s[14..n]);
        if n == |s| then Msdus([m])
        else if n + PadOf(n) > |s| then Malformed
        else Joined(m, Parse(s[n + PadOf(n)..]))
  }

  function Joined(m: Msdu, r: Parsed): Parsed {
    if r.Malformed? then Malformed else Msdus([m] + r.list)
  }

  function BodyLen(p: Frame): nat { |Encap(p)| + |p.data| }

  /** The length field is sixteen bits wide. */
  predicate Fits(p: Frame) { BodyLen(p) < 0x1_0000 }

  function Zeros(n: nat): seq<u8> { seq(n, _ => 0) }

  function Word(hi: u8, lo: u8): (n: nat)
    ensures n < 0x1_0000
  {
    (hi as int) * 256 + lo as int
  }

  function LengthField(n: nat): seq<u8> { [n / 256 % 256, n % 256] }

  /** The subframe header and the encapsulation behind it. */
  function Head(p: Frame): (r: seq<u8>)
    ensures |r| == AMSDU_SUBHEAD_LEN + |Encap(p)|
  {
    p.da + p.sa + LengthField(BodyLen(p)) + Encap(p)
  }

  /** What precedes the data of a later packet p: `left` is what the header buffer holds below the
      place where padding and header are built, and the copy starts at the bottom of the buffer
      but is as long as padding and header are. */
  function Lead(left: seq<u8>, pad: nat, p: Frame): (r: seq<u8>)
    ensures |r| == pad + |Head(p)|
  {
    (left + Zeros(pad) + Head(p))[..pad + |Head(p)|]
  }

  function PadAfter(p: Frame): (r: nat)
    ensures r < 4
  {
    PadOf(AMSDU_SUBHEAD_LEN + BodyLen(p))
  }

  /** The subframes behind one that needs `pad` octets of padding. */
  function Rest(left: seq<u8>, pad: nat, ps: seq<Frame>): (r: seq<u8>)
    ensures ps != [] ==> |r| >= pad
    decreases |ps|
  {
    if ps == [] then []
    else Lead(left, pad, ps[0]) + ps[0].data + Rest(left, PadAfter(ps[0]), ps[1..])
  }

  function Wire(left: seq<u8>, ps: seq<Frame>): seq<u8> {
    if ps == [] then [] else Head(ps[0]) + ps[0].data + Rest(left, PadAfter(ps[0]), ps[1..])
  }

  /** The header of p survives: what is copied in its place is the same. */
  predicate Survives(left: seq<u8>, pad: nat, p: Frame) {
    forall j :: 0 <= j < |Head(p)| ==> Head(p)[j] == Arrives(left, pad, p, j)
  }

  function Arrives(left: seq<u8>, pad: nat, p: Frame, j: nat): u8
    requires j < |Head(p)|
  {
    if pad + j < |left| then left[pad + j] else if j < |left| then 0 else Head(p)[j - |left|]
  }

  predicate AllSurvive(left: seq<u8>, ps: seq<Frame>) {
    && (forall i :: 0 <= i < |ps| ==> Fits(ps[i]))
    && (forall i :: 1 <= i < |ps| ==> Survives(left, PadAfter(ps[i - 1]), ps[i]))
  }

  lemma LeadIs(left: seq<u8>, pad: nat, p: Frame)
    ensures Lead(left, pad, p)[pad..] == Head(p) <==> Survives(left, pad, p)
  {
    var e := Lead(left, pad, p)[pad..];
    forall j | 0 <= j < |Head(p)|
      ensures e[j] == Arrives(left, pad, p, j)
    {
      assert e[j] == (left + Zeros(pad) + Head(p))[pad + j];
    }
    if Survives(left, pad, p) {
      assert e == Head(p);
    }
  }

  lemma LengthRead(n: nat)
    requires n < 0x1_0000
    ensures Word(LengthField(n)[0], LengthField(n)[1]) == n
  {
  }

  lemma LengthOctets(hi: u8, lo: u8, n: nat)
    requires Word(hi, lo) == n
    ensures LengthField(n) == [hi, lo]
  {
  }

  lemma ParseNext(s: seq<u8>, n: nat)
    requires |s| >= 14 && n == 14 + Word(s[12], s[13]) < |s| && n + PadOf(n) <= |s|
    ensures Parse(s) == Joined(Msdu(s[..6], s[6..12], s[14..n]), Parse(s[n + PadOf(n)..]))
  {
    hide PadOf, Word, Joined;
  }

  lemma HeadRead(p: Frame, s: seq<u8>)
    requires Fits(p) && Head(p) + p.data <= s
    ensures 14 + Word(s[12], s[13]) == 14 + BodyLen(p) <= |s|
    ensures Msdu(s[..6], s[6..12], s[14..14 + BodyLen(p)]) == MsduOf(p)
  {
    LengthRead(BodyLen(p));
    hide Encap, Word, LengthField;
    var e, l := Encap(p), LengthField(BodyLen(p));
    var h := Head(p) + p.data;
    assert h == p.da + p.sa + l + (e + p.data);
    assert h[..6] == p.da && h[6..12] == p.sa && h[14..] == e + p.data && h[12] == l[0] && h[13] == l[1];
    assert s[..|h|] == h;
    hide Head;
    assert s[..6] == h[..6] && s[6..12] == h[6..12] && s[14..|h|] == h[14..];
  }

  /** The last subframe, its header intact. */
  lemma ParseLast(p: Frame)
    requires Fits(p)
    ensures Parse(Head(p) + p.data) == Msdus([MsduOf(p)])
  {
    HeadRead(p, Head(p) + p.data);
    hide Encap, Word, Head, PadOf;
  }

  /** A subframe before the last, its header intact. */
  lemma ParseMore(p: Frame, rest: seq<u8>)
    requires Fits(p) && rest != [] && |rest| >= PadAfter(p)
    ensures Parse(Head(p) + p.data + rest) == Joined(MsduOf(p), Parse(rest[PadAfter(p)..]))
  {
    hide Joined, Encap, Word, Head, PadOf, Parse, MsduOf, Fits;
    var s := Head(p) + p.data + rest;
    var n := 14 + BodyLen(p);
    var k := PadOf(n);
    HeadRead(p, s);
    assert s[n..] == rest;
    assert s[n + k..] == s[n..][k..] == rest[k..];
    ParseNext(s, n);
  }

  /** One whose header does not, or whose length field is too small. */
  lemma ParseBad(h: seq<u8>, p: Frame, rest: seq<u8>)
    requires |h| == |Head(p)| && !(h == Head(p) && Fits(p))
    ensures var r := Parse(h + p.data + rest);
            r.Msdus? ==> r.list != [] && r.list[0] != MsduOf(p)
  {
    var s := h + p.data + rest;
    var r := Parse(s);
    if r.Msdus? && r.list[0] == MsduOf(p) {
      var n := 14 + Word(s[12], s[13]);
      assert r.list[0] == Msdu(s[..6], s[6..12], s[14..n]);
      HeadIs(h, p, s, n);
    }
  }

  lemma HeadIs(h: seq<u8>, p: Frame, s: seq<u8>, n: nat)
    requires |h| == |Head(p)| && h <= s && 14 <= n <= |s| && n == 14 + Word(s[12], s[13])
    requires Msdu(s[..6], s[6..12], s[14..n]) == MsduOf(p)
    ensures h == Head(p) && Fits(p)
  {
    hide LengthField, Word, Encap;
    HeadSlices(h, s, n);
    assert |MsduOf(p).body| == BodyLen(p) == n - 14;
    LengthOctets(h[12], h[13], BodyLen(p));
    assert h[14..] == s[14..n][..|Encap(p)|] == Encap(p);
  }

  /** The parts of a header in front of a frame. */
  lemma HeadSlices(h: seq<u8>, s: seq<u8>, n: nat)
    requires 14 <= |h| <= |s| && h <= s && 14 <= n <= |s|
    ensures s[..6] == h[..6] && s[6..12] == h[6..12] && s[12] == h[12] && s[13] == h[13]
    ensures |h| <= n ==> h[14..] == s[14..n][..|h| - 14]
    ensures h == h[..6] + h[6..12] + [h[12], h[13]] + h[14..]
  {
  }

  /** A chain of subframes of which the first was sent with header h. */
  lemma {:induction false} ParseChain(left: seq<u8>, h: seq<u8>, ps: seq<Frame>)
    requires ps != [] && |h| == |Head(ps[0])|
    ensures (Parse(h + ps[0].data + Rest(left, PadAfter(ps[0]), ps[1..])) == Msdus(MsdusOf(ps))) <==>
            (h == Head(ps[0]) && AllSurvive(left, ps))
    decreases |ps|
  {
    hide Encap, Head, Fits, Survives, PadAfter, Parse;
    var p, qs := ps[0], ps[1..];
    var pad := PadAfter(p);
    var rest := Rest(left, pad, qs);
    assert MsdusOf(ps) == [MsduOf(p)] + MsdusOf(qs);
    if !(h == Head(p) && Fits(p)) {
      ParseBad(h, p, rest);
    } else if qs == [] {
      assert h + p.data + rest == h + p.data;
      ParseLast(p);
    } else {
      ParseMore(p, rest);
      var next := Lead(left, pad, qs[0])[pad..];
      assert rest[pad..] == next + qs[0].data + Rest(left, PadAfter(qs[0]), qs[1..]);
      ParseChain(left, next, qs);
      LeadIs(left, pad, qs[0]);
      SurviveSplit(left, ps);
      var r := Parse(rest[pad..]);
      if r.Msdus? && [MsduOf(p)] + r.list == [MsduOf(p)] + MsdusOf(qs) {
        assert r.list == ([MsduOf(p)] + r.list)[1..] == MsdusOf(qs);
      }
    }
  }

  lemma SurviveSplit(left: seq<u8>, ps: seq<Frame>)
    requires |ps| >= 2
    ensures AllSurvive(left, ps) <==> Fits(ps[0]) && Survives(left, PadAfter(ps[0]), ps[1]) && AllSurvive(left, ps[1..])
  {
    var qs := ps[1..];
    if Fits(ps[0]) && Survives(left, PadAfter(ps[0]), ps[1]) && AllSurvive(left, qs) {
      forall i | 0 <= i < |ps| ensures Fits(ps[i]) { assert i > 0 ==> Fits(qs[i - 1]); }
      forall i | 1 <= i < |ps| ensures Survives(left, PadAfter(ps[i - 1]), ps[i]) {
        assert i > 1 ==> Survives(left, PadAfter(qs[i - 2]), qs[i - 1]);
      }
    }
    if AllSurvive(left, ps) {
      forall i | 0 <= i < |qs| ensures Fits(qs[i]) { assert Fits(ps[i + 1]); }
      forall i | 1 <= i < |qs| ensures Survives(left, PadAfter(qs[i - 1]), qs[i]) {
        assert Survives(left, PadAfter(ps[i]), ps[i + 1]);
      }
    }
  }

  /** The round trip, with its exact condition. */
  lemma RoundTrip(left: seq<u8>, ps: seq<Frame>)
    requires ps != []
    ensures Parse(Wire(left, ps)) == Msdus(MsdusOf(ps)) <==> AllSurvive(left, ps)
  {
    ParseChain(left, Head(ps[0]), ps);
  }

  /** Built at the bottom of the buffer (as sta/rtmp_data.c does), every frame that fits comes
      through. */
  lemma RoundTripAtBottom(ps: seq<Frame>)
    requires ps != []
    ensures Parse(Wire([], ps)) == Msdus(MsdusOf(ps)) <==> forall i :: 0 <= i < |ps| ==> Fits(ps[i])
  {
    RoundTrip([], ps);
  }

  /** The DMA descriptor that the first packet leaves in the bottom of the buffer. */
  ghost predicate IsTxInfo(left: seq<u8>) {
    |left| == MT_DMA_HDR_LEN && left[2] == 8 && left[3] == 4
  }

  lemma EncapsulatedIsLost(left: seq<u8>, pad: nat, p: Frame)
    requires IsTxInfo(left) && pad < 4 && Encap(p) != []
    ensures !Survives(left, pad, p)
  {
    var h := Head(p);
    assert h[14] == 0xaa;
    assert h[14] != Arrives(left, pad, p, 14) || h[10] != Arrives(left, pad, p, 10)
        || h[6] != Arrives(left, pad, p, 6) || h[2] != Arrives(left, pad, p, 2);
  }

  /** Four octets repeated over a subframe header: what the descriptor leaves above `pad` octets
      of padding, followed by that padding. */
  function Cycle(left: seq<u8>, pad: nat): (r: seq<u8>)
    requires |left| == MT_DMA_HDR_LEN && pad < 4
    ensures |r| == AMSDU_SUBHEAD_LEN
  {
    var c := left[pad..] + Zeros(pad);
    c + c + c + c[..2]
  }

  /** The packet is an 802.3 frame whose addresses and length are just those four octets. */
  predicate Spells(left: seq<u8>, pad: nat, p: Frame)
    requires |left| == MT_DMA_HDR_LEN && pad < 4
  {
    Encap(p) == [] && p.da + p.sa + LengthField(|p.data|) == Cycle(left, pad)
  }

  /** The headers that survive the descriptor, in closed form: one for each padding, and none with
      LLC/SNAP. */
  lemma SurvivorsAre(left: seq<u8>, pad: nat, p: Frame)
    requires IsTxInfo(left) && pad < 4
    ensures Survives(left, pad, p) <==> Spells(left, pad, p)
  {
    if Encap(p) != [] {
      EncapsulatedIsLost(left, pad, p);
    } else {
      var h := Head(p);
      assert h == p.da + p.sa + LengthField(|p.data|);
      CycleIs(left, pad, h);
      assert forall j :: 0 <= j < 14 ==> Arrives(left, pad, p, j) == Spelled(left, pad, h, j);
    }
  }

  /** Octet j of a header that is its own shift by four. */
  function Spelled(left: seq<u8>, pad: nat, h: seq<u8>, j: nat): u8
    requires |left| == MT_DMA_HDR_LEN && j < |h|
  {
    if j >= 4 then h[j - 4] else if pad + j < 4 then left[pad + j] else 0
  }

  lemma CycleIs(left: seq<u8>, pad: nat, h: seq<u8>)
    requires |left| == MT_DMA_HDR_LEN && pad < 4 && |h| == AMSDU_SUBHEAD_LEN
    ensures (forall j :: 0 <= j < 14 ==> h[j] == Spelled(left, pad, h, j)) <==> h == Cycle(left, pad)
  {
    var c := Cycle(left, pad);
    CycleAt(left, pad);
    if forall j :: 0 <= j < 14 ==> h[j] == Spelled(left, pad, h, j) {
      hide Cycle;
      assert forall j :: 0 <= j < 4 ==> h[j] == Spelled(left, pad, h, j) == c[j];
      assert forall j :: 4 <= j < 8 ==> h[j] == Spelled(left, pad, h, j) == c[j];
      assert forall j :: 8 <= j < 12 ==> h[j] == Spelled(left, pad, h, j) == c[j];
      assert forall j :: 12 <= j < 14 ==> h[j] == Spelled(left, pad, h, j) == c[j];
    }
  }

  lemma CycleAt(left: seq<u8>, pad: nat)
    requires |left| == MT_DMA_HDR_LEN && pad < 4
    ensures forall j :: 0 <= j < 14 ==> Cycle(left, pad)[j] == Spelled(left, pad, Cycle(left, pad), j)
  {
  }

  /** The round trip in access point mode, for any mix of packets: every packet fits, and every
      one after the first is an 802.3 frame with just the addresses and the length that the
      descriptor and the padding spell out. */
  lemma AccessPointRoundTrip(left: seq<u8>, ps: seq<Frame>)
    requires ps != [] && |left| == MT_DMA_HDR_LEN && IsTxInfo(left)
    ensures Parse(Wire(left, ps)) == Msdus(MsdusOf(ps)) <==>
            (forall i :: 0 <= i < |ps| ==> Fits(ps[i])) &&
            (forall i :: 1 <= i < |ps| ==> Spells(left, PadAfter(ps[i - 1]), ps[i]))
  {
    hide Parse, Wire, MsdusOf, Survives, Fits, Encap, Head, Cycle, PadAfter, IsTxInfo;
    RoundTrip(left, ps);
    forall i | 1 <= i < |ps|
      ensures Survives(left, PadAfter(ps[i - 1]), ps[i]) <==> Spells(left, PadAfter(ps[i - 1]), ps[i])
    {
      SurvivorsAre(left, PadAfter(ps[i - 1]), ps[i]);
    }
  }

  /** In access point mode the A-MSDU of Ethernet II packets is right only if one packet is left. */
  lemma OnlySingletonsSurvive(left: seq<u8>, ps: seq<Frame>)
    requires ps != [] && IsTxInfo(left) && forall i :: 0 <= i < |ps| ==> Fits(ps[i]) && Encap(ps[i]) != []
    ensures Parse(Wire(left, ps)) == Msdus(MsdusOf(ps)) <==> |ps| == 1
  {
    RoundTrip(left, ps);
    if |ps| > 1 {
      EncapsulatedIsLost(left, PadAfter(ps[0]), ps[1]);
      assert !Survives(left, PadAfter(ps[1 - 1]), ps[1]);
    }
  }

  /** Where subframe k starts, counted from the first. */
  function StartOf(ps: seq<Frame>, k: nat): nat
    requires k < |ps|
  {
    if k == 0 then 0
    else AMSDU_SUBHEAD_LEN + BodyLen(ps[0]) + PadAfter(ps[0]) + StartOf(ps[1..], k - 1)
  }

  /** What is on the pipe from subframe k on: its header as sent, its data, and the rest. */
  function From(left: seq<u8>, h: seq<u8>, ps: seq<Frame>, k: nat): seq<u8>
    requires k < |ps|
  {
    var qs := ps[k..];
    (if k == 0 then h else Lead(left, PadAfter(ps[k - 1]), ps[k])[PadAfter(ps[k - 1])..])
      + qs[0].data + Rest(left, PadAfter(qs[0]), qs[1..])
  }

  /** It starts where the subframes before it end, rounded up to four. */
  lemma {:induction false} FromIs(left: seq<u8>, h: seq<u8>, ps: seq<Frame>, k: nat)
    requires k < |ps| && |h| == |Head(ps[0])|
    ensures var w := From(left, h, ps, 0);
            StartOf(ps, k) <= |w| && w[StartOf(ps, k)..] == From(left, h, ps, k)
    decreases k
  {
    hide From, Encap, Head, PadOf, PadAfter, Lead, Rest;
    if k == 0 {
    } else {
      var p, qs, pad := ps[0], ps[1..], PadAfter(ps[0]);
      var next := Lead(left, pad, qs[0])[pad..];
      FromStart(left, h, ps, next);
      FromIs(left, next, qs, k - 1);
      FromTail(left, h, next, ps, k);
      SkipOne(h + p.data, Rest(left, pad, qs), pad, StartOf(qs, k - 1));
    }
  }

  /** The first subframe and its padding lie in front of the second one. */
  lemma FromStart(left: seq<u8>, h: seq<u8>, ps: seq<Frame>, next: seq<u8>)
    requires |ps| > 1 && next == Lead(left, PadAfter(ps[0]), ps[1])[PadAfter(ps[0])..]
    ensures From(left, h, ps, 0) == h + ps[0].data + Rest(left, PadAfter(ps[0]), ps[1..])
    ensures PadAfter(ps[0]) <= |Rest(left, PadAfter(ps[0]), ps[1..])|
    ensures Rest(left, PadAfter(ps[0]), ps[1..])[PadAfter(ps[0])..] == From(left, next, ps[1..], 0)
  {
    hide Lead, Rest, PadAfter;
    var qs := ps[1..];
    assert ps[0..] == ps && qs[0..] == qs;
    RestStarts(left, PadAfter(ps[0]), qs);
  }

  /** What begins with a later subframe does not depend on the first one. */
  lemma FromTail(left: seq<u8>, h: seq<u8>, next: seq<u8>, ps: seq<Frame>, k: nat)
    requires 0 < k < |ps| && next == Lead(left, PadAfter(ps[0]), ps[1])[PadAfter(ps[0])..]
    ensures From(left, next, ps[1..], k - 1) == From(left, h, ps, k)
  {
    hide Lead, Rest, PadAfter;
    var qs := ps[1..];
    assert ps[k..] == qs[k - 1..];
  }

  lemma RestStarts(left: seq<u8>, pad: nat, ps: seq<Frame>)
    requires ps != []
    ensures pad <= |Rest(left, pad, ps)|
    ensures Rest(left, pad, ps)[pad..] == Lead(left, pad, ps[0])[pad..] + ps[0].data
              + Rest(left, PadAfter(ps[0]), ps[1..])
  {
    hide Lead;
    SkipInto(Lead(left, pad, ps[0]), ps[0].data, Rest(left, PadAfter(ps[0]), ps[1..]), pad);
  }

  lemma SkipInto<T>(a: seq<T>, b: seq<T>, c: seq<T>, n: nat)
    requires n <= |a|
    ensures (a + b + c)[n..] == a[n..] + b + c
  {
  }

  lemma SkipOne<T>(a: seq<T>, rest: seq<T>, pad: nat, n: nat)
    requires pad + n <= |rest|
    ensures |a| + pad + n <= |a + rest| && (a + rest)[|a| + pad + n..] == rest[pad..][n..]
  {
  }

  /** Every subframe starts at a multiple of four; one whose header survives is what it should be. */
  lemma Aligned(left: seq<u8>, ps: seq<Frame>, k: nat)
    requires k < |ps|
    ensures StartOf(ps, k) % 4 == 0
    ensures StartOf(ps, k) + |Head(ps[k])| + |ps[k].data| <= |Wire(left, ps)|
    ensures k == 0 || Survives(left, PadAfter(ps[k - 1]), ps[k]) ==>
              Wire(left, ps)[StartOf(ps, k)..][..AMSDU_SUBHEAD_LEN + BodyLen(ps[k])] == Head(ps[k]) + ps[k].data
  {
    hide Encap, Head, Survives, PadOf, StartOf, Lead, Rest;
    var h := Head(ps[0]);
    StartAligned(ps, k);
    FromIs(left, h, ps, k);
    assert ps[0..] == ps;
    assert From(left, h, ps, 0) == Wire(left, ps);
    if k > 0 {
      LeadIs(left, PadAfter(ps[k - 1]), ps[k]);
    }
    Beginning(if k == 0 then h else Lead(left, PadAfter(ps[k - 1]), ps[k])[PadAfter(ps[k - 1])..], ps[k].data,
              Rest(left, PadAfter(ps[k]), ps[k..][1..]));
  }

  lemma Beginning<T>(a: seq<T>, b: seq<T>, c: seq<T>)
    ensures (a + b + c)[..|a| + |b|] == a + b
  {
  }

  lemma {:induction false} StartAligned(ps: seq<Frame>, k: nat)
    requires k < |ps|
    ensures StartOf(ps, k) % 4 == 0
    decreases k
  {
    if k > 0 {
      hide Encap, PadOf;
      StartAligned(ps[1..], k - 1);
      SumAligned(AMSDU_SUBHEAD_LEN + BodyLen(ps[0]) + PadAfter(ps[0]), StartOf(ps[1..], k - 1));
    }
  }

  lemma SumAligned(a: nat, b: nat)
    requires a % 4 == 0 && b % 4 == 0
    ensures (a + b) % 4 == 0
  {
  }

  /** The garbling on the smallest case: two empty IPv4 packets. */
  lemma TwoPacketsGarbled(p: Frame)
    requires p.typeLen == [0x08, 0x00] && p.data == []
    ensures Parse(Wire([62, 0, 8, 4], [p, p])) != Msdus(MsdusOf([p, p]))
  {
    OnlySingletonsSurvive([62, 0, 8, 4], [p, p]);
  }

  function Usable(ps: seq<Frame>): seq<Frame> {
    if ps == [] then []
    else
      var n := |ps| - 1;
      Usable(ps[..n]) + if ps[n].usable then [ps[n]] else []
  }

  /** Exactly the usable packets, as often as they come. */
  lemma {:induction false} UsableAre(ps: seq<Frame>, p: Frame)
    ensures multiset(Usable(ps))[p] == if p.usable then multiset(ps)[p] else 0
  {
    if ps != [] {
      var n := |ps| - 1;
      UsableAre(ps[..n], p);
      OneMoreOf(ps[..n], ps[n], p);
      OneMoreOf(Usable(ps[..n]), ps[n], p);
      assert ps == ps[..n] + [ps[n]];
      assert Usable(ps[..n]) + [] == Usable(ps[..n]);
    }
  }

  lemma OneMoreOf<T>(s: seq<T>, x: T, p: T)
    ensures multiset(s + [x])[p] == multiset(s)[p] + if x == p then 1 else 0
  {
  }

  lemma NoneUsable()
    ensures Usable([]) == []
  {
  }

  lemma UsableNext(ps: seq<Frame>, i: nat)
    requires i < |ps|
    ensures Usable(ps[..i + 1]) == if ps[i].usable then Usable(ps[..i]) + [ps[i]] else Usable(ps[..i])
  {
    assert ps[..i + 1][..i] == ps[..i];
    assert Usable(ps[..i]) + [] == Usable(ps[..i]);
  }

  lemma Regroup<T>(a: seq<T>, b: seq<T>, c: seq<T>, d: seq<T>)
    ensures a + (b + c + d) == (a + b) + c + d
  {
  }

  lemma {:induction false} RestSnoc(left: seq<u8>, pad: nat, ps: seq<Frame>, p: Frame)
    ensures Rest(left, pad, ps + [p]) ==
            Rest(left, pad, ps) + Lead(left, if ps == [] then pad else PadAfter(ps[|ps| - 1]), p) + p.data
    decreases |ps|
  {
    hide Lead, PadAfter;
    if ps == [] {
      assert ([] + [p])[1..] == [];
    } else {
      var next, last := PadAfter(ps[0]), PadAfter(ps[|ps| - 1]);
      assert (ps + [p])[0] == ps[0] && (ps + [p])[1..] == ps[1..] + [p];
      RestSnoc(left, next, ps[1..], p);
      Regroup(Lead(left, pad, ps[0]) + ps[0].data, Rest(left, next, ps[1..]), Lead(left, last, p), p.data);
    }
  }

  lemma WireSnoc(left: seq<u8>, ps: seq<Frame>, p: Frame)
    requires ps != []
    ensures Wire(left, ps + [p]) == Wire(left, ps) + Lead(left, PadAfter(ps[|ps| - 1]), p) + p.data
  {
    hide Lead, PadAfter, Head, Rest;
    var qs := ps + [p];
    assert qs[0] == ps[0] && qs[1..] == ps[1..] + [p];
    RestSnoc(left, PadAfter(ps[0]), ps[1..], p);
    var a, r := Head(ps[0]) + ps[0].data, Rest(left, PadAfter(ps[0]), ps[1..]);
    Regroup(a, r, Lead(left, PadAfter(ps[|ps| - 1]), p), p.data);
  }

  /** The descriptor of the first packet. */
  function InfoOf(front: seq<u8>, p: Frame): (r: seq<u8>)
    requires MT_DMA_HDR_LEN + |front| + AMSDU_SUBHEAD_LEN + LENGTH_802_1_H <= HEADER_BUF_LEN
    ensures IsTxInfo(r) && |r| == MT_DMA_HDR_LEN
  {
    TxInfo(MT_DMA_HDR_LEN + |front| + |Head(p)|)
  }

  /** The pipe when the packets `sent` are through. */
  function Pipe(base: seq<u8>, off: nat, front: seq<u8>, sent: seq<Frame>, canWrite: bool): seq<u8>
    requires sent != [] && off <= MT_DMA_HDR_LEN
    requires MT_DMA_HDR_LEN + |front| + AMSDU_SUBHEAD_LEN + LENGTH_802_1_H <= HEADER_BUF_LEN
  {
    var info := InfoOf(front, sent[0]);
    if canWrite then base + info + front + Wire(info[..off], sent) else base
  }

  /** The pipe after one more packet. */
  lemma PipeOn(base: seq<u8>, off: nat, front: seq<u8>, sent: seq<Frame>, canWrite: bool, p: Frame)
    requires sent != [] && off <= MT_DMA_HDR_LEN
    requires MT_DMA_HDR_LEN + |front| + AMSDU_SUBHEAD_LEN + LENGTH_802_1_H <= HEADER_BUF_LEN
    ensures Pipe(base, off, front, sent + [p], canWrite) ==
              if !canWrite then Pipe(base, off, front, sent, canWrite)
              else Pipe(base, off, front, sent, canWrite)
                   + Lead(InfoOf(front, sent[0])[..off], PadAfter(sent[|sent| - 1]), p) + p.data
  {
    hide Wire, Lead, PadAfter, TxInfo, InfoOf;
    var left := InfoOf(front, sent[0])[..off];
    WireSnoc(left, sent, p);
    Regroup(base + InfoOf(front, sent[0]) + front, Wire(left, sent), Lead(left, PadAfter(sent[|sent| - 1]), p), p.data);
  }

  /** With `left` at the bottom of the header buffer, the packets `sent` are through. */
  ghost predicate Through(left: seq<u8>, writing: bool, bulk: seq<u8>, sent: seq<Frame>, canWrite: bool, front: seq<u8>,
                          mpdu: nat, total: nat, bodyLen: nat, base: seq<u8>)
  {
    && |left| <= MT_DMA_HDR_LEN && sent != []
    && MT_DMA_HDR_LEN + |front| + AMSDU_SUBHEAD_LEN + LENGTH_802_1_H <= HEADER_BUF_LEN
    && writing == canWrite
    && bodyLen == Low16(BodyLen(sent[|sent| - 1]))
    && total == Low16(mpdu + |Wire(Zeros(|left|), sent)|)
    && (canWrite ==> left == InfoOf(front, sent[0])[..|left|])
    && bulk == Pipe(base, |left|, front, sent, canWrite)
  }

  lemma WritingIs(left: seq<u8>, writing: bool, bulk: seq<u8>, sent: seq<Frame>, canWrite: bool, front: seq<u8>,
                  mpdu: nat, total: nat, bodyLen: nat, base: seq<u8>)
    requires Through(left, writing, bulk, sent, canWrite, front, mpdu, total, bodyLen, base)
    ensures writing == canWrite
  {
  }

  /** One more packet. */
  lemma Onward(left: seq<u8>, bulk: seq<u8>, sent: seq<Frame>, canWrite: bool, front: seq<u8>,
               mpdu: nat, total: nat, prev: nat, base: seq<u8>, p: Frame, pad: nat)
    requires Through(left, canWrite, bulk, sent, canWrite, front, mpdu, total, prev, base)
    requires pad == RoundUp4(AMSDU_SUBHEAD_LEN + prev) - (AMSDU_SUBHEAD_LEN + prev)
    ensures Through(left, canWrite, if canWrite then bulk + Lead(left, pad, p) + p.data else bulk, sent + [p], canWrite,
                    front, mpdu, Low16(total + (pad + |Head(p)|) + |p.data|), Low16(BodyLen(p)), base)
  {
    hide Encap, Low16, Head, Wire, RoundUp4, PadOf, Lead, BodyLen, Zeros, Pipe, InfoOf;
    PaddingIs(BodyLen(sent[|sent| - 1]));
    PipeOn(base, |left|, front, sent, canWrite, p);
    TotalOn(mpdu, |left|, sent, p, total);
    assert (sent + [p])[0] == sent[0] && (sent + [p])[|sent|] == p;
  }

  /** The total after one more packet. */
  lemma TotalOn(mpdu: nat, off: nat, sent: seq<Frame>, p: Frame, total: nat)
    requires sent != [] && total == Low16(mpdu + |Wire(Zeros(off), sent)|)
    ensures Low16(total + (PadAfter(sent[|sent| - 1]) + |Head(p)|) + |p.data|) ==
              Low16(mpdu + |Wire(Zeros(off), sent + [p])|)
  {
    hide Wire, Head, PadAfter, Zeros, Low16;
    var n := |Wire(Zeros(off), sent)|;
    WireSnoc(Zeros(off), sent, p);
    SumMod(mpdu + n, PadAfter(sent[|sent| - 1]) + |Head(p)| + |p.data|);
  }

  lemma WireOne(left: seq<u8>, p: Frame)
    ensures Wire(left, [p]) == Head(p) + p.data
  {
  }

  function RoundUp4(n: nat): nat { (n + 3) / 4 * 4 }

  /** An unsigned short. */
  function Low16(n: nat): (r: nat)
    ensures r < 0x1_0000
  {
    n % 0x1_0000
  }

  lemma PaddingIs(n: nat)
    ensures RoundUp4(AMSDU_SUBHEAD_LEN + Low16(n)) - (AMSDU_SUBHEAD_LEN + Low16(n)) == PadOf(AMSDU_SUBHEAD_LEN + n)
  {
    hide RoundUp4, PadOf, Low16;
    RoundUpPads(AMSDU_SUBHEAD_LEN + Low16(n));
    PadOfLow(n);
  }

  lemma RoundUpPads(m: nat)
    ensures RoundUp4(m) - m == PadOf(m)
  {
  }

  lemma PadOfLow(n: nat)
    ensures PadOf(AMSDU_SUBHEAD_LEN + Low16(n)) == PadOf(AMSDU_SUBHEAD_LEN + n)
  {
    ModFour(AMSDU_SUBHEAD_LEN + Low16(n), 0x4000 * (n / 0x1_0000));
  }

  lemma ModFour(r: nat, q: nat)
    ensures (r + 4 * q) % 4 == r % 4
  {
  }

  lemma SumMod(a: nat, b: nat)
    ensures Low16(Low16(a) + b) == Low16(a + b)
  {
  }

  lemma HeadAt(p: Frame)
    ensures forall j :: 0 <= j < 12 ==> Head(p)[j] == (p.da + p.sa)[j]
    ensures Head(p)[12] == LengthField(BodyLen(p))[0] && Head(p)[13] == LengthField(BodyLen(p))[1]
    ensures forall k :: 14 <= k < |Head(p)| ==> Head(p)[k] == Encap(p)[k - 14]
  {
    hide Encap, LengthField;
  }

  lemma LengthIs(n: nat)
    ensures [Low16(n) / 256, Low16(n) % 256] == LengthField(n)
  {
    var h, l := n / 256, n % 256;
    DivIs(n, 0x1_0000, h / 256, 256 * (h % 256) + l);
    DivIs(256 * (h % 256) + l, 256, h % 256, l);
  }

  function TxInfo(len: nat): (r: seq<u8>)
    requires len < 0x1_0000
    ensures IsTxInfo(r) && r[0] as nat + 256 * (r[1] as nat) == len
  {
    LengthField(len)[1..] + LengthField(len)[..1] + [8, 4]
  }

  method Put(b: array<u8>, at: nat, s: seq<u8>)
    requires at + |s| <= b.Length
    modifies b
    ensures forall i :: 0 <= i < b.Length ==> b[i] == if at <= i < at + |s| then s[i - at] else old(b[i])
  {
    forall i | 0 <= i < |s| {
      b[at + i] := s[i];
    }
  }

  class TxBlock {
    const headerBuf: array<u8>
    var headerLen: nat
    var bulk: seq<u8>
    var writing: bool

    constructor ()
      ensures fresh(headerBuf) && headerBuf.Length == HEADER_BUF_LEN && bulk == [] && !writing
    {
      headerBuf := new u8[HEADER_BUF_LEN](_ => 0);
      headerLen, bulk, writing := 0, [], false;
    }

    /** The subframe header at offset `at`, with the encapsulation if the packet needs one. */
    method BuildSubframe(at: nat, p: Frame) returns (bodyLen: nat)
      requires headerBuf.Length == HEADER_BUF_LEN && at + AMSDU_SUBHEAD_LEN + LENGTH_802_1_H <= HEADER_BUF_LEN
      modifies headerBuf, `headerLen
      ensures forall i :: 0 <= i < HEADER_BUF_LEN ==>
                headerBuf[i] == if at <= i < at + |Head(p)| then Head(p)[i - at] else old(headerBuf[i])
      ensures headerLen == old(headerLen) + |Head(p)| && bodyLen == Low16(BodyLen(p))
    {
      ghost var h, e := Head(p), Encap(p);
      HeadAt(p);
      LengthIs(BodyLen(p));
      SumMod(|p.data|, LENGTH_802_1_H);
      hide Head, LengthField, RoundUp4, PadOf;
      bodyLen := Low16(|p.data|);
      Put(headerBuf, at, p.da + p.sa);
      headerLen := headerLen + AMSDU_SUBHEAD_LEN;
      if Word(p.typeLen[0], p.typeLen[1]) > 1500 {
        var snap := if p.typeLen == IPX || p.typeLen == APPLE_TALK then SNAP_BRIDGE_TUNNEL else SNAP_802_1H;
        Put(headerBuf, at + 14, snap);
        Put(headerBuf, at + 20, p.typeLen);
        headerLen := headerLen + LENGTH_802_1_H;
        bodyLen := Low16(bodyLen + LENGTH_802_1_H);
        assert e == snap + p.typeLen;
      }
      assert bodyLen == Low16(BodyLen(p));
      assert forall i :: at + 14 <= i < at + 14 + |e| ==> headerBuf[i] == e[i - at - 14];
      hide Encap;
      Put(headerBuf, at + 12, [bodyLen / 256, bodyLen % 256]);
    }

    /** RtmpUSB_WriteMultiTxResource */
    method WriteMulti(first: bool, canWrite: bool, priv: nat, data: seq<u8>)
      requires headerBuf.Length == HEADER_BUF_LEN && headerLen <= HEADER_BUF_LEN
      requires first ==> MT_DMA_HDR_LEN <= priv <= HEADER_BUF_LEN
      requires first ==> !writing
      modifies this`bulk, this`writing, headerBuf
      ensures writing == if first then canWrite else old(writing)
      ensures first && canWrite ==>
                && headerBuf[..MT_DMA_HDR_LEN] == TxInfo(priv)
                && bulk == old(bulk) + TxInfo(priv) + old(headerBuf[MT_DMA_HDR_LEN..priv]) + data
      ensures !first ==> headerBuf[..] == old(headerBuf[..])
      ensures !first && writing ==> bulk == old(bulk) + headerBuf[..headerLen] + data
      ensures !writing ==> bulk == old(bulk)
    {
      if first {
        if canWrite {
          writing := true;
          Put(headerBuf, 0, TxInfo(priv));
          assert headerBuf[..priv] == TxInfo(priv) + old(headerBuf[MT_DMA_HDR_LEN..priv]);
          bulk := bulk + headerBuf[..priv];
        }
      } else if writing {
        bulk := bulk + headerBuf[..headerLen];
      }
      if writing {
        bulk := bulk + data;
      }
    }

    /** The packets `sent` of the batch are through; `base` was on the pipe before it. */
    ghost predicate Underway(off: nat, sent: seq<Frame>, canWrite: bool, front: seq<u8>, mpdu: nat,
                             total: nat, bodyLen: nat, base: seq<u8>)
      reads this, headerBuf
    {
      && headerBuf.Length == HEADER_BUF_LEN && off <= MT_DMA_HDR_LEN
      && Through(headerBuf[..off], writing, bulk, sent, canWrite, front, mpdu, total, bodyLen, base)
    }

    lemma Outcome(off: nat, sent: seq<Frame>, canWrite: bool, front: seq<u8>, mpdu: nat,
                  total: nat, bodyLen: nat, base: seq<u8>)
      requires Underway(off, sent, canWrite, front, mpdu, total, bodyLen, base)
      ensures off <= MT_DMA_HDR_LEN && sent != []
      ensures total == Low16(mpdu + |Wire(Zeros(off), sent)|)
      ensures MT_DMA_HDR_LEN + |front| + |Head(sent[0])| < 0x1_0000
      ensures var info := TxInfo(MT_DMA_HDR_LEN + |front| + |Head(sent[0])|);
              bulk == if canWrite then base + info + front + Wire(info[..off], sent) else base
    {
      hide Wire, Encap, TxInfo;
    }

    /** What the first packet of a batch goes through. */
    method First(off: nat, p: Frame, canWrite: bool, front: seq<u8>, mpdu: nat) returns (total: nat, bodyLen: nat)
      requires headerBuf.Length == HEADER_BUF_LEN && !writing && mpdu <= |front| && off <= MT_DMA_HDR_LEN
      requires MT_DMA_HDR_LEN + |front| + AMSDU_SUBHEAD_LEN + LENGTH_802_1_H <= HEADER_BUF_LEN
      modifies this, headerBuf
      ensures Underway(off, [p], canWrite, front, mpdu, total, bodyLen, old(bulk))
    {
      hide Encap, TxInfo, Low16, Head, Wire, Lead, PadOf, RoundUp4;
      Put(headerBuf, MT_DMA_HDR_LEN, front);
      var at := MT_DMA_HDR_LEN + |front|;
      headerLen := mpdu;
      bodyLen := BuildSubframe(at, p);
      total := Low16(headerLen + |p.data|);
      assert headerBuf[MT_DMA_HDR_LEN..at + |Head(p)|] == front + Head(p);
      WriteMulti(true, canWrite, at + headerLen - mpdu, p.data);
      assert headerBuf[..off] == headerBuf[..MT_DMA_HDR_LEN][..off];
      ghost var info := TxInfo(MT_DMA_HDR_LEN + |front| + |Head(p)|);
      WireOne(info[..off], p);
      WireOne(Zeros(off), p);
      assert canWrite ==> bulk == old(bulk) + info + front + (Head(p) + p.data);
    }

    /** What every later packet of the batch goes through. */
    method Later(off: nat, p: Frame, prev: nat) returns (bodyLen: nat, ghost pad: nat)
      requires headerBuf.Length == HEADER_BUF_LEN && off <= MT_DMA_HDR_LEN
      modifies this, headerBuf
      ensures pad == RoundUp4(AMSDU_SUBHEAD_LEN + prev) - (AMSDU_SUBHEAD_LEN + prev)
      ensures bodyLen == Low16(BodyLen(p)) && headerLen == pad + |Head(p)| && writing == old(writing)
      ensures headerBuf[..off] == old(headerBuf[..off])
      ensures bulk == if writing then old(bulk) + Lead(old(headerBuf[..off]), pad, p) + p.data else old(bulk)
    {
      hide Head, Encap, BodyLen, Low16;
      var padding := RoundUp4(AMSDU_SUBHEAD_LEN + prev) - (AMSDU_SUBHEAD_LEN + prev);
      pad := padding;
      Put(headerBuf, off, Zeros(padding + AMSDU_SUBHEAD_LEN));
      headerLen := padding;
      bodyLen := BuildSubframe(off + padding, p);
      ghost var n := off + padding + |Head(p)|;
      assert headerBuf[..n] == old(headerBuf[..off]) + Zeros(padding) + Head(p);
      assert headerBuf[..headerLen] == headerBuf[..n][..headerLen];
      WriteMulti(false, false, 0, p.data);
    }

    method Next(off: nat, p: Frame, total: nat, prev: nat, ghost sent: seq<Frame>, ghost canWrite: bool,
                ghost front: seq<u8>, ghost mpdu: nat, ghost base: seq<u8>) returns (total': nat, bodyLen: nat)
      requires Underway(off, sent, canWrite, front, mpdu, total, prev, base)
      modifies this, headerBuf
      ensures Underway(off, sent + [p], canWrite, front, mpdu, total', bodyLen, base)
    {
      hide Encap, Low16, Head, Wire, RoundUp4, Lead, BodyLen, Through;
      ghost var left, was, pad := headerBuf[..off], bulk, 0;
      WritingIs(left, writing, was, sent, canWrite, front, mpdu, total, prev, base);
      bodyLen, pad := Later(off, p, prev);
      total' := Low16(total + headerLen + |p.data|);
      Onward(left, was, sent, canWrite, front, mpdu, total, prev, base, p, pad);
    }

    /** AP_AMSDU_Frame_Tx (off == MT_DMA_HDR_LEN) and STA_AMSDU_Frame_Tx (off == 0): `front` is the
        TXWI and the 802.11 header with its alignment, of which `mpdu` octets count. */
    method FrameTx(off: nat, ps: seq<Frame>, canWrite: bool, front: seq<u8>, mpdu: nat) returns (total: nat)
      requires headerBuf.Length == HEADER_BUF_LEN && off <= MT_DMA_HDR_LEN && !writing && mpdu <= |front|
      requires MT_DMA_HDR_LEN + |front| + AMSDU_SUBHEAD_LEN + LENGTH_802_1_H <= HEADER_BUF_LEN
      modifies this, headerBuf
      ensures !writing
      ensures Usable(ps) == [] || !canWrite ==> bulk == old(bulk)
      ensures Usable(ps) == [] ==> total == 0
      ensures Usable(ps) != [] && canWrite ==>
                var info := TxInfo(MT_DMA_HDR_LEN + |front| + |Head(Usable(ps)[0])|);
                bulk == old(bulk) + info + front + Wire(info[..off], Usable(ps))
      ensures Usable(ps) != [] ==> total == Low16(mpdu + |Wire(Zeros(off), Usable(ps))|)
    {
      hide Wire, Head, Encap, TxInfo, Lead, Low16, BodyLen, Zeros, Underway, Usable;
      NoneUsable();
      total := 0;
      var frameNum, bodyLen, i := 0, 0, 0;
      ghost var base := bulk;
      while i < |ps|
        invariant 0 <= i <= |ps| && frameNum == |Usable(ps[..i])|
        invariant frameNum == 0 ==> bulk == base && total == 0 && !writing
        invariant frameNum > 0 ==> Underway(off, Usable(ps[..i]), canWrite, front, mpdu, total, bodyLen, base)
      {
        var p := ps[i];
        ghost var sent := Usable(ps[..i]);
        UsableNext(ps, i);
        i := i + 1;
        if !p.usable {
          continue;
        }
        if frameNum == 0 {
          assert sent + [p] == [p];
          total, bodyLen := First(off, p, canWrite, front, mpdu);
        } else {
          total, bodyLen := Next(off, p, total, bodyLen, sent, canWrite, front, mpdu, base);
        }
        frameNum := frameNum + 1;
      }
      assert ps[..|ps|] == ps;
      if frameNum > 0 {
        Outcome(off, Usable(ps), canWrite, front, mpdu, total, bodyLen, base);
      }
      writing := false;
    }
  }
}
