/** MSDU fragmentation in ap/ap_data.c: the loop of AP_Fragment_Frame_Tx and the estimate that
    APSendPacket makes of its outcome. */
module Fragment {
  import opened Basics

  const LENGTH_802_11 := 24
  const LENGTH_802_3 := 14
  const LENGTH_802_1_H := 8
  const LENGTH_CRC := 4

  /** One MPDU handed to the hardware: header length, payload, More Fragments bit, and the
      4-bit fragment number of the 802.11 header. */
  datatype Mpdu<T> = Mpdu(headerLen: nat, body: seq<T>, more: bool, frag: nat)

  function Reassemble<T>(fs: seq<Mpdu<T>>): seq<T> {
    if fs == [] then [] else Reassemble(fs[..|fs| - 1]) + fs[|fs| - 1].body
  }

  function Size<T>(f: Mpdu<T>): nat {
    f.headerLen + |f.body| + LENGTH_CRC
  }

  /** How many MPDUs a payload of len bytes needs when the first holds `first` bytes of it and
      each later one `later`. */
  function Needed(len: nat, first: nat, later: nat): (n: nat)
    requires later > 0 && first > 0
    ensures n >= 1
    ensures len > first ==> n >= 2
  {
    if len <= first then 1 else 1 + Needed(len - first, later, later)
  }

  /** The 4-bit fragment number of fragment i. */
  function FragOf(i: nat): nat { i % 16 }

  /** All that a receiver, and the hardware, may rely on: the bodies are the payload in order, the
      numbers count modulo 16, no fragment is longer than the threshold with its four octets of CRC,
      all but the last are just that long, and only the first carries the eight octets of LLC/SNAP. */
  ghost predicate Fragmented<T>(fs: seq<Mpdu<T>>, payload: seq<T>, threshold: nat, header: nat, llc: bool) {
    && |fs| >= 1 && Reassemble(fs) == payload
    && (forall i :: 0 <= i < |fs| ==> fs[i].headerLen + |fs[i].body| + 4 <= threshold && fs[i].frag == i % 16)
    && (forall i :: 0 <= i < |fs| - 1 ==> fs[i].headerLen + |fs[i].body| + 4 == threshold)
    && (forall i :: 0 <= i < |fs| ==> (fs[i].more <==> i < |fs| - 1))
    && (forall i :: 0 < i < |fs| ==>
         fs[i].body != [] && fs[i].headerLen == header - (if llc then 8 else 0))
    && fs[0].headerLen == header
  }

  /** The 8-bit fragNum and the 4-bit number of the header, one on. */
  function Inc8(x: nat): nat { (x + 1) % 256 }
  function Inc4(x: nat): nat { (x + 1) % 16 }

  lemma NextNumbers(i: nat)
    ensures Inc8(i % 256) == (i + 1) % 256
    ensures i < 256 ==> (i % 256 == 0 <==> i == 0)
    ensures Inc4(FragOf(i)) == FragOf(i + 1)
  {
    NextRemainder(i, 256);
    NextRemainder(i, 16);
    if i < 256 {
      DivIs(i, 256, 0, i);
    }
  }

  function LaterHeader(header: nat, llc: bool): nat
    requires llc ==> header >= LENGTH_802_1_H
  {
    if llc then header - LENGTH_802_1_H else header
  }

  /** Full fragments only, for the first pos bytes of the payload. */
  ghost predicate FullSoFar<T>(fs: seq<Mpdu<T>>, payload: seq<T>, pos: nat, threshold: nat, header: nat, llc: bool)
    requires llc ==> header >= LENGTH_802_1_H
  {
    && pos <= |payload| && Reassemble(fs) == payload[..pos]
    && (forall i :: 0 <= i < |fs| ==>
          Size(fs[i]) == threshold && fs[i].frag == FragOf(i) && fs[i].more && fs[i].body != [])
    && (forall i :: 0 <= i < |fs| ==> fs[i].headerLen == if i == 0 then header else LaterHeader(header, llc))
  }

  lemma AppendFragment<T>(fs: seq<Mpdu<T>>, f: Mpdu<T>, payload: seq<T>, pos: nat, threshold: nat, header: nat,
                          llc: bool)
    requires (llc ==> header >= LENGTH_802_1_H) && FullSoFar(fs, payload, pos, threshold, header, llc)
    requires f.headerLen == (if fs == [] then header else LaterHeader(header, llc)) && f.frag == FragOf(|fs|)
    requires pos + |f.body| <= |payload| && f.body == payload[pos..pos + |f.body|]
    ensures f.more && Size(f) == threshold && f.body != [] ==>
              FullSoFar(fs + [f], payload, pos + |f.body|, threshold, header, llc)
    ensures !f.more && Size(f) <= threshold && pos + |f.body| == |payload| && (fs == [] || f.body != []) ==>
              Fragmented(fs + [f], payload, threshold, header, llc)
  {
    hide Reassemble;
    BodyAppended(fs, f, payload, pos);
    var all := fs + [f];
    assert forall i :: 0 <= i < |fs| ==> all[i] == fs[i];
    assert all[|fs|] == f;
  }

  lemma BodyAppended<T>(fs: seq<Mpdu<T>>, f: Mpdu<T>, payload: seq<T>, pos: nat)
    requires pos + |f.body| <= |payload| && f.body == payload[pos..pos + |f.body|]
    requires Reassemble(fs) == payload[..pos]
    ensures Reassemble(fs + [f]) == payload[..pos + |f.body|]
    ensures pos + |f.body| == |payload| ==> Reassemble(fs + [f]) == payload
  {
    assert (fs + [f])[..|fs|] == fs;
    assert payload[..pos] + payload[pos..pos + |f.body|] == payload[..pos + |f.body|];
    assert payload[..|payload|] == payload;
  }

  /** The do/while loop of AP_Fragment_Frame_Tx. `header` is MpduHeaderLen on entry, with the
      LLC/SNAP bytes of the first fragment when `llc`. The threshold must leave room beyond
      header and CRC. With LLC/SNAP the fragments must not outnumber the values of fragNum, which
      tells the first one from the others. */
  method FragmentFrame<T>(payload: seq<T>, threshold: nat, header: nat, llc: bool)
    returns (fs: seq<Mpdu<T>>, totalFragNum: nat)
    requires threshold > header + LENGTH_CRC && (llc ==> header >= LENGTH_802_1_H)
    requires llc ==> Needed(|payload|, threshold - LENGTH_CRC - header,
                            threshold - LENGTH_CRC - LaterHeader(header, llc)) <= 256
    ensures Fragmented(fs, payload, threshold, header, llc)
    ensures totalFragNum == (|fs| - 1) % 256
    ensures |fs| == Needed(|payload|, threshold - LENGTH_CRC - header,
              threshold - LENGTH_CRC - LaterHeader(header, llc))
  {
    hide FullSoFar, Fragmented, Inc8, Inc4, FragOf;
    var remaining: nat, mpduHeaderLen: nat, fragNum: nat, frag: nat, pos: nat := |payload|, header, 0, 0, 0;
    ghost var room, later := threshold - LENGTH_CRC - header, threshold - LENGTH_CRC - LaterHeader(header, llc);
    fs, totalFragNum := [], 0xff;
    var first := true;
    FullAtStart(payload, threshold, header, llc);
    assert FragOf(0) == 0 by { FragStart(); }
    while first || remaining > 0
      invariant (first <==> fs == []) && pos + remaining == |payload|
      invariant first || remaining > 0 ==>
                  && FullSoFar(fs, payload, pos, threshold, header, llc)
                  && fragNum == |fs| % 256 && frag == FragOf(|fs|)
                  && mpduHeaderLen == (if first then header else LaterHeader(header, llc))
                  && Needed(|payload|, room, later) == |fs| + Needed(remaining, if first then room else later, later)
      invariant !first && remaining == 0 ==>
                  && Fragmented(fs, payload, threshold, header, llc)
                  && totalFragNum == (|fs| - 1) % 256 && Needed(|payload|, room, later) == |fs|
      decreases if first then 1 else 0, remaining
    {
      var free := threshold - LENGTH_CRC - mpduHeaderLen;
      var more := remaining > free;
      var srcBufLen := if more then free else remaining;
      if !more {
        totalFragNum := fragNum;
      }
      var f := Mpdu(mpduHeaderLen, payload[pos..pos + srcBufLen], more, frag);
      AppendFragment(fs, f, payload, pos, threshold, header, llc);
      NextNumbers(|fs|);
      fs := fs + [f];
      remaining := remaining - srcBufLen;
      if fragNum == 0 && llc {
        mpduHeaderLen := mpduHeaderLen - LENGTH_802_1_H;
      }
      fragNum := Inc8(fragNum);
      pos := pos + srcBufLen;
      frag := Inc4(frag);
      first := false;
    }
  }

  lemma FragStart()
    ensures FragOf(0) == 0
  {
  }

  lemma FullAtStart<T>(payload: seq<T>, threshold: nat, header: nat, llc: bool)
    requires llc ==> header >= LENGTH_802_1_H
    ensures FullSoFar([], payload, 0, threshold, header, llc)
  {
  }

  // ---------------------------------------------------------------- the estimate

  /** NumberOfFrag in APSendPacket, kept in a u8. */
  function Estimate(totalPacketLength: nat, threshold: nat): nat
    requires totalPacketLength > LENGTH_802_3 && threshold > LENGTH_802_11 + LENGTH_CRC
  {
    Unbounded(totalPacketLength, threshold) % 256
  }

  /** The estimate before it is stored. */
  function Unbounded(totalPacketLength: nat, threshold: nat): nat
    requires totalPacketLength > LENGTH_802_3 && threshold > LENGTH_802_11 + LENGTH_CRC
  {
    var allowFragSize := threshold - LENGTH_802_11 - LENGTH_CRC;
    var size := totalPacketLength - LENGTH_802_3 + LENGTH_802_1_H;
    if size >= allowFragSize then size / allowFragSize + 1 else 1
  }

  lemma {:induction false} NeededIsCeiling(len: nat, a: nat)
    requires a > 0 && len > 0
    ensures Needed(len, a, a) == (len + a - 1) / a
    decreases len
  {
    if len <= a {
      DivIs(len + a - 1, a, 1, len - 1);
    } else {
      NeededIsCeiling(len - a, a);
      var q := (len - a + a - 1) / a;
      DivIs(len + a - 1, a, q + 1, (len - a + a - 1) % a);
    }
  }

  /** Rounding up and adding one for an exact quotient is rounding down plus one. */
  lemma CeilingAndFloor(size: nat, a: nat)
    requires a > 0 && size > 0
    ensures (size + a - 1) / a + (if size % a == 0 then 1 else 0) == if size >= a then size / a + 1 else 1
  {
    var q, r := size / a, size % a;
    assert size == q * a + r;
    CeilingOf(size, a, q, r);
    MulSign(a, q);
    MulSign(a, q - 1);
  }

  lemma CeilingOf(size: nat, a: nat, q: nat, r: nat)
    requires a > 0 && size == q * a + r && r < a
    ensures (size + a - 1) / a == if r == 0 then q else q + 1
  {
    if r == 0 {
      DivIs(size + a - 1, a, q, a - 1);
    } else {
      assert size + a - 1 == (q + 1) * a + (r - 1);
      DivIs(size + a - 1, a, q + 1, r - 1);
    }
  }

  /** For a non-QoS, untagged frame that gets an LLC/SNAP header, the estimate is the number of
      fragments sent, plus one exactly when the fragment payload divides the total size. */
  lemma EstimateIs(totalPacketLength: nat, threshold: nat)
    requires totalPacketLength > 14
    requires threshold > 24 + 8 + 4
    ensures var header := 24 + 8;
            var room := threshold - 4 - header;
            var sent := Needed(totalPacketLength - 14, room, room + 8);
            var allow := threshold - 24 - 4;
            var size := totalPacketLength - 14 + 8;
            Estimate(totalPacketLength, threshold) == (sent + if size % allow == 0 then 1 else 0) % 256
  {
    var allow := threshold - LENGTH_802_11 - LENGTH_CRC;
    var size := totalPacketLength - LENGTH_802_3 + LENGTH_802_1_H;
    NeededIsCeiling(size, allow);
    CeilingAndFloor(size, allow);
    LlcCounts(size - LENGTH_802_1_H, allow);
  }

  /** The number of fragments of any frame: `extra` octets of header beyond the 24 of a plain data
      frame (QoS control, HT control, IV), with or without LLC/SNAP in the first fragment. */
  lemma SentIs(len: nat, threshold: nat, extra: nat, llc: bool)
    requires len > 0 && threshold > 24 + extra + 4 + if llc then 8 else 0
    ensures var header := 24 + extra + if llc then 8 else 0;
            var later := threshold - 4 - LaterHeader(header, llc);
            var total := len + if llc then 8 else 0;
            later == threshold - 24 - 4 - extra
            && Needed(len, threshold - 4 - header, later) == (total + later - 1) / later
  {
    var later := threshold - LENGTH_802_11 - LENGTH_CRC - extra;
    if llc {
      LlcCounts(len, later);
      NeededIsCeiling(len + LENGTH_802_1_H, later);
    } else {
      NeededIsCeiling(len, later);
    }
  }

  /** For every frame at all, the estimate is enough exactly when the quotient it rounds down
      leaves room for the octets it does not know of: `extra` octets of header, `tag` octets of
      VLAN tag that are not sent, `mic` octets that are added (TKIP), and LLC/SNAP that may not be
      inserted. */
  lemma EnoughExactly(totalPacketLength: nat, threshold: nat, extra: nat, tag: nat, mic: nat, llc: bool)
    requires totalPacketLength > 14 + tag
    requires threshold > 24 + extra + 4 + if llc then 8 else 0
    ensures var header := 24 + extra + if llc then 8 else 0;
            var len := totalPacketLength - 14 - tag + mic;
            var sent := Needed(len, threshold - 4 - header, threshold - 4 - LaterHeader(header, llc));
            var allow := threshold - 24 - 4;
            var estimate := Unbounded(totalPacketLength, threshold);
            sent <= estimate <==> len + (if llc then 8 else 0) <= estimate * (allow - extra)
  {
    var len, later := totalPacketLength - LENGTH_802_3 - tag + mic, threshold - LENGTH_802_11 - LENGTH_CRC - extra;
    var total, e := len + (if llc then LENGTH_802_1_H else 0), Unbounded(totalPacketLength, threshold);
    SentIs(len, threshold, extra, llc);
    CeilingAtMost(total, later, e);
  }

  lemma CeilingAtMost(x: nat, a: nat, e: nat)
    requires a > 0 && x > 0
    ensures (x + a - 1) / a <= e <==> x <= e * a
  {
    var q, r := x / a, x % a;
    assert x == q * a + r;
    CeilingOf(x, a, q, r);
    MulSign(a, e - q);
    MulSign(a, q - e);
    assert e * a == q * a + (e - q) * a;
  }

  /** The LLC/SNAP bytes in the first header count like payload of equal fragments. */
  lemma LlcCounts(len: nat, allow: nat)
    requires allow > LENGTH_802_1_H
    ensures Needed(len, allow - LENGTH_802_1_H, allow) == Needed(len + LENGTH_802_1_H, allow, allow)
  {
  }
}
