/** The receive path of common/ba_action.c on the heap: a recipient entry with its linked
    reordering list, and the free-block list shared by all entries. Every method is proved to
    do what the function of the same operation in ReorderSpec says, and to keep every block on
    exactly one of: its own list, the free list, or the set of blocks lost to EAP frames. */
module ReorderEngine {
  import opened Basics
  import opened SeqNum
  import opened ReorderSpec
  import opened ReorderList

  /** What the entries share: the free blocks, and the packets handed over or released. */
  class RxPath {
    const pool: MpduList
    const hz: nat
    var delivered: seq<Packet>
    var dropped: seq<Packet>
    ghost var leaked: set<Mpdu>

    /** ba_reordering_resource_init: num zeroed blocks on the free list. */
    constructor (num: nat, hz: nat)
      ensures pool.Valid() && |pool.nodes| == num && fresh(pool) && fresh(pool.nodes)
      ensures delivered == [] && dropped == [] && leaked == {} && this.hz == hz
    {
      pool := new MpduList();
      this.hz := hz;
      delivered, dropped, leaked := [], [], {};
      new;
      var i := 0;
      while i < num
        invariant 0 <= i <= num && |pool.nodes| == i
        invariant pool.Valid() && fresh(pool) && fresh(pool.nodes)
        invariant delivered == [] && dropped == [] && leaked == {}
      {
        var b := new Mpdu();
        pool.Push(b);
        i := i + 1;
      }
    }
  }

  /** BA_REC_ENTRY as far as reordering is concerned. */
  class RecEntry {
    var lastIndSeq: nat
    var at: nat
    var win: nat
    var nDrop: nat
    const list: MpduList

    constructor ()
      ensures list.Valid() && list.nodes == [] && fresh(list)
      ensures lastIndSeq == 0 && at == 0 && win == 0 && nDrop == 0
    {
      lastIndSeq, at, win, nDrop := 0, 0, 0, 0;
      list := new MpduList();
    }

    /** The entry and the shared path are well formed and no block is in two places. */
    ghost predicate Ready(ad: RxPath)
      reads list, list.nodes, ad`leaked, ad.pool, ad.pool.nodes
    {
      && list != ad.pool && list.Valid() && list.Stamped() && ad.pool.Valid()
      && (forall x: Mpdu :: x in list.nodes ==> x !in ad.pool.nodes && x !in ad.leaked)
      && (forall x: Mpdu :: x in ad.pool.nodes ==> x !in ad.leaked)
    }

    ghost function Owned(ad: RxPath): set<Mpdu>
      reads list`nodes, ad.pool`nodes
    {
      Elements(list.nodes) + Elements(ad.pool.nodes)
    }

    ghost function AllBlocks(ad: RxPath): set<Mpdu>
      reads list`nodes, ad`leaked, ad.pool`nodes
    {
      Owned(ad) + ad.leaked
    }

    /** The session as a value. */
    ghost function View(ad: RxPath): Session
      reads this, list, list.nodes, ad, ad.pool
    {
      Session(lastIndSeq, at, win, nDrop, list.Contents(), |ad.pool.nodes|, |ad.leaked|, ad.delivered, ad.dropped)
    }

    /** What the head of the list shows of the session's queue. */
    ghost predicate HeadIs(ad: RxPath)
      reads this, list, list.nodes, ad, ad.pool
    {
      && list.qlen == |list.nodes| == |View(ad).list|
      && (list.next == null <==> list.nodes == [])
      && (list.next != null ==> list.next == list.nodes[0] && list.next.sequence == View(ad).list[0].seqno)
    }

    lemma HeadOf(ad: RxPath)
      requires Ready(ad)
      ensures HeadIs(ad)
    {
    }

    /** Dequeue the first block, announce its packet, give the block back. */
    method AnnounceHead(ad: RxPath)
      requires Ready(ad) && list.nodes != []
      modifies list, list.nodes, ad`delivered, ad.pool
      ensures Ready(ad) && Owned(ad) == old(Owned(ad))
      ensures View(ad) == Announce(old(View(ad)), 1)
      ensures list.nodes == old(list.nodes)[1..] && list.Contents() == old(list.Contents())[1..]
    {
      hide MpduList.LinkedAt, Elements;
      MoveElement(list.nodes, ad.pool.nodes);
      assert forall i :: 0 <= i < |ad.pool.nodes| ==> ad.pool.nodes[i] !in list.nodes;
      var b := list.Pop();
      assert ad.pool.Valid();
      ad.delivered := ad.delivered + [b.pkt];
      ad.pool.Push(b);
      assert list.Contents() == old(list.Contents())[1..];
    }

    /** ba_indicate_reordering_mpdus_le_seq */
    method IndicateLe(ad: RxPath, s: nat)
      requires Ready(ad)
      modifies list, list.nodes, ad`delivered, ad.pool
      ensures Ready(ad) && Owned(ad) == old(Owned(ad)) && Suffix(list.nodes, old(list.nodes))
      ensures View(ad) == ReorderSpec.IndicateLe(old(View(ad)), s)
    {
      hide View, Ready, Owned, Announce, Smaller, LeLen;
      ghost var v, k, nodes := View(ad), 0, list.nodes;
      AnnounceNone(v);
      HeadOf(ad);
      while list.next != null && (list.next.sequence == s || Smaller(list.next.sequence, s))
        invariant Ready(ad) && Owned(ad) == old(Owned(ad)) && HeadIs(ad)
        invariant k <= |nodes| == |v.list| && list.nodes == nodes[k..]
        invariant View(ad) == Announce(v, k) && View(ad).list == v.list[k..]
        invariant forall i :: 0 <= i < k ==> LeSeq(v.list[i].seqno, s)
        decreases |list.nodes|
      {
        AnnounceMore(v, k);
        AnnounceHead(ad);
        HeadOf(ad);
        k := k + 1;
      }
      LeLenIs(v.list, s, k);
    }

    /** ba_indicate_reordering_mpdus_in_order: the last number announced, or RESET_RCV_SEQ. */
    method IndicateInOrder(ad: RxPath, startSeq: nat) returns (last: nat)
      requires Ready(ad)
      modifies list, list.nodes, ad`delivered, ad.pool
      ensures Ready(ad) && Owned(ad) == old(Owned(ad)) && Suffix(list.nodes, old(list.nodes))
      ensures var v := old(View(ad));
              var k := RunLen(v.list, startSeq);
              View(ad) == Announce(v, k) && last == if k == 0 then RESET_RCV_SEQ else v.list[k - 1].seqno
    {
      hide View, Ready, Owned, Announce, StepOne, RunLen;
      ghost var v, k, nodes := View(ad), 0, list.nodes;
      var start := startSeq;
      last := RESET_RCV_SEQ;
      AnnounceNone(v);
      HeadOf(ad);
      while list.next != null && StepOne(list.next.sequence, start)
        invariant Ready(ad) && Owned(ad) == old(Owned(ad)) && HeadIs(ad)
        invariant k <= |nodes| == |v.list| && list.nodes == nodes[k..]
        invariant View(ad) == Announce(v, k) && View(ad).list == v.list[k..]
        invariant start == if k == 0 then startSeq else v.list[k - 1].seqno
        invariant last == if k == 0 then RESET_RCV_SEQ else start
        invariant forall i :: 0 <= i < k ==> Follows(v.list, startSeq, i)
        decreases |list.nodes|
      {
        AnnounceMore(v, k);
        start := list.next.sequence;
        AnnounceHead(ad);
        HeadOf(ad);
        last := start;
        k := k + 1;
      }
      RunLenIs(v.list, startSeq, k);
    }

    /** In-order release from LastIndSeq, with the update every caller makes. */
    method ReleaseInOrder(ad: RxPath)
      requires Ready(ad)
      modifies this`lastIndSeq, list, list.nodes, ad`delivered, ad.pool
      ensures Ready(ad) && Owned(ad) == old(Owned(ad)) && Suffix(list.nodes, old(list.nodes))
      ensures View(ad) == ReorderSpec.ReleaseInOrder(old(View(ad)))
    {
      hide View, Ready, Owned, RunLen;
      FieldsOf(ad);
      var last := IndicateInOrder(ad, lastIndSeq);
      if last != RESET_RCV_SEQ {
        SetLast(ad, last);
      }
    }

    /** ba_refresh_reordering_mpdus */
    method Refresh(ad: RxPath)
      requires Ready(ad)
      modifies this`lastIndSeq, list, list.nodes, ad`delivered, ad.pool
      ensures Ready(ad) && Owned(ad) == old(Owned(ad)) && list.nodes == []
      ensures View(ad) == ReorderSpec.Refresh(old(View(ad)))
    {
      hide View, Ready, Owned, Announce;
      ghost var v, k, nodes := View(ad), 0, list.nodes;
      AnnounceNone(v);
      FieldsOf(ad);
      HeadOf(ad);
      while list.qlen != 0
        invariant Ready(ad) && Owned(ad) == old(Owned(ad)) && HeadIs(ad)
        invariant k <= |nodes| == |v.list| && list.nodes == nodes[k..]
        invariant View(ad) == Announce(v, k).(last := lastIndSeq)
        decreases |list.nodes|
      {
        AnnounceMore(v, k);
        AnnounceLast(Announce(v, k), lastIndSeq);
        var s := list.next.sequence;
        AnnounceHead(ad);
        SetLast(ad, s);
        HeadOf(ad);
        k := k + 1;
      }
      SetLast(ad, RESET_RCV_SEQ);
    }

    method SetLast(ad: RxPath, s: nat)
      requires Ready(ad)
      modifies this`lastIndSeq
      ensures Ready(ad) && lastIndSeq == s && View(ad) == old(View(ad)).(last := s)
    {
      lastIndSeq := s;
    }

    /** ba_flush_reordering_timeout_mpdus */
    method FlushTimeout(ad: RxPath, now: nat)
      requires Ready(ad)
      modifies this`lastIndSeq, this`at, list, list.nodes, ad`delivered, ad.pool
      ensures Ready(ad) && Owned(ad) == old(Owned(ad)) && Suffix(list.nodes, old(list.nodes))
      ensures View(ad) == TimeoutFlush(old(View(ad)), now, ad.hz)
    {
      hide View, Ready, Owned, TimeAfter, ReorderSpec.Refresh, AdvanceOne;
      FieldsOf(ad);
      HeadOf(ad);
      if list.qlen <= 0 {
        return;
      }
      if TimeAfter(now, at + LongTimeout(ad.hz)) && list.qlen > 1 {
        FlushQueue(ad, now);
      } else if TimeAfter(now, at + ShortTimeout(ad.hz)) && list.qlen > 0 {
        ForceOne(ad, now);
      }
    }

    method FlushQueue(ad: RxPath, now: nat)
      requires Ready(ad)
      modifies this`lastIndSeq, this`at, list, list.nodes, ad`delivered, ad.pool
      ensures Ready(ad) && Owned(ad) == old(Owned(ad)) && Suffix(list.nodes, old(list.nodes))
      ensures View(ad) == ReorderSpec.Refresh(old(View(ad))).(at := now)
    {
      hide View, Ready, Owned, ReorderSpec.Refresh;
      Refresh(ad);
      SetAt(ad, now);
    }

    method SetAt(ad: RxPath, now: nat)
      requires Ready(ad)
      modifies this`at
      ensures Ready(ad) && at == now && View(ad) == old(View(ad)).(at := now)
    {
      at := now;
    }

    lemma FieldsOf(ad: RxPath)
      ensures View(ad).last == lastIndSeq && View(ad).at == at && View(ad).win == win
    {
    }

    /** Force LastIndSeq one number on. */
    method ForceOne(ad: RxPath, now: nat)
      requires Ready(ad)
      modifies this`lastIndSeq, this`at, list, list.nodes, ad`delivered, ad.pool
      ensures Ready(ad) && Owned(ad) == old(Owned(ad)) && Suffix(list.nodes, old(list.nodes))
      ensures View(ad) == AdvanceOne(old(View(ad)), now)
    {
      hide View, Ready, Owned, Mask, ReorderSpec.IndicateLe, ReorderSpec.ReleaseInOrder;
      FieldsOf(ad);
      var sequence := Mask(lastIndSeq + 1);
      IndicateLe(ad, sequence);
      SetAt(ad, now);
      SetLast(ad, sequence);
      ReleaseInOrder(ad);
    }

    /** ba_mpdu_blk_alloc: take a block off the free list and zero it. */
    method Alloc(ad: RxPath) returns (b: Mpdu?)
      requires Ready(ad)
      modifies ad.pool, ad.pool.nodes
      ensures Ready(ad) && list.nodes == old(list.nodes)
      ensures b == null <==> old(View(ad)).free == 0
      ensures b == null ==> View(ad) == old(View(ad)) && Owned(ad) == old(Owned(ad))
      ensures b != null ==> View(ad) == old(View(ad)).(free := old(View(ad)).free - 1)
      ensures b != null ==> old(Owned(ad)) == Owned(ad) + {b} && ad.pool.nodes == old(ad.pool.nodes)[1..]
      ensures b != null ==> b !in list.nodes && b !in ad.pool.nodes && b !in ad.leaked && b in old(ad.pool.nodes)
    {
      hide MpduList.LinkedAt, Elements;
      PopElement(ad.pool.nodes);
      assert forall i :: 0 <= i < |list.nodes| ==> list.nodes[i] !in ad.pool.nodes;
      b := ad.pool.Pop();
      assert list.Valid() && list.Stamped() && list.Contents() == old(list.Contents());
      if b != null {
        b.sequence, b.pkt := 0, NO_PACKET;
        assert ad.pool.Valid();
      }
    }

    /** The first branch of ba_enqueue_reordering_packet, with the block in hand. */
    method StoreBlock(ad: RxPath, p: Packet, b: Mpdu)
      requires Ready(ad) && b !in list.nodes && b !in ad.pool.nodes && b !in ad.leaked
      modifies list, list.nodes, ad.pool, ad`dropped, b
      ensures Ready(ad) && Owned(ad) == old(Owned(ad)) + {b}
      ensures var v := old(View(ad));
              View(ad) == if IsQueued(v.list, p.seqno) then v.(gone := v.gone + [p], free := v.free + 1)
                          else v.(list := Insert(v.list, p))
    {
      hide MpduList.LinkedAt, Insert, IsQueued, Smaller;
      b.sequence, b.pkt := p.seqno, p;
      assert forall i :: 0 <= i < |ad.pool.nodes| ==> ad.pool.nodes[i] !in list.nodes && ad.pool.nodes[i] != b;
      var ok := list.InsertSorted(b);
      assert ad.pool.Valid();
      if !ok {
        GiveBack(ad, p, b);
      }
    }

    /** A duplicate: release the packet, return the block. */
    method GiveBack(ad: RxPath, p: Packet, b: Mpdu)
      requires Ready(ad) && b !in list.nodes && b !in ad.pool.nodes && b !in ad.leaked
      modifies ad.pool, ad`dropped, b`next
      ensures Ready(ad) && Owned(ad) == old(Owned(ad)) + {b}
      ensures View(ad) == old(View(ad)).(gone := old(View(ad)).gone + [p], free := old(View(ad)).free + 1)
    {
      hide MpduList.LinkedAt;
      ad.dropped := ad.dropped + [p];
      assert forall i :: 0 <= i < |list.nodes| ==> list.nodes[i] != b && list.nodes[i] !in ad.pool.nodes;
      ad.pool.Push(b);
      assert list.Valid() && list.Stamped() && list.Contents() == old(list.Contents());
    }

    /** The other branch: flush up to the packet and hand it up directly. */
    method Bypass(ad: RxPath, p: Packet)
      requires Ready(ad)
      modifies this`lastIndSeq, list, list.nodes, ad`delivered, ad.pool
      ensures Ready(ad) && Owned(ad) == old(Owned(ad))
      ensures var u := ReorderSpec.IndicateLe(old(View(ad)), p.seqno);
              View(ad) == u.(last := p.seqno, out := u.out + [p])
    {
      hide View, Ready, Owned, ReorderSpec.IndicateLe;
      IndicateLe(ad, p.seqno);
      HandUp(ad, p);
    }

    /** ba_enqueue_reordering_packet */
    method EnqueuePacket(ad: RxPath, p: Packet)
      requires Ready(ad)
      modifies this`lastIndSeq, list, list.nodes, ad, ad.pool, ad.pool.nodes
      ensures Ready(ad) && AllBlocks(ad) == old(AllBlocks(ad)) && old(ad.leaked) <= ad.leaked
      ensures View(ad) == Enqueue(old(View(ad)), p)
    {
      hide Ready, View, Owned, Announce, LeLen, IsQueued, Insert, ReorderSpec.IndicateLe;
      var b := Alloc(ad);
      if b != null && !p.eap {
        StoreBlock(ad, p, b);
      } else {
        if b != null {
          Lose(ad, b);
        }
        Bypass(ad, p);
      }
    }

    /** An EAP frame's block: neither list holds it any more. */
    ghost method Lose(ad: RxPath, b: Mpdu)
      requires Ready(ad) && b !in list.nodes && b !in ad.pool.nodes && b !in ad.leaked
      modifies ad`leaked
      ensures Ready(ad) && ad.leaked == old(ad.leaked) + {b}
      ensures View(ad) == old(View(ad)).(leaked := old(View(ad)).leaked + 1)
    {
      ad.leaked := ad.leaked + {b};
    }

    lemma OwnedFrame(ad: RxPath)
      ensures forall i :: 0 <= i < |list.nodes| ==> list.nodes[i] in Owned(ad)
      ensures forall i :: 0 <= i < |ad.pool.nodes| ==> ad.pool.nodes[i] in Owned(ad)
      ensures forall x: Mpdu :: x in Owned(ad) ==> x in list.nodes || x in ad.pool.nodes
    {
    }

    /** The fifth branch of Indicate_AMPDU_Packet. */
    method SlideWindow(ad: RxPath, p: Packet)
      requires Ready(ad)
      modifies this`lastIndSeq, list, list.nodes, ad, ad.pool, ad.pool.nodes
      ensures Ready(ad) && AllBlocks(ad) == old(AllBlocks(ad)) && old(ad.leaked) <= ad.leaked
      ensures View(ad) == Slide(old(View(ad)), p)
    {
      hide View, Ready, Owned, ReorderSpec.IndicateLe, ReorderSpec.ReleaseInOrder, Enqueue, Mask;
      FieldsOf(ad);
      OwnedFrame(ad);
      ghost var own, lost := Owned(ad), ad.leaked;
      var tmp := p.seqno - win - 1;
      if tmp < 0 {
        tmp := SEQ_SPACE + tmp;
      }
      SlideTo(ad, Mask(tmp + 1));
      OwnedFrame(ad);
      EnqueuePacket(ad, p);
      DisjointOwn(ad, own, lost);
      OwnedFrame(ad);
      ReleaseInOrder(ad);
    }

    method SlideTo(ad: RxPath, winStart: nat)
      requires Ready(ad)
      modifies this`lastIndSeq, list, list.nodes, ad`delivered, ad.pool
      ensures Ready(ad) && Owned(ad) == old(Owned(ad)) && Suffix(list.nodes, old(list.nodes))
      ensures View(ad) == ReorderSpec.IndicateLe(old(View(ad)), winStart).(last := winStart)
    {
      hide View, Ready, Owned, ReorderSpec.IndicateLe;
      IndicateLe(ad, winStart);
      SetLast(ad, winStart);
    }

    lemma DisjointOwn(ad: RxPath, own: set<Mpdu>, lost: set<Mpdu>)
      requires Ready(ad) && AllBlocks(ad) == own + lost && lost <= ad.leaked
      ensures Owned(ad) <= own
    {
    }

    /** The frame itself goes up and LastIndSeq becomes its number. */
    method HandUp(ad: RxPath, p: Packet)
      requires Ready(ad)
      modifies this`lastIndSeq, ad`delivered
      ensures Ready(ad)
      ensures View(ad) == old(View(ad)).(last := p.seqno, out := old(View(ad)).out + [p])
    {
      lastIndSeq := p.seqno;
      ad.delivered := ad.delivered + [p];
    }

    method Drop(ad: RxPath, p: Packet)
      requires Ready(ad)
      modifies this`nDrop, ad`dropped
      ensures Ready(ad)
      ensures var v := old(View(ad)); View(ad) == v.(drops := v.drops + 1, gone := v.gone + [p])
    {
      nDrop := nDrop + 1;
      ad.dropped := ad.dropped + [p];
    }

    /** Indicate_AMPDU_Packet after the time-out flush: the reset case and the five branches. */
    method Receive(ad: RxPath, p: Packet)
      requires Ready(ad)
      modifies this`lastIndSeq, this`nDrop, list, list.nodes, ad, ad.pool, ad.pool.nodes
      ensures Ready(ad) && AllBlocks(ad) == old(AllBlocks(ad)) && old(ad.leaked) <= ad.leaked
      ensures View(ad) == ReorderSpec.Receive(old(View(ad)), p)
    {
      hide View, Ready, Owned, ReorderSpec.ReleaseInOrder, ReceiveLater, StepOne;
      FieldsOf(ad);
      if lastIndSeq == RESET_RCV_SEQ {
        HandUp(ad, p);
      } else if StepOne(p.seqno, lastIndSeq) {
        HandUp(ad, p);
        ReleaseInOrder(ad);
      } else {
        ReceiveOutOfOrder(ad, p);
      }
    }

    /** Branches II to V. */
    method ReceiveOutOfOrder(ad: RxPath, p: Packet)
      requires Ready(ad) && lastIndSeq != RESET_RCV_SEQ && !StepOne(p.seqno, lastIndSeq)
      modifies this`lastIndSeq, this`nDrop, list, list.nodes, ad, ad.pool, ad.pool.nodes
      ensures Ready(ad) && AllBlocks(ad) == old(AllBlocks(ad)) && old(ad.leaked) <= ad.leaked
      ensures View(ad) == ReceiveLater(old(View(ad)), p)
    {
      hide View, Ready, Owned, AllBlocks, Slide, Enqueue, Smaller, StepOne, Mask;
      FieldsOf(ad);
      if p.seqno == lastIndSeq || Smaller(p.seqno, lastIndSeq) {
        Drop(ad, p);
      } else if Smaller(p.seqno, Mask(lastIndSeq + win + 1)) {
        EnqueuePacket(ad, p);
      } else {
        SlideWindow(ad, p);
      }
    }

    /** Indicate_AMPDU_Packet for a frame of this session. */
    method Indicate(ad: RxPath, p: Packet, now: nat)
      requires Ready(ad)
      modifies this, list, list.nodes, ad, ad.pool, ad.pool.nodes
      ensures Ready(ad) && AllBlocks(ad) == old(AllBlocks(ad)) && old(ad.leaked) <= ad.leaked
      ensures View(ad) == ReorderSpec.Indicate(old(View(ad)), p, now, ad.hz) && at == now
    {
      hide View, Ready, Owned, ReorderSpec.Receive, TimeoutFlush;
      IndicateTimer(View(ad), p, now, ad.hz);
      OwnedFrame(ad);
      FlushTimeout(ad, now);
      OwnedFrame(ad);
      SetAt(ad, now);
      Receive(ad, p);
      FieldsOf(ad);
    }

    /** CntlEnqueueForRecv */
    method BlockAckReq(ad: RxPath, start: Seq12)
      requires Ready(ad)
      modifies this`lastIndSeq, list, list.nodes, ad`delivered, ad.pool
      ensures Ready(ad) && Owned(ad) == old(Owned(ad))
      ensures View(ad) == ReorderSpec.BlockAckReq(old(View(ad)), start)
    {
      hide View, Ready, Owned, ReorderSpec.IndicateLe, Smaller;
      FieldsOf(ad);
      if Smaller(lastIndSeq, start) {
        IndicateLe(ad, start);
        SetLast(ad, if start == 0 then MAXSEQ else start - 1);
      }
    }

    /** The reordering part of BARecSessionAdd. */
    method Install(ad: RxPath, w: nat)
      requires Ready(ad)
      modifies this`lastIndSeq, this`win, list, list.nodes, ad`delivered, ad.pool
      ensures Ready(ad) && Owned(ad) == old(Owned(ad)) && list.nodes == []
      ensures View(ad) == ReorderSpec.Install(old(View(ad)), w)
    {
      hide Ready, Owned, ReorderSpec.Refresh, MpduList.Valid, MpduList.Stamped;
      Refresh(ad);
      win := w;
    }

    /** The loop of ba_reordering_resource_release for one entry: queued packets are released,
        not announced. */
    method Discard(ad: RxPath)
      requires Ready(ad)
      modifies list, list.nodes, ad`dropped, ad.pool
      ensures Ready(ad) && Owned(ad) == old(Owned(ad)) && list.nodes == []
      ensures var v := old(View(ad));
              View(ad) == v.(list := [], free := v.free + |v.list|, gone := v.gone + v.list)
    {
      hide Elements, MpduList.LinkedAt, Distinct, Owned, Discarded;
      ghost var v, k, nodes := View(ad), 0, list.nodes;
      DiscardedMore(v, 0);
      while list.qlen != 0
        invariant Ready(ad) && Owned(ad) == old(Owned(ad)) && k <= |nodes| && list.nodes == nodes[k..]
        invariant View(ad) == Discarded(v, k)
        decreases |list.nodes|
      {
        DiscardedMore(v, k);
        DiscardHead(ad);
        k := k + 1;
      }
      DiscardedMore(v, k);
    }

    method DiscardHead(ad: RxPath)
      requires Ready(ad) && list.nodes != []
      modifies list, list.nodes, ad`dropped, ad.pool
      ensures Ready(ad) && Owned(ad) == old(Owned(ad)) && list.nodes == old(list.nodes)[1..]
      ensures var v := old(View(ad));
              View(ad) == Discarded(v, 1)
    {
      hide MpduList.LinkedAt, Elements;
      MoveElement(list.nodes, ad.pool.nodes);
      assert forall i :: 0 <= i < |ad.pool.nodes| ==> ad.pool.nodes[i] !in list.nodes;
      var b := list.Pop();
      assert ad.pool.Valid();
      ad.dropped := ad.dropped + [b.pkt];
      ad.pool.Push(b);
      assert list.Contents() == old(list.Contents())[1..];
    }
  }

  ghost predicate Suffix<T>(a: seq<T>, b: seq<T>) {
    |a| <= |b| && a == b[|b| - |a|..]
  }

  lemma {:induction false} LeLenIs(list: seq<Packet>, s: nat, k: nat)
    requires k <= |list| && forall i :: 0 <= i < k ==> LeSeq(list[i].seqno, s)
    requires k < |list| ==> !LeSeq(list[k].seqno, s)
    ensures LeLen(list, s) == k
  {
  }

  lemma {:induction false} RunLenIs(list: seq<Packet>, start: nat, k: nat)
    requires k <= |list|
    requires forall i :: 0 <= i < k ==> Follows(list, start, i)
    requires k < |list| ==> !Follows(list, start, k)
    ensures RunLen(list, start) == k
  {
    hide StepOne;
    if k > 0 {
      assert Follows(list, start, 0);
      var rest := list[1..];
      assert forall i :: 0 <= i < |rest| ==> Follows(rest, list[0].seqno, i) == Follows(list, start, i + 1);
      RunLenIs(rest, list[0].seqno, k - 1);
    }
  }

  /** The first k queued packets released instead of announced. */
  ghost function Discarded(s: Session, k: nat): Session
    requires k <= |s.list|
  {
    s.(list := s.list[k..], gone := s.gone + s.list[..k], free := s.free + k)
  }

  lemma DiscardedMore(s: Session, k: nat)
    requires k <= |s.list|
    ensures Discarded(s, 0) == s
    ensures k < |s.list| ==> Discarded(Discarded(s, k), 1) == Discarded(s, k + 1)
    ensures Discarded(s, |s.list|) == s.(list := [], gone := s.gone + s.list, free := s.free + |s.list|)
    ensures |Discarded(s, k).list| == |s.list| - k
  {
    if k < |s.list| {
      assert s.list[..k] + s.list[k..][..1] == s.list[..k + 1];
      assert s.gone + s.list[..k] + s.list[k..][..1] == s.gone + (s.list[..k] + s.list[k..][..1]);
    }
    assert s.list[0..] == s.list && s.gone + s.list[..0] == s.gone;
    assert s.list[..|s.list|] == s.list;
  }

  lemma AnnounceLast(s: Session, last: nat)
    requires s.list != []
    ensures Announce(s.(last := last), 1) == Announce(s, 1).(last := last)
  {
  }

  lemma MoveElement<T>(a: seq<T>, b: seq<T>)
    requires a != []
    ensures Elements(a) + Elements(b) == Elements(a[1..]) + Elements([a[0]] + b)
  {
    assert a == [a[0]] + a[1..];
  }

  lemma PopElement<T>(a: seq<T>)
    ensures a != [] ==> Elements(a) == {a[0]} + Elements(a[1..])
  {
    assert a != [] ==> a == [a[0]] + a[1..];
  }

  lemma AnnounceNone(s: Session)
    ensures Announce(s, 0) == s
  {
    assert s.list[0..] == s.list && s.out + s.list[..0] == s.out;
  }

  lemma AnnounceMore(s: Session, k: nat)
    requires k < |s.list|
    ensures Announce(s, k).list == s.list[k..] && Announce(s, k + 1).list == s.list[k + 1..]
    ensures Announce(Announce(s, k), 1) == Announce(s, k + 1)
  {
    assert s.list[..k] + s.list[k..][..1] == s.list[..k + 1];
    assert s.out + s.list[..k] + s.list[k..][..1] == s.out + (s.list[..k] + s.list[k..][..1]);
  }
}
