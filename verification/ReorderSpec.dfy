/** The receive reordering buffer of one Block Ack recipient session (common/ba_action.c) as
    functions on values: 12-bit numbers, the driver's own comparisons, the list as a sequence.
    The methods of ReorderEngine are proved against these functions; ReorderModel proves what
    they mean. */
module ReorderSpec {
  import opened Basics
  import opened SeqNum

  type Seq12 = x: nat | x <= 0xFFF

  /** A received MPDU: `id` tells packets apart, `eap` is the fRX_EAP flag. */
  datatype Packet = Packet(id: nat, seqno: Seq12, eap: bool)

  /** One session together with the resources it touches.
      `free` is the length of the shared free-block list, `leaked` counts the blocks that an
      EAP frame allocated and nobody gave back, `out` is what was passed to the upper layer
      and `gone` what was released with dev_kfree_skb_any. */
  datatype Session = Session(
    last: nat,            // LastIndSeq
    at: nat,              // LastIndSeqAtTimer
    win: nat,             // BAWinSize
    drops: nat,           // nDropPacket
    list: seq<Packet>,    // the sorted reordering list
    free: nat,
    leaked: nat,
    out: seq<Packet>,
    gone: seq<Packet>)

  // ---------------------------------------------------------------- list operations

  /** Where the scan of ba_reordering_mpdu_insertsorted stops. */
  function InsertPos(list: seq<Packet>, s: nat): (k: nat)
    ensures k <= |list|
    ensures forall i :: 0 <= i < k ==> Smaller(list[i].seqno, s)
    ensures k < |list| ==> !Smaller(list[k].seqno, s)
  {
    if list == [] || !Smaller(list[0].seqno, s) then 0 else 1 + InsertPos(list[1..], s)
  }

  predicate IsQueued(list: seq<Packet>, s: nat) {
    var k := InsertPos(list, s);
    k < |list| && list[k].seqno == s
  }

  function Insert(list: seq<Packet>, p: Packet): seq<Packet> {
    var k := InsertPos(list, p.seqno);
    list[..k] + [p] + list[k..]
  }

  /** The test of ba_indicate_reordering_mpdus_le_seq. */
  predicate LeSeq(a: nat, s: nat) {
    a == s || Smaller(a, s)
  }

  /** Length of the prefix that ba_indicate_reordering_mpdus_le_seq announces. */
  function LeLen(list: seq<Packet>, s: nat): (k: nat)
    ensures k <= |list|
    ensures forall i :: 0 <= i < k ==> LeSeq(list[i].seqno, s)
    ensures k < |list| ==> !LeSeq(list[k].seqno, s)
  {
    if list == [] || !LeSeq(list[0].seqno, s) then 0 else 1 + LeLen(list[1..], s)
  }

  /** Packet i is the in-order successor of the one before it, or of `start`. */
  predicate Follows(list: seq<Packet>, start: nat, i: nat)
    requires i < |list|
  {
    StepOne(list[i].seqno, if i == 0 then start else list[i - 1].seqno)
  }

  /** Length of the prefix that ba_indicate_reordering_mpdus_in_order announces. */
  function RunLen(list: seq<Packet>, start: nat): (k: nat)
    ensures k <= |list|
    ensures forall i :: 0 <= i < k ==> Follows(list, start, i)
    ensures k < |list| ==> !Follows(list, start, k)
  {
    assert forall i :: 1 <= i < |list| ==> Follows(list, start, i) == Follows(list[1..], list[0].seqno, i - 1);
    if list == [] || !StepOne(list[0].seqno, start) then 0 else 1 + RunLen(list[1..], list[0].seqno)
  }

  // ---------------------------------------------------------------- session operations

  /** Announce the first k queued packets and give their blocks back. */
  function Announce(s: Session, k: nat): Session
    requires k <= |s.list|
  {
    s.(list := s.list[k..], out := s.out + s.list[..k], free := s.free + k)
  }

  /** ba_indicate_reordering_mpdus_le_seq */
  function IndicateLe(s: Session, q: nat): Session {
    Announce(s, LeLen(s.list, q))
  }

  /** ba_indicate_reordering_mpdus_in_order from LastIndSeq, and the update of LastIndSeq
      that follows it at every call. */
  function ReleaseInOrder(s: Session): Session {
    var k := RunLen(s.list, s.last);
    Announce(s, k).(last := if k == 0 then s.last else s.list[k - 1].seqno)
  }

  /** ba_refresh_reordering_mpdus */
  function Refresh(s: Session): Session {
    Announce(s, |s.list|).(last := RESET_RCV_SEQ)
  }

  function ShortTimeout(hz: nat): nat { (100 * hz) / 1000 }
  function LongTimeout(hz: nat): nat { ((3000 * hz) / 1000) / 6 }

  datatype Flush = FlushNone | FlushOne | FlushAll

  /** Which branch ba_flush_reordering_timeout_mpdus takes. */
  function FlushKind(qlen: nat, at: nat, now: nat, hz: nat): Flush {
    if qlen == 0 then FlushNone
    else if TimeAfter(now, at + LongTimeout(hz)) && qlen > 1 then FlushAll
    else if TimeAfter(now, at + ShortTimeout(hz)) then FlushOne
    else FlushNone
  }

  /** The "flush one" branch. */
  function AdvanceOne(s: Session, now: nat): Session {
    var q := Mask(s.last + 1);
    ReleaseInOrder(IndicateLe(s, q).(at := now, last := q))
  }

  /** ba_flush_reordering_timeout_mpdus */
  function TimeoutFlush(s: Session, now: nat, hz: nat): Session {
    match FlushKind(|s.list|, s.at, now, hz)
    case FlushNone => s
    case FlushOne => AdvanceOne(s, now)
    case FlushAll => Refresh(s).(at := now)
  }

  /** ba_enqueue_reordering_packet. With no free block, or for an EAP frame, the packet
      bypasses the list; an EAP frame keeps the block it allocated. */
  function Enqueue(s: Session, p: Packet): Session {
    if s.free > 0 && !p.eap then
      if IsQueued(s.list, p.seqno) then s.(gone := s.gone + [p])
      else s.(list := Insert(s.list, p), free := s.free - 1)
    else
      var t := if s.free > 0 then s.(free := s.free - 1, leaked := s.leaked + 1) else s;
      var u := IndicateLe(t, p.seqno);
      u.(last := p.seqno, out := u.out + [p])
  }

  /** WinStartSeq of the fifth branch. */
  function WinStart(s: nat, win: nat): nat {
    var tmp := s - win - 1;
    Mask((if tmp < 0 then SEQ_SPACE + tmp else tmp) + 1)
  }

  /** The part of Indicate_AMPDU_Packet after the time-out flush. */
  function Receive(s: Session, p: Packet): Session {
    if s.last == RESET_RCV_SEQ then s.(last := p.seqno, out := s.out + [p])
    else if StepOne(p.seqno, s.last) then ReleaseInOrder(s.(last := p.seqno, out := s.out + [p]))
    else ReceiveLater(s, p)
  }

  /** Branches II to V. */
  function ReceiveLater(s: Session, p: Packet): Session
    requires !StepOne(p.seqno, s.last)
  {
    match Classify(p.seqno, s.last, s.win)
      case Duplicate => s.(drops := s.drops + 1, gone := s.gone + [p])
      case Old => s.(drops := s.drops + 1, gone := s.gone + [p])
      case InWindow => Enqueue(s, p)
      case BeyondWindow => Slide(s, p)
  }

  /** Branch V: move the window so that the packet is its last number. */
  function Slide(s: Session, p: Packet): Session {
    var w := WinStart(p.seqno, s.win);
    ReleaseInOrder(Enqueue(IndicateLe(s, w).(last := w), p))
  }

  /** Indicate_AMPDU_Packet for a frame of a live session. */
  function Indicate(s: Session, p: Packet, now: nat, hz: nat): Session {
    Receive(TimeoutFlush(s, now, hz).(at := now), p)
  }

  /** CntlEnqueueForRecv: a BlockAckReq with the given starting number. */
  function BlockAckReq(s: Session, start: Seq12): Session {
    if Smaller(s.last, start) then
      IndicateLe(s, start).(last := if start == 0 then MAXSEQ else start - 1)
    else s
  }

  /** BARecSessionAdd on the reordering state: pending packets are announced first. */
  function Install(s: Session, win: nat): Session {
    Refresh(s).(win := win)
  }

  // ---------------------------------------------------------------- runs

  /** What can happen to a session. `Pool` is the rest of the driver taking blocks from, or
      giving blocks back to, the shared free list. */
  datatype Event =
    | Frame(pkt: Packet, now: nat)
    | Bar(start: Seq12)
    | Timer(now: nat)
    | Idle
    | Setup(win: nat)
    | Pool(free: nat)

  function Step(s: Session, e: Event, hz: nat): Session {
    match e
    case Frame(p, now) => Indicate(s, p, now, hz)
    case Bar(start) => BlockAckReq(s, start)
    case Timer(now) => TimeoutFlush(s, now, hz)
    case Idle => Refresh(s)
    case Setup(win) => Install(s, win)
    case Pool(free) => s.(free := free)
  }

  function Run(s: Session, es: seq<Event>, hz: nat): Session {
    if es == [] then s else Step(Run(s, es[..|es| - 1], hz), es[|es| - 1], hz)
  }

  // ---------------------------------------------------------------- conservation

  /** Every packet the session was ever given, in whatever class it is now. */
  ghost function Held(s: Session): multiset<Packet> {
    multiset(s.out) + multiset(s.gone) + multiset(s.list)
  }

  ghost function Blocks(s: Session): nat { s.free + |s.list| + s.leaked }

  ghost function Given(e: Event): multiset<Packet> {
    match e
    case Frame(p, _) => multiset{p}
    case _ => multiset{}
  }

  ghost function Offered(es: seq<Event>): multiset<Packet> {
    if es == [] then multiset{} else Offered(es[..|es| - 1]) + Given(es[|es| - 1])
  }

  lemma AnnounceConserves(s: Session, k: nat)
    requires k <= |s.list|
    ensures Held(Announce(s, k)) == Held(s)
    ensures Blocks(Announce(s, k)) == Blocks(s)
  {
    assert s.list == s.list[..k] + s.list[k..];
  }

  lemma ReleaseConserves(s: Session)
    ensures Held(ReleaseInOrder(s)) == Held(s)
    ensures Blocks(ReleaseInOrder(s)) == Blocks(s)
  {
    AnnounceConserves(s, RunLen(s.list, s.last));
  }

  lemma InsertAdds(list: seq<Packet>, p: Packet)
    ensures multiset(Insert(list, p)) == multiset(list) + multiset{p}
    ensures |Insert(list, p)| == |list| + 1
  {
    var k := InsertPos(list, p.seqno);
    assert list == list[..k] + list[k..];
  }

  lemma BypassConserves(s: Session, p: Packet)
    ensures var u := IndicateLe(s, p.seqno);
            var v := u.(last := p.seqno, out := u.out + [p]);
            Held(v) == Held(s) + multiset{p} && Blocks(v) == Blocks(s)
  {
    LeConserves(s, p.seqno);
  }

  lemma EnqueueConserves(s: Session, p: Packet)
    ensures Held(Enqueue(s, p)) == Held(s) + multiset{p}
    ensures Blocks(Enqueue(s, p)) == Blocks(s)
  {
    hide Insert, IsQueued, IndicateLe;
    if s.free > 0 && !p.eap {
      InsertAdds(s.list, p);
    } else {
      BypassConserves(if s.free > 0 then s.(free := s.free - 1, leaked := s.leaked + 1) else s, p);
    }
  }

  lemma LeConserves(s: Session, q: nat)
    ensures Held(IndicateLe(s, q)) == Held(s)
    ensures Blocks(IndicateLe(s, q)) == Blocks(s)
  {
    AnnounceConserves(s, LeLen(s.list, q));
  }

  lemma RefreshConserves(s: Session)
    ensures Held(Refresh(s)) == Held(s)
    ensures Blocks(Refresh(s)) == Blocks(s)
  {
    AnnounceConserves(s, |s.list|);
  }

  lemma AdvanceConserves(s: Session, now: nat)
    ensures Held(AdvanceOne(s, now)) == Held(s)
    ensures Blocks(AdvanceOne(s, now)) == Blocks(s)
  {
    hide Announce, LeLen, Mask, RunLen, ReleaseInOrder, IndicateLe;
    var q := Mask(s.last + 1);
    LeConserves(s, q);
    ReleaseConserves(IndicateLe(s, q).(at := now, last := q));
  }

  lemma TimeoutConserves(s: Session, now: nat, hz: nat)
    ensures Held(TimeoutFlush(s, now, hz)) == Held(s)
    ensures Blocks(TimeoutFlush(s, now, hz)) == Blocks(s)
  {
    hide AdvanceOne, Refresh, FlushKind;
    AdvanceConserves(s, now);
    RefreshConserves(s);
  }

  lemma ReceiveConserves(s: Session, p: Packet)
    ensures Held(Receive(s, p)) == Held(s) + multiset{p}
    ensures Blocks(Receive(s, p)) == Blocks(s)
  {
    hide Classify, Announce, LeLen, RunLen, ReleaseInOrder, IndicateLe, Enqueue, WinStart, ReceiveLater, StepOne;
    if s.last != RESET_RCV_SEQ {
      if StepOne(p.seqno, s.last) {
        ReleaseConserves(s.(last := p.seqno, out := s.out + [p]));
      } else {
        ReceiveLaterConserves(s, p);
      }
    }
  }

  lemma ReceiveLaterConserves(s: Session, p: Packet)
    requires !StepOne(p.seqno, s.last)
    ensures Held(ReceiveLater(s, p)) == Held(s) + multiset{p}
    ensures Blocks(ReceiveLater(s, p)) == Blocks(s)
  {
    hide Announce, LeLen, RunLen, ReleaseInOrder, IndicateLe, Enqueue, WinStart, StepOne, Smaller;
    match Classify(p.seqno, s.last, s.win)
    case Duplicate =>
    case Old =>
    case InWindow => EnqueueConserves(s, p);
    case BeyondWindow =>
      var w := WinStart(p.seqno, s.win);
      var t := IndicateLe(s, w).(last := w);
      LeConserves(s, w);
      EnqueueConserves(t, p);
      ReleaseConserves(Enqueue(t, p));
  }

  /** One event moves packets between the three classes and adds exactly the arriving one;
      it moves blocks between the free list, the reordering list and the leaked ones. */
  lemma StepConserves(s: Session, e: Event, hz: nat)
    ensures Held(Step(s, e, hz)) == Held(s) + Given(e)
    ensures !e.Pool? ==> Blocks(Step(s, e, hz)) == Blocks(s)
  {
    hide Receive, TimeoutFlush, Refresh, IndicateLe, Smaller;
    match e
    case Frame(p, now) =>
      TimeoutConserves(s, now, hz);
      ReceiveConserves(TimeoutFlush(s, now, hz).(at := now), p);
    case Bar(start) => LeConserves(s, start);
    case Timer(now) => TimeoutConserves(s, now, hz);
    case Idle => RefreshConserves(s);
    case Setup(win) => RefreshConserves(s);
    case Pool(_) =>
  }

  /** Packet conservation over every run, whatever branches it takes. */
  lemma {:induction false} RunConserves(s: Session, es: seq<Event>, hz: nat)
    ensures Held(Run(s, es, hz)) == Held(s) + Offered(es)
  {
    if es != [] {
      RunConserves(s, es[..|es| - 1], hz);
      StepConserves(Run(s, es[..|es| - 1], hz), es[|es| - 1], hz);
    }
  }

  /** If the packets offered are pairwise different, each of them is in exactly one of the
      three classes, and in it once. */
  lemma ExactlyOneClass(s: Session, es: seq<Event>, hz: nat, p: Packet)
    requires Held(s) == multiset{}
    requires forall x :: Offered(es)[x] <= 1
    ensures var t := Run(s, es, hz);
            multiset(t.out)[p] + multiset(t.gone)[p] + multiset(t.list)[p] == (if p in Offered(es) then 1 else 0)
  {
    RunConserves(s, es, hz);
    var t := Run(s, es, hz);
    assert Held(t)[p] == Offered(es)[p];
  }

  /** Refresh (and so teardown, idle time-out and re-setup) empties the queued class and
      announces exactly what was queued, in list order. */
  lemma RefreshEmpties(s: Session)
    ensures Refresh(s).list == [] && Refresh(s).out == s.out + s.list && Refresh(s).gone == s.gone
    ensures Held(Refresh(s)) == Held(s) && Blocks(Refresh(s)) == Blocks(s)
  {
    RefreshConserves(s);
  }

  /** Only BARecSessionAdd changes the window size. */
  lemma WindowKept(s: Session, e: Event, hz: nat)
    ensures Step(s, e, hz).win == if e.Setup? then e.win else s.win
  {
    hide Classify, LeLen, RunLen, TimeAfter, Smaller;
    if e.Frame? {
      hide Indicate;
      IndicateWindow(s, e.pkt, e.now, hz);
    }
  }

  lemma IndicateWindow(s: Session, p: Packet, now: nat, hz: nat)
    ensures Indicate(s, p, now, hz).win == s.win
  {
    hide LeLen, RunLen, TimeAfter, Smaller, Insert, IsQueued, Announce, StepOne;
    TimeoutWindow(s, now, hz);
    ReceiveWindow(TimeoutFlush(s, now, hz).(at := now), p);
  }

  /** Every frame restarts the time-out. */
  lemma IndicateTimer(s: Session, p: Packet, now: nat, hz: nat)
    ensures Indicate(s, p, now, hz).at == now
  {
    hide TimeoutFlush, Receive;
    ReceiveTimer(TimeoutFlush(s, now, hz).(at := now), p);
  }

  lemma ReceiveTimer(s: Session, p: Packet)
    ensures Receive(s, p).at == s.at
  {
    hide LeLen, RunLen, Smaller, Mask, StepOne, Insert, IsQueued;
  }

  lemma TimeoutWindow(s: Session, now: nat, hz: nat)
    ensures TimeoutFlush(s, now, hz).win == s.win
  {
  }

  lemma ReceiveWindow(s: Session, p: Packet)
    ensures Receive(s, p).win == s.win
  {
  }
}
