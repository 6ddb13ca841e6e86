/** Theorems about every run of a recipient session: refinement of the integer machine, the
    reordering invariant, the order of announcements, and how the buffer drains. */
module ReorderTheorems {
  import opened Basics
  import opened SeqNum
  import opened ReorderSpec
  import opened ReorderModel
  import opened ReorderOrder

  // ---------------------------------------------------------------- one event

  /** Whether ba_enqueue_reordering_packet gets a block it may use. In the fifth branch the
      blocks of the packets flushed first are available again. */
  predicate Granted(c: Session, p: Packet) {
    && !p.eap
    && (c.free > 0 ||
        (Classify(p.seqno, c.last, c.win) == BeyondWindow && LeLen(c.list, WinStart(p.seqno, c.win)) > 0))
  }

  /** The frame takes the fallback branch inside the window. */
  predicate BypassesInWindow(c: Session, p: Packet) {
    c.last != RESET_RCV_SEQ && Classify(p.seqno, c.last, c.win) == InWindow && !Granted(c, p)
  }

  predicate HasNumber(list: seq<Packet>, s: nat) {
    exists i :: 0 <= i < |list| && list[i].seqno == s
  }

  /** The only step that can spoil the buffer: a frame bypasses the list from inside the
      window while its successor is queued. Runs that never take the fallback branch are
      benign; so are runs that take it only beyond the window, or with no successor queued. */
  predicate Benign(c: Session, e: Event, hz: nat) {
    match e
    case Frame(p, now) =>
      var t := TimeoutFlush(c, now, hz);
      !(BypassesInWindow(t, p) && HasNumber(t.list, Mask(p.seqno + 1)))
    case Setup(win) => 1 <= win <= 255
    case _ => true
  }

  /** The machine's step for the same event. */
  function MachineStep(c: Session, m: Machine, e: Event, hz: nat): Machine {
    match e
    case Frame(p, now) =>
      Accept(Expire(m, FlushKind(|c.list|, c.at, now, hz)), p, Granted(TimeoutFlush(c, now, hz), p))
    case Bar(start) => MoveTo(m, start)
    case Timer(now) => Expire(m, FlushKind(|c.list|, c.at, now, hz))
    case Idle => Restart(m)
    case Setup(win) => Restart(m).(win := win)
    case Pool(_) => m
  }

  lemma WinStartIs(s: nat, win: nat)
    requires s <= MAXSEQ && win <= 255
    ensures WinStart(s, win) == Mask(s - win)
  {
  }

  lemma {:induction false} SuccessorQueued(list: seq<Packet>, q: map<int, Packet>, lo: int, hi: int, n: int)
    requires Rep(list, q, lo, hi) && lo <= n + 1 <= hi && hi - lo <= 2048
    ensures HasNumber(list, Mask(Mask(n) + 1)) <==> n + 1 in q
    decreases hi - lo
  {
    hide Mask, Smaller, StepOne, Listing;
    MaskStep(n);
    RepTail(list, q, lo, hi);
    if lo == n + 1 {
      if lo !in q && list != [] {
        RepAscending(list, q, lo + 1, hi, lo);
        OffsetOfIntegers(lo, lo);
      }
    } else {
      OffsetOfIntegers(lo, n + 1);
      if lo in q {
        SuccessorQueued(list[1..], q - {lo}, lo + 1, hi, n);
        assert list == [list[0]] + list[1..];
        if n + 1 in q {
          var i :| 0 <= i < |list[1..]| && list[1..][i].seqno == Mask(n + 1);
          assert list[i + 1].seqno == Mask(n + 1);
        }
      } else {
        SuccessorQueued(list, q, lo + 1, hi, n);
      }
    }
  }

  lemma ImageAnnounce(c: Session, m: Machine, n: int, p: Packet)
    requires Image(c, m, 2) && p.seqno == Mask(n)
    requires if m.active then n == m.last + 1 else m.q == map[]
    ensures Image(c.(last := p.seqno, out := c.out + [p]), Announced(m, n, p, false).(last := n, active := true), 1)
    ensures !m.active ==> Image(c.(last := p.seqno, out := c.out + [p]),
              Announced(m, n, p, false).(last := n, active := true), 2)
  {
    hide Mask, Packets;
    PacketsAppend(m.out, Announcement(m.epoch, n, p, m.bar, false));
    RepRange(c.list, m.q, m.last + 2, m.last + m.win + 1, n + 1, n + m.win + 1);
    if !m.active {
      RepRange(c.list, m.q, m.last + 2, m.last + m.win + 1, n + 2, n + m.win + 1);
    }
  }

  /** The fifth branch: exactly the numbers up to n - win are flushed, then n becomes the
      largest queued number, at distance win, then the consecutive numbers leave. */
  lemma ImageBeyond(c: Session, m: Machine, n: int, p: Packet)
    requires Image(c, m, 2) && m.active && m.last + m.win < n < m.last + 2048 && p.seqno == Mask(n)
    requires Classify(p.seqno, c.last, c.win) == BeyondWindow
    ensures Image(Receive(c, p), Advance(Store(EmitTo(m, n - m.win).(last := n - m.win), n, p, Granted(c, p))), 2)
  {
    hide Mask, Packets, LeLen, Listing, Classify, EmitTo, Advance, ReleaseInOrder, Enqueue, Store;
    var w := n - m.win;
    ClassifyInOrder(p.seqno, c.last, c.win);
    WinStartIs(p.seqno, c.win);
    MaskMinus(n, m.win);
    ImageEmit(c, m, w, 2);
    var c1, m1 := IndicateLe(c, Mask(w)).(last := Mask(w)), EmitTo(m, w).(last := w);
    assert Image(c1, m1, 1);
    ImageStore(c1, m1, n, p, 1);
    assert c1.free > 0 && !p.eap <==> Granted(c, p);
    ImageRelease(Enqueue(c1, p), Store(m1, n, p, Granted(c, p)));
  }

  lemma ImageInWindow(c: Session, m: Machine, n: int, p: Packet)
    requires Image(c, m, 2) && m.active && m.last + 2 <= n <= m.last + m.win && p.seqno == Mask(n)
    requires Classify(p.seqno, c.last, c.win) == InWindow
    requires !(BypassesInWindow(c, p) && HasNumber(c.list, Mask(p.seqno + 1)))
    ensures Image(Enqueue(c, p), Store(m, n, p, Granted(c, p)), 2)
  {
    hide Mask, Packets, LeLen, Listing, Classify, EmitTo, Enqueue;
    ImageStore(c, m, n, p, 2);
    if !Granted(c, p) {
      SuccessorQueued(c.list, m.q, m.last + 2, m.last + m.win + 1, n);
      ImageEmit(c, m, n, 2);
      var c', m' := Enqueue(c, p), Store(m, n, p, false);
      RepRange(c'.list, m'.q, n + 1, n + m.win + 1, n + 2, n + m.win + 1);
    }
  }

  /** The first branch. */
  lemma ImageNext(c: Session, m: Machine, n: int, p: Packet)
    requires Image(c, m, 2) && m.active && n == m.last + 1 && p.seqno == Mask(n)
    requires StepOne(p.seqno, c.last)
    ensures Image(Receive(c, p), Advance(Announced(m, n, p, false).(last := n)), 2)
  {
    hide Packets, Listing, Rep, ReleaseInOrder, Advance, StepOne, Mask;
    ImageAnnounce(c, m, n, p);
    ImageRelease(c.(last := p.seqno, out := c.out + [p]), Announced(m, n, p, false).(last := n));
  }

  /** The second and the third one. */
  lemma ImageOld(c: Session, m: Machine, p: Packet)
    requires Image(c, m, 2) && m.active && Classify(p.seqno, c.last, c.win) in {Duplicate, Old}
    ensures Image(Receive(c, p), m.(gone := m.gone + [p]), 2)
  {
    hide Packets, Listing, Rep, ReleaseInOrder, Enqueue, Slide, Mask, Smaller;
  }

  lemma ImageReceive(c: Session, m: Machine, p: Packet)
    requires Image(c, m, 2)
    requires !(BypassesInWindow(c, p) && HasNumber(c.list, Mask(p.seqno + 1)))
    ensures Image(Receive(c, p), Accept(m, p, Granted(c, p)), 2)
  {
    hide Packets, LeLen, Listing, EmitTo, ReleaseInOrder, Advance, Enqueue, Store, Smaller, HasNumber, Rep, Mask, Slide;
    if !m.active {
      MaskSmall(p.seqno);
      ImageAnnounce(c, m, p.seqno, p);
    } else {
      ImageReceiveActive(c, m, p);
    }
  }

  lemma ImageReceiveActive(c: Session, m: Machine, p: Packet)
    requires Image(c, m, 2) && m.active
    requires !(BypassesInWindow(c, p) && HasNumber(c.list, Mask(p.seqno + 1)))
    ensures Image(Receive(c, p), Accept(m, p, Granted(c, p)), 2)
  {
    hide Image, Receive, EmitTo, Advance, Enqueue, Store, HasNumber, Mask, BypassesInWindow, Granted, Classify;
    var d := Offset(p.seqno, Mask(m.last));
    var n := m.last + d;
    Unwrap(p.seqno, m.last);
    AtDistance(c, m, p, d);
    if d == 1 {
      ImageNext(c, m, n, p);
    } else if 2 <= d <= m.win {
      ImageInWindow(c, m, n, p);
      ReceiveInWindow(c, p);
    } else if 2 <= d < 2048 {
      ImageBeyond(c, m, n, p);
    } else {
      ImageOld(c, m, p);
    }
  }

  lemma ReceiveInWindow(c: Session, p: Packet)
    requires c.last != RESET_RCV_SEQ && Classify(p.seqno, c.last, c.win) == InWindow
    ensures Receive(c, p) == Enqueue(c, p)
  {
    hide Enqueue, Smaller;
  }

  /** Which branch the distance leads to. */
  lemma AtDistance(c: Session, m: Machine, p: Packet, d: nat)
    requires Image(c, m, 2) && m.active && d == Offset(p.seqno, Mask(m.last))
    ensures c.last != RESET_RCV_SEQ
    ensures d == 1 ==> StepOne(p.seqno, c.last)
    ensures 2 <= d <= m.win ==> Classify(p.seqno, c.last, c.win) == InWindow
    ensures 2 <= d < 2048 && m.win < d ==> Classify(p.seqno, c.last, c.win) == BeyondWindow
    ensures d == 0 || d >= 2048 ==> Classify(p.seqno, c.last, c.win) in {Duplicate, Old}
  {
    hide Packets, Listing, Rep, Smaller, Mask;
    ClassifyIsByDistance(p.seqno, c.last, c.win);
  }

  lemma BarTest(last: int, start: Seq12)
    ensures Smaller(Mask(last), start) <==> 1 <= Offset(start, Mask(last)) <= 2048
  {
    hide Smaller;
    SmallerIsUpperHalf(Mask(last), start);
    var d := Offset(start, Mask(last));
    Unwrap(start, last);
    OffsetOfIntegers(last, last + d);
  }

  lemma ImageBarActive(c: Session, m: Machine, start: Seq12, n: int)
    requires Image(c, m, 2) && m.active && m.last < n <= m.last + 2048 && Mask(n) == start
    ensures Image(IndicateLe(c, start).(last := if start == 0 then MAXSEQ else start - 1),
                  EmitTo(m, n).(last := n - 1, bar := Some(n)), 2)
  {
    hide Packets, LeLen, Listing, EmitTo, Mask;
    ImageEmit(c, m, n, 2);
    assert Mask(n - 1) == if start == 0 then MAXSEQ else start - 1 by {
      MaskMinus(n, 1);
      assert Mask(start - 1) == if start == 0 then MAXSEQ else start - 1 by {
        ModUnique(start - 1, if start == 0 then -1 else 0, if start == 0 then MAXSEQ else start - 1);
        MaskIs(start - 1);
      }
    }
    RepRange(IndicateLe(c, start).list, EmitTo(m, n).q, n + 1, n + m.win + 1, n + 1, n + m.win);
  }

  lemma MaskIs(x: int)
    ensures Mask(x) == x % SEQ_SPACE
  {
  }

  lemma ImageBar(c: Session, m: Machine, start: Seq12)
    requires Image(c, m, 2)
    ensures Image(BlockAckReq(c, start), MoveTo(m, start), 2)
  {
    hide Packets, LeLen, Listing, Smaller, EmitTo, IndicateLe;
    if m.active {
      BarTest(m.last, start);
      var d := Offset(start, Mask(m.last));
      Unwrap(start, m.last);
      if 1 <= d <= 2048 {
        ImageBarActive(c, m, start, m.last + d);
      }
    } else {
      ImageBarAtRest(c, m, start);
    }
  }

  lemma ImageBarAtRest(c: Session, m: Machine, start: Seq12)
    requires Image(c, m, 2) && !m.active
    ensures Image(BlockAckReq(c, start), MoveTo(m, start), 2)
  {
    hide Packets, Listing, Smaller, EmitTo;
    SmallerIsUpperHalf(RESET_RCV_SEQ, start);
    NothingQueued(c.list, m.q, m.last + 2, m.last + m.win + 1);
    RepRange(c.list, m.q, m.last + 2, m.last + m.win + 1, start + 1, start + m.win);
  }

  // ---------------------------------------------------------------- every run

  /** Every benign event keeps the session the image of the machine. */
  lemma StepRefines(c: Session, m: Machine, e: Event, hz: nat)
    requires Image(c, m, 2) && Benign(c, e, hz)
    ensures Image(Step(c, e, hz), MachineStep(c, m, e, hz), 2)
  {
    hide Packets, LeLen, Listing, Rep, Expire, Accept, TimeoutFlush, Receive, BypassesInWindow, HasNumber, Granted,
      FlushKind, Restart, Refresh, MoveTo, BlockAckReq;
    match e
    case Frame(p, now) =>
      ImageTimeout(c, m, now, hz);
      var t := TimeoutFlush(c, now, hz);
      AtIrrelevant(t, p, now);
      ImageReceive(t.(at := now), Expire(m, FlushKind(|c.list|, c.at, now, hz)), p);
    case Bar(start) => ImageBar(c, m, start);
    case Timer(now) => ImageTimeout(c, m, now, hz);
    case Idle => ImageRefresh(c, m);
    case Setup(win) => ImageSetup(c, m, win);
    case Pool(_) =>
  }

  lemma AtIrrelevant(c: Session, p: Packet, now: nat)
    ensures Granted(c.(at := now), p) == Granted(c, p)
    ensures BypassesInWindow(c.(at := now), p) == BypassesInWindow(c, p)
  {
  }

  lemma ImageSetup(c: Session, m: Machine, win: nat)
    requires Image(c, m, 2) && 1 <= win <= 255
    ensures Image(Install(c, win), Restart(m).(win := win), 2)
  {
    hide Packets, Listing, Refresh, Restart;
    ImageRefresh(c, m);
    var m' := Restart(m);
    NothingQueued(Refresh(c).list, m'.q, m'.last + 2, m'.last + m'.win + 1);
    RepRange([], map[], m'.last + 2, m'.last + m'.win + 1, m'.last + 2, m'.last + win + 1);
  }

  lemma StepOrdered(c: Session, m: Machine, e: Event, hz: nat)
    requires Image(c, m, 2) && Benign(c, e, hz) && InOrderSoFar(m)
    ensures InOrderSoFar(MachineStep(c, m, e, hz))
  {
    hide Packets, LeLen, Listing, Expire, Accept, TimeoutFlush, HasNumber, Granted, Restart, MoveTo, Ordered, Below,
      TimeAfter;
    if !m.active {
      NothingQueued(c.list, m.q, m.last + 2, m.last + m.win + 1);
    }
    match e
    case Frame(p, now) =>
      var f := FlushKind(|c.list|, c.at, now, hz);
      OrderExpire(m, f);
      ImageTimeout(c, m, now, hz);
      OrderAccept(Expire(m, f), p, Granted(TimeoutFlush(c, now, hz), p));
    case Bar(start) => OrderMoveTo(m, start);
    case Timer(now) => OrderExpire(m, FlushKind(|c.list|, c.at, now, hz));
    case Idle => OrderRestart(m);
    case Setup(win) => OrderSetup(m, win);
    case Pool(_) =>
  }

  lemma OrderSetup(m: Machine, win: nat)
    requires InOrderSoFar(m) && Gap(m) && 1 <= m.win && (!m.active ==> m.q == map[])
    ensures InOrderSoFar(Restart(m).(win := win))
  {
    OrderRestart(m);
  }

  /** A session just created by BARecSessionAdd. */
  function Fresh(win: nat, at: nat, free: nat): Session {
    Session(RESET_RCV_SEQ, at, win, 0, [], free, 0, [], [])
  }

  function FreshMachine(win: nat): Machine {
    Machine(false, 0, win, map[], 0, None, [], [])
  }

  predicate BenignRun(c: Session, es: seq<Event>, hz: nat) {
    es == [] || (BenignRun(c, es[..|es| - 1], hz) && Benign(Run(c, es[..|es| - 1], hz), es[|es| - 1], hz))
  }

  function MachineRun(c: Session, m: Machine, es: seq<Event>, hz: nat): Machine {
    if es == [] then m
    else
      var pre := es[..|es| - 1];
      MachineStep(Run(c, pre, hz), MachineRun(c, m, pre, hz), es[|es| - 1], hz)
  }

  /** Refinement over every benign run from a fresh session. */
  lemma {:induction false} RunRefines(win: nat, at: nat, free: nat, es: seq<Event>, hz: nat)
    requires 1 <= win <= 255 && BenignRun(Fresh(win, at, free), es, hz)
    ensures var c := Fresh(win, at, free);
            var m := MachineRun(c, FreshMachine(win), es, hz);
            Image(Run(c, es, hz), m, 2) && InOrderSoFar(m)
  {
    var c := Fresh(win, at, free);
    if es == [] {
      FreshImage(win, at, free);
    } else {
      var pre, e := es[..|es| - 1], es[|es| - 1];
      RunRefines(win, at, free, pre, hz);
      StepRefines(Run(c, pre, hz), MachineRun(c, FreshMachine(win), pre, hz), e, hz);
      StepOrdered(Run(c, pre, hz), MachineRun(c, FreshMachine(win), pre, hz), e, hz);
    }
  }

  lemma {:induction false} ListingEmpty(lo: int, hi: int)
    ensures Listing(map[], lo, hi) == []
    decreases hi - lo
  {
    if lo < hi {
      ListingEmpty(lo + 1, hi);
    }
  }

  lemma FreshImage(win: nat, at: nat, free: nat)
    requires 1 <= win <= 255
    ensures Image(Fresh(win, at, free), FreshMachine(win), 2) && InOrderSoFar(FreshMachine(win))
  {
    ListingEmpty(2, win + 1);
  }

  // ---------------------------------------------------------------- the reordering invariant

  /** The list is strictly ascending in distance from LastIndSeq, duplicate-free, inside the
      window, no longer than the window, and empty while the session waits for its first frame. */
  ghost predicate Window(c: Session, gap: nat) {
    && |c.list| <= c.win
    && (c.last == RESET_RCV_SEQ ==> c.list == [])
    && (c.last != RESET_RCV_SEQ ==>
          && c.last <= MAXSEQ
          && (forall i :: 0 <= i < |c.list| ==> gap <= Offset(c.list[i].seqno, c.last) <= c.win)
          && (forall i, j :: 0 <= i < j < |c.list| ==>
               Offset(c.list[i].seqno, c.last) < Offset(c.list[j].seqno, c.last)))
  }

  lemma ImageWindow(c: Session, m: Machine, gap: nat)
    requires 1 <= gap <= 2 && Image(c, m, gap)
    ensures Window(c, gap)
  {
    hide Offset, Listing, Packets;
    if m.active {
      RepAscending(c.list, m.q, m.last + gap, m.last + m.win + 1, m.last);
      if m.win + 1 < gap {
        NothingQueued(c.list, m.q, m.last + gap, m.last + m.win + 1);
      }
    } else {
      NothingQueued(c.list, m.q, m.last + gap, m.last + m.win + 1);
    }
  }

  /** In every reachable state of a benign run every queued number is 2 to win ahead. */
  lemma ReorderInvariant(win: nat, at: nat, free: nat, es: seq<Event>, hz: nat)
    requires 1 <= win <= 255 && BenignRun(Fresh(win, at, free), es, hz)
    ensures Window(Run(Fresh(win, at, free), es, hz), 2)
  {
    RunRefines(win, at, free, es, hz);
    ImageWindow(Run(Fresh(win, at, free), es, hz), MachineRun(Fresh(win, at, free), FreshMachine(win), es, hz), 2);
  }

  // ---------------------------------------------------------------- order of announcements

  /** What a benign run passed up is, packet for packet, a labelled sequence that is in order. */
  lemma AnnouncedInOrder(win: nat, at: nat, free: nat, es: seq<Event>, hz: nat)
    requires 1 <= win <= 255 && BenignRun(Fresh(win, at, free), es, hz)
    ensures var out := MachineRun(Fresh(win, at, free), FreshMachine(win), es, hz).out;
            Packets(out) == Run(Fresh(win, at, free), es, hz).out && Ordered(out)
  {
    RunRefines(win, at, free, es, hz);
  }

  /** No packet bypassed the list, and without `bars` no BlockAckReq was taken. */
  ghost predicate Straight(m: Machine, bars: bool) {
    && (forall i :: 0 <= i < |m.out| ==> !m.out[i].bypass)
    && (!bars ==> m.bar == None && forall i :: 0 <= i < |m.out| ==> m.out[i].bar == None)
  }

  lemma {:induction false} StraightEmit(m: Machine, lo: int, n: int, bars: bool)
    requires Straight(m, bars)
    ensures Straight(EmitRange(m, lo, n), bars)
    decreases n - lo
  {
    if lo <= n {
      StraightEmit(if lo in m.q then Announced(m, lo, m.q[lo], false).(q := m.q - {lo}) else m, lo + 1, n, bars);
    }
  }

  lemma {:induction false} StraightAdvance(m: Machine, bars: bool)
    requires Straight(m, bars)
    ensures Straight(Advance(m), bars)
    decreases |m.q|
  {
    if m.last + 1 in m.q {
      var n := m.last + 1;
      StraightAdvance(Announced(m, n, m.q[n], false).(q := m.q - {n}, last := n), bars);
    }
  }

  lemma StraightExpire(m: Machine, f: Flush, bars: bool)
    requires Straight(m, bars)
    ensures Straight(Expire(m, f), bars) && Straight(Restart(m), bars)
  {
    StraightEmit(m, m.last + 1, m.last + 1, bars);
    StraightEmit(m, m.last + 1, m.last + m.win, bars);
    StraightAdvance(EmitTo(m, m.last + 1).(last := m.last + 1), bars);
  }

  lemma StraightAccept(m: Machine, p: Packet, bars: bool)
    requires Straight(m, bars)
    ensures Straight(Accept(m, p, true), bars)
  {
    hide Offset, Mask, EmitRange, Advance;
    if m.active {
      var n := m.last + Offset(p.seqno, Mask(m.last));
      StraightAdvance(Announced(m, n, p, false).(last := n), bars);
      StraightEmit(m, m.last + 1, n - m.win, bars);
      StraightAdvance(Store(EmitTo(m, n - m.win).(last := n - m.win), n, p, true), bars);
    }
  }

  lemma StraightMoveTo(m: Machine, start: Seq12)
    requires Straight(m, true)
    ensures Straight(MoveTo(m, start), true)
  {
    hide Offset, Mask, EmitRange;
    StraightEmit(m, m.last + 1, m.last + Offset(start, Mask(m.last)), true);
  }

  /** The fallback branch is not taken, and there is no BlockAckReq unless `bars`. */
  predicate Clean(c: Session, e: Event, hz: nat, bars: bool) {
    match e
    case Frame(p, now) => Granted(TimeoutFlush(c, now, hz), p)
    case Bar(_) => bars
    case Setup(win) => 1 <= win <= 255
    case _ => true
  }

  predicate CleanRun(c: Session, es: seq<Event>, hz: nat, bars: bool) {
    es == [] || (CleanRun(c, es[..|es| - 1], hz, bars) && Clean(Run(c, es[..|es| - 1], hz), es[|es| - 1], hz, bars))
  }

  lemma {:induction false} CleanIsStraight(win: nat, at: nat, free: nat, es: seq<Event>, hz: nat, bars: bool)
    requires 1 <= win <= 255 && CleanRun(Fresh(win, at, free), es, hz, bars)
    ensures BenignRun(Fresh(win, at, free), es, hz)
    ensures Straight(MachineRun(Fresh(win, at, free), FreshMachine(win), es, hz), bars)
  {
    hide Granted, TimeoutFlush, Restart, Expire, Accept, MoveTo, HasNumber;
    if es != [] {
      var pre, e := es[..|es| - 1], es[|es| - 1];
      CleanIsStraight(win, at, free, pre, hz, bars);
      var c := Run(Fresh(win, at, free), pre, hz);
      var m := MachineRun(Fresh(win, at, free), FreshMachine(win), pre, hz);
      match e
      case Frame(p, now) =>
        var f := FlushKind(|c.list|, c.at, now, hz);
        StraightExpire(m, f, bars);
        StraightAccept(Expire(m, f), p, bars);
      case Bar(start) => StraightMoveTo(m, start);
      case Timer(now) => StraightExpire(m, FlushKind(|c.list|, c.at, now, hz), bars);
      case Idle => StraightExpire(m, FlushAll, bars);
      case Setup(_) => StraightExpire(m, FlushAll, bars);
      case Pool(_) =>
    }
  }

  /** In a run that never takes the fallback branch the numbers of a stretch never decrease, and
      the only one that can repeat is the start of the last BlockAckReq. */
  lemma CleanRunInOrder(win: nat, at: nat, free: nat, es: seq<Event>, hz: nat, i: nat, j: nat)
    requires 1 <= win <= 255 && CleanRun(Fresh(win, at, free), es, hz, true)
    requires i < j < |Run(Fresh(win, at, free), es, hz).out|
    ensures var out := MachineRun(Fresh(win, at, free), FreshMachine(win), es, hz).out;
            && Packets(out) == Run(Fresh(win, at, free), es, hz).out
            && out[i].epoch <= out[j].epoch
            && (out[i].epoch == out[j].epoch ==>
                  out[i].num < out[j].num || (out[i].num == out[j].num && out[j].bar == Some(out[j].num)))
  {
    CleanIsStraight(win, at, free, es, hz, true);
    AnnouncedInOrder(win, at, free, es, hz);
  }

  /** With no BlockAckReq either, they strictly increase. */
  lemma CleanRunStrictlyIncreasing(win: nat, at: nat, free: nat, es: seq<Event>, hz: nat, i: nat, j: nat)
    requires 1 <= win <= 255 && CleanRun(Fresh(win, at, free), es, hz, false)
    requires i < j < |Run(Fresh(win, at, free), es, hz).out|
    ensures var out := MachineRun(Fresh(win, at, free), FreshMachine(win), es, hz).out;
            && Packets(out) == Run(Fresh(win, at, free), es, hz).out
            && (out[i].epoch == out[j].epoch ==> out[i].num < out[j].num)
            && out[i].epoch <= out[j].epoch
  {
    CleanIsStraight(win, at, free, es, hz, false);
    AnnouncedInOrder(win, at, free, es, hz);
  }

  // ---------------------------------------------------------------- the fifth branch, exactly

  lemma BeyondStart(s: Seq12, win: nat)
    requires win <= 255
    ensures Offset(s, WinStart(s, win)) == win
  {
    hide Offset, Mask;
    MaskSmall(s);
    WinStartIs(s, win);
    OffsetOfIntegers(s, s - win);
  }

  lemma BeyondElement(c: Session, p: Packet, x: Packet)
    requires c.last <= MAXSEQ && 1 <= c.win <= 255 && 2 <= Offset(x.seqno, c.last) <= c.win
    requires Classify(p.seqno, c.last, c.win) == BeyondWindow
    ensures var d, w := Offset(p.seqno, c.last), WinStart(p.seqno, c.win);
            && (LeSeq(x.seqno, w) <==> Offset(x.seqno, c.last) <= d - c.win)
            && Smaller(x.seqno, p.seqno)
  {
    hide Offset, Mask, Smaller, StepOne, Classify;
    ClassifyIsByDistance(p.seqno, c.last, c.win);
    var n := c.last + Offset(p.seqno, c.last);
    var o := c.last + Offset(x.seqno, c.last);
    MaskSmall(c.last);
    Unwrap(p.seqno, c.last);
    Unwrap(x.seqno, c.last);
    WinStartIs(p.seqno, c.win);
    MaskMinus(n, c.win);
    SmallerOfIntegers(o, n - c.win);
    SmallerOfIntegers(o, n);
  }

  /** A frame d ahead, beyond the window: exactly the queued packets at distance at most
      d - win are flushed first, and the frame becomes the last of the list, at distance win. */
  lemma BeyondWindowExactly(c: Session, p: Packet)
    requires Window(c, 2) && c.last != RESET_RCV_SEQ && 1 <= c.win <= 255
    requires Classify(p.seqno, c.last, c.win) == BeyondWindow
    ensures var d, w := Offset(p.seqno, c.last), WinStart(p.seqno, c.win);
            var k := LeLen(c.list, w);
            && (forall i :: 0 <= i < |c.list| ==> (i < k <==> Offset(c.list[i].seqno, c.last) <= d - c.win))
            && Offset(p.seqno, w) == c.win
            && !IsQueued(c.list[k..], p.seqno)
            && Insert(c.list[k..], p) == c.list[k..] + [p]
  {
    hide Offset, Mask, Smaller, StepOne, Classify, LeSeq, WinStart;
    var w := WinStart(p.seqno, c.win);
    forall i | 0 <= i < |c.list|
      ensures LeSeq(c.list[i].seqno, w) <==> Offset(c.list[i].seqno, c.last) <= Offset(p.seqno, c.last) - c.win
      ensures Smaller(c.list[i].seqno, p.seqno)
    {
      BeyondElement(c, p, c.list[i]);
    }
    BeyondStart(p.seqno, c.win);
    var rest := c.list[LeLen(c.list, w)..];
    assert forall i :: 0 <= i < |rest| ==> Smaller(rest[i].seqno, p.seqno);
    assert InsertPos(rest, p.seqno) == |rest|;
  }

  /** The ASSERT inside ba_enqueue_reordering_packet: the list is within the window right after
      the insertion, in the fourth branch and in the middle of the fifth. */
  lemma MidStepWindow(c: Session, m: Machine, p: Packet)
    requires Image(c, m, 2) && m.active
    ensures Classify(p.seqno, c.last, c.win) == InWindow ==> Window(Enqueue(c, p), 1)
    ensures Classify(p.seqno, c.last, c.win) == BeyondWindow ==>
              var w := WinStart(p.seqno, c.win);
              Window(Enqueue(IndicateLe(c, w).(last := w), p), 1)
  {
    hide Offset, Mask, Smaller, StepOne, Packets, LeLen, Listing, Classify, EmitTo, Enqueue, Store;
    ClassifyIsByDistance(p.seqno, c.last, c.win);
    var n := m.last + Offset(p.seqno, c.last);
    Unwrap(p.seqno, m.last);
    if Classify(p.seqno, c.last, c.win) == InWindow {
      ImageStore(c, m, n, p, 2);
      WiderGap(Enqueue(c, p), Store(m, n, p, c.free > 0 && !p.eap));
    }
    if Classify(p.seqno, c.last, c.win) == BeyondWindow {
      var w := n - m.win;
      WinStartIs(p.seqno, c.win);
      MaskMinus(n, m.win);
      ImageEmit(c, m, w, 2);
      var c1, m1 := IndicateLe(c, Mask(w)).(last := Mask(w)), EmitTo(m, w).(last := w);
      ImageStore(c1, m1, n, p, 1);
      ImageWindow(Enqueue(c1, p), Store(m1, n, p, c1.free > 0 && !p.eap), 1);
    }
  }

  lemma WiderGap(c: Session, m: Machine)
    requires Image(c, m, 1) || Image(c, m, 2)
    ensures Window(c, 1)
  {
    if Image(c, m, 2) {
      ImageWindow(c, m, 2);
    } else {
      ImageWindow(c, m, 1);
    }
  }

  // ---------------------------------------------------------------- draining

  /** One time-out with no arrival; nothing happens on an empty list. */
  function ExpireOnce(c: Session, now: nat): Session {
    if c.list == [] then c else AdvanceOne(c, now)
  }

  function ExpireAll(c: Session, nows: seq<nat>): Session
    decreases |nows|
  {
    if nows == [] then c else ExpireAll(ExpireOnce(c, nows[0]), nows[1..])
  }

  ghost predicate Within(m: Machine, b: int) {
    forall k :: k in m.q ==> k <= m.last + b
  }

  lemma {:induction false} AdvanceWithin(m: Machine, b: int)
    requires Within(m, b)
    ensures Within(Advance(m), b)
    decreases |m.q|
  {
    if m.last + 1 in m.q {
      var n := m.last + 1;
      AdvanceWithin(Announced(m, n, m.q[n], false).(q := m.q - {n}, last := n), b);
    }
  }

  /** Each expiry brings every packet still queued one number closer. */
  lemma ExpiryCloser(c: Session, m: Machine, now: nat, b: int)
    requires Image(c, m, 2) && Within(m, b) && c.list != []
    ensures Image(AdvanceOne(c, now), Expire(m, FlushOne), 2) && Within(Expire(m, FlushOne), b - 1)
  {
    hide Packets, LeLen, Listing, Advance, EmitRange, AdvanceOne;
    if !m.active {
      NothingQueued(c.list, m.q, m.last + 2, m.last + m.win + 1);
    }
    ImageAdvanceOne(c, m, now);
    var n := m.last + 1;
    EmitKeeps(m, n, n);
    AdvanceWithin(EmitTo(m, n).(last := n), b - 1);
  }

  /** From a state of a benign run whose queued numbers are at most b ahead, b - 1 expiries
      with no arrival empty the list; b = win always holds. */
  lemma {:induction false} DrainsWithin(c: Session, m: Machine, nows: seq<nat>, b: nat)
    requires Image(c, m, 2) && Within(m, b) && |nows| >= b - 1
    ensures ExpireAll(c, nows).list == []
    decreases |nows|
  {
    if c.list == [] {
      StaysEmpty(c, nows);
    } else {
      if b <= 1 {
        assert m.q == map[] by { assert forall k :: k !in m.q; }
        NothingQueued(c.list, m.q, m.last + 2, m.last + m.win + 1);
        assert false;
      }
      ExpiryCloser(c, m, nows[0], b);
      DrainsWithin(AdvanceOne(c, nows[0]), Expire(m, FlushOne), nows[1..], b - 1);
    }
  }

  lemma {:induction false} StaysEmpty(c: Session, nows: seq<nat>)
    requires c.list == []
    ensures ExpireAll(c, nows).list == []
    decreases |nows|
  {
    if nows != [] {
      StaysEmpty(c, nows[1..]);
    }
  }

  /** Drain bound: from every reachable state of a benign run, win - 1 expiries empty the list. */
  lemma Drains(win: nat, at: nat, free: nat, es: seq<Event>, hz: nat, nows: seq<nat>)
    requires 1 <= win <= 255 && BenignRun(Fresh(win, at, free), es, hz)
    requires |nows| >= Run(Fresh(win, at, free), es, hz).win - 1
    ensures ExpireAll(Run(Fresh(win, at, free), es, hz), nows).list == []
  {
    RunRefines(win, at, free, es, hz);
    var c := Run(Fresh(win, at, free), es, hz);
    DrainsWithin(c, MachineRun(Fresh(win, at, free), FreshMachine(win), es, hz), nows, c.win);
  }

  // ---------------------------------------------------------------- the fallback branch

  /** From a good state a frame that bypasses the list inside the window leaves the list
      ascending at distances 1 to win; it leaves a good state exactly when the successor of
      the frame is not queued. */
  lemma BypassExactly(c: Session, m: Machine, p: Packet)
    requires Image(c, m, 2) && BypassesInWindow(c, p)
    ensures Window(Receive(c, p), 1)
    ensures Window(Receive(c, p), 2) <==> !HasNumber(c.list, Mask(p.seqno + 1))
  {
    hide Offset, Mask, Smaller, StepOne, Packets, LeLen, Listing, Classify, EmitTo, Enqueue, Store, HasNumber;
    ClassifyIsByDistance(p.seqno, c.last, c.win);
    var n := m.last + Offset(p.seqno, c.last);
    Unwrap(p.seqno, m.last);
    ClassifyInOrder(p.seqno, c.last, c.win);
    ImageStore(c, m, n, p, 2);
    var c', m' := Receive(c, p), Store(m, n, p, false);
    ImageWindow(c', m', 1);
    SuccessorQueued(c.list, m.q, m.last + 2, m.last + m.win + 1, n);
    if HasNumber(c.list, Mask(p.seqno + 1)) {
      StoreKeeps(m, n, p);
      SuccessorFirst(c', m');
    } else {
      ImageInWindow(c, m, n, p);
      ImageWindow(c', m', 2);
    }
  }

  lemma StoreKeeps(m: Machine, n: int, p: Packet)
    ensures n + 1 in m.q ==> n + 1 in Store(m, n, p, false).q
    ensures Store(m, n, p, false).last == n
  {
    EmitKeeps(m, m.last + 1, n);
  }

  lemma SuccessorFirst(c: Session, m: Machine)
    requires Image(c, m, 1) && m.active && m.last + 1 in m.q
    ensures !Window(c, 2)
  {
    hide Offset, Mask, Listing, Packets;
    RepTail(c.list, m.q, m.last + 1, m.last + m.win + 1);
    OffsetOfIntegers(m.last + 1, m.last);
  }

  lemma RunOfTwo(s: Session, es: seq<Event>, a: Event, b: Event, hz: nat)
    ensures Run(s, es + [a, b], hz) == Step(Step(Run(s, es, hz), a, hz), b, hz)
  {
    var all := es + [a, b];
    assert all[..|all| - 1] == es + [a] && (es + [a])[..|es|] == es;
  }

  /** A frame at time 0, when the last one was at time 0, flushes nothing. */
  lemma NoTimeout(s: Session, p: Packet)
    requires s.at == 0
    ensures Indicate(s, p, 0, 1000) == Receive(s, p)
  {
    hide Receive, AdvanceOne, Refresh;
    assert FlushKind(|s.list|, 0, 0, 1000) == FlushNone;
    assert s.(at := 0) == s;
  }

  const P10 := Packet(0, 10, false)
  const P13 := Packet(1, 13, false)
  const EAP12 := Packet(2, 12, true)
  const P13_AGAIN := Packet(3, 13, false)
  const P14 := Packet(4, 14, false)

  /** What the missing condition costs: EAP frame 12 bypasses the list while 13 is queued, the
      queued copy of 13 is skipped, and a later time-out announces it after 14. */
  lemma BypassBreaksOrder()
    ensures var es := [Frame(P10, 0), Frame(P13, 0), Frame(EAP12, 0), Frame(P13_AGAIN, 0), Frame(P14, 0), Timer(200)];
            Run(Fresh(64, 0, 8), es, 1000).out == [P10, EAP12, P13_AGAIN, P14, P13]
  {
    hide Indicate, TimeoutFlush, Receive;
    var s0 := Fresh(64, 0, 8);
    var e1, e2, e3 := [Frame(P10, 0), Frame(P13, 0)], [Frame(EAP12, 0), Frame(P13_AGAIN, 0)],
      [Frame(P14, 0), Timer(200)];
    BypassStepsA();
    BypassStepsB();
    BypassStepsC();
    RunOfTwo(s0, [], e1[0], e1[1], 1000);
    assert [] + e1 == e1;
    RunOfTwo(s0, e1, e2[0], e2[1], 1000);
    RunOfTwo(s0, e1 + e2, e3[0], e3[1], 1000);
    assert e1 + e2 + e3 == [Frame(P10, 0), Frame(P13, 0), Frame(EAP12, 0), Frame(P13_AGAIN, 0), Frame(P14, 0),
           Timer(200)];
  }

  lemma BypassStepsA()
    ensures Indicate(Fresh(64, 0, 8), P10, 0, 1000) == Session(10, 0, 64, 0, [], 8, 0, [P10], [])
    ensures Indicate(Session(10, 0, 64, 0, [], 8, 0, [P10], []), P13, 0, 1000)
         == Session(10, 0, 64, 0, [P13], 7, 0, [P10], [])
  {
    hide Indicate, TimeoutFlush;
    NoTimeout(Fresh(64, 0, 8), P10);
    NoTimeout(Session(10, 0, 64, 0, [], 8, 0, [P10], []), P13);
  }

  lemma BypassStepsB()
    ensures Indicate(Session(10, 0, 64, 0, [P13], 7, 0, [P10], []), EAP12, 0, 1000)
         == Session(12, 0, 64, 0, [P13], 6, 1, [P10, EAP12], [])
    ensures Indicate(Session(12, 0, 64, 0, [P13], 6, 1, [P10, EAP12], []), P13_AGAIN, 0, 1000)
         == Session(13, 0, 64, 0, [P13], 6, 1, [P10, EAP12, P13_AGAIN], [])
  {
    hide Indicate, TimeoutFlush;
    NoTimeout(Session(10, 0, 64, 0, [P13], 7, 0, [P10], []), EAP12);
    NoTimeout(Session(12, 0, 64, 0, [P13], 6, 1, [P10, EAP12], []), P13_AGAIN);
  }

  lemma BypassStepsC()
    ensures Indicate(Session(13, 0, 64, 0, [P13], 6, 1, [P10, EAP12, P13_AGAIN], []), P14, 0, 1000)
         == Session(14, 0, 64, 0, [P13], 6, 1, [P10, EAP12, P13_AGAIN, P14], [])
    ensures TimeoutFlush(Session(14, 0, 64, 0, [P13], 6, 1, [P10, EAP12, P13_AGAIN, P14], []), 200, 1000).out
         == [P10, EAP12, P13_AGAIN, P14, P13]
  {
    hide Indicate;
    NoTimeout(Session(13, 0, 64, 0, [P13], 6, 1, [P10, EAP12, P13_AGAIN], []), P14);
    assert FlushKind(1, 0, 200, 1000) == FlushOne;
  }
}
