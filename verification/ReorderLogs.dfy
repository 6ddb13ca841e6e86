/** The logs and totals a session sees are shared with all other sessions. Here: a session's
    steps do not depend on what is already in them, so the theorems about fresh sessions hold
    of every session from its ADDBA set-up on. */
module ReorderLogs {
  import opened SeqNum
  import opened ReorderSpec
  import opened ReorderModel
  import opened ReorderOrder
  import opened ReorderTheorems

  /** What was there before: delivered, dropped, leaked blocks, drop count. */
  datatype History = History(out: seq<Packet>, gone: seq<Packet>, leaked: nat, drops: nat)

  function After(h: History, s: Session): Session {
    s.(out := h.out + s.out, gone := h.gone + s.gone, leaked := h.leaked + s.leaked, drops := h.drops + s.drops)
  }

  lemma AnnounceAfter(h: History, s: Session, k: nat)
    requires k <= |s.list|
    ensures Announce(After(h, s), k) == After(h, Announce(s, k))
  {
    assert h.out + s.out + s.list[..k] == h.out + (s.out + s.list[..k]);
  }

  lemma ReleaseAfter(h: History, s: Session)
    ensures ReleaseInOrder(After(h, s)) == After(h, ReleaseInOrder(s))
  {
    hide Announce;
    AnnounceAfter(h, s, RunLen(s.list, s.last));
  }

  lemma LeAfter(h: History, s: Session, q: nat)
    ensures IndicateLe(After(h, s), q) == After(h, IndicateLe(s, q))
  {
    hide Announce;
    AnnounceAfter(h, s, LeLen(s.list, q));
  }

  lemma RefreshAfter(h: History, s: Session)
    ensures Refresh(After(h, s)) == After(h, Refresh(s))
  {
    hide Announce;
    AnnounceAfter(h, s, |s.list|);
  }

  lemma UpAfter(h: History, s: Session, p: Packet)
    ensures After(h, s.(out := s.out + [p])) == After(h, s).(out := After(h, s).out + [p])
    ensures After(h, s.(gone := s.gone + [p])) == After(h, s).(gone := After(h, s).gone + [p])
  {
    assert h.out + s.out + [p] == h.out + (s.out + [p]);
    assert h.gone + s.gone + [p] == h.gone + (s.gone + [p]);
  }

  lemma EnqueueAfter(h: History, s: Session, p: Packet)
    ensures Enqueue(After(h, s), p) == After(h, Enqueue(s, p))
  {
    hide IndicateLe, Insert, IsQueued;
    var t := if s.free > 0 then s.(free := s.free - 1, leaked := s.leaked + 1) else s;
    LeAfter(h, t, p.seqno);
    UpAfter(h, IndicateLe(t, p.seqno), p);
    UpAfter(h, s, p);
  }

  lemma TimeoutAfter(h: History, s: Session, now: nat, hz: nat)
    ensures TimeoutFlush(After(h, s), now, hz) == After(h, TimeoutFlush(s, now, hz))
  {
    hide IndicateLe, ReleaseInOrder, Refresh, FlushKind, Mask;
    RefreshAfter(h, s);
    var q := Mask(s.last + 1);
    LeAfter(h, s, q);
    ReleaseAfter(h, IndicateLe(s, q).(at := now, last := q));
  }

  lemma SlideAfter(h: History, s: Session, p: Packet)
    ensures Slide(After(h, s), p) == After(h, Slide(s, p))
  {
    hide IndicateLe, ReleaseInOrder, Enqueue, WinStart;
    var w := WinStart(p.seqno, s.win);
    LeAfter(h, s, w);
    EnqueueAfter(h, IndicateLe(s, w).(last := w), p);
    ReleaseAfter(h, Enqueue(IndicateLe(s, w).(last := w), p));
  }

  lemma ReceiveAfter(h: History, s: Session, p: Packet)
    ensures Receive(After(h, s), p) == After(h, Receive(s, p))
  {
    hide ReleaseInOrder, Enqueue, Slide, StepOne, Smaller, Mask;
    UpAfter(h, s, p);
    ReleaseAfter(h, s.(last := p.seqno, out := s.out + [p]));
    EnqueueAfter(h, s, p);
    SlideAfter(h, s, p);
  }

  /** A step commutes with what was there before. */
  lemma StepAfter(h: History, s: Session, e: Event, hz: nat)
    ensures Step(After(h, s), e, hz) == After(h, Step(s, e, hz))
  {
    hide TimeoutFlush, Receive, Refresh, IndicateLe, Smaller;
    match e
    case Frame(p, now) =>
      TimeoutAfter(h, s, now, hz);
      ReceiveAfter(h, TimeoutFlush(s, now, hz).(at := now), p);
    case Bar(start) => LeAfter(h, s, start);
    case Timer(now) => TimeoutAfter(h, s, now, hz);
    case Idle => RefreshAfter(h, s);
    case Setup(_) => RefreshAfter(h, s);
    case Pool(_) =>
  }

  lemma {:induction false} RunAfter(h: History, s: Session, es: seq<Event>, hz: nat)
    ensures Run(After(h, s), es, hz) == After(h, Run(s, es, hz))
  {
    hide Step;
    if es != [] {
      RunAfter(h, s, es[..|es| - 1], hz);
      StepAfter(h, Run(s, es[..|es| - 1], hz), es[|es| - 1], hz);
    }
  }

  /** BARecSessionAdd makes any session a fresh one with a past. */
  lemma SetupIsFresh(s: Session, win: nat)
    ensures var t := Install(s, win);
            t == After(History(t.out, t.gone, t.leaked, t.drops), Fresh(win, t.at, t.free))
  {
  }

  /** From its set-up on, what any session passes up is in order, whatever went before and
      whatever other sessions do to the pool, as long as its steps are benign. The labels are
      those the integer machine gives to the same events. */
  lemma InOrderSinceSetup(s: Session, win: nat, es: seq<Event>, hz: nat) returns (out: seq<Announcement>)
    requires 1 <= win <= 255
    requires var t := Install(s, win); BenignRun(Fresh(win, t.at, t.free), es, hz)
    ensures var t := Install(s, win);
            out == MachineRun(Fresh(win, t.at, t.free), FreshMachine(win), es, hz).out
    ensures Ordered(out)
    ensures Run(Install(s, win), es, hz).out == s.out + s.list + Packets(out)
    ensures Window(Run(Install(s, win), es, hz), 2)
  {
    hide Step;
    var t := Install(s, win);
    var c := Fresh(win, t.at, t.free);
    SetupIsFresh(s, win);
    RunAfter(History(t.out, t.gone, t.leaked, t.drops), c, es, hz);
    AnnouncedInOrder(win, t.at, t.free, es, hz);
    ReorderInvariant(win, t.at, t.free, es, hz);
    out := MachineRun(c, FreshMachine(win), es, hz).out;
    assert s.list[..|s.list|] == s.list;
  }
}
