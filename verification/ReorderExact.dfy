/** Benign runs are exactly the runs that keep the reordering invariant, and every run that is
    not benign can be continued to an announcement out of order. */
module ReorderExact {
  import opened Basics
  import opened SeqNum
  import opened ReorderSpec
  import opened ReorderModel
  import opened ReorderOrder
  import opened ReorderTheorems

  /** Set-ups install a window that fits the driver's u8 and is not zero. */
  predicate UsableSetups(es: seq<Event>) {
    forall i :: 0 <= i < |es| && es[i].Setup? ==> 1 <= es[i].win <= 255
  }

  /** A step that is not benign breaks the invariant. */
  lemma BadStepBreaks(c: Session, m: Machine, e: Event, hz: nat)
    requires Image(c, m, 2) && !Benign(c, e, hz) && (e.Setup? ==> 1 <= e.win <= 255)
    ensures e.Frame? && !Window(Step(c, e, hz), 2)
  {
    hide Image, Window, TimeoutFlush, Receive, BypassesInWindow, HasNumber;
    var t, m' := TimeoutFlush(c, e.now, hz), Expire(m, FlushKind(|c.list|, c.at, e.now, hz));
    ImageTimeout(c, m, e.now, hz);
    ImageAt(t, m', e.now);
    AtIrrelevant(t, e.pkt, e.now);
    BypassExactly(t.(at := e.now), m', e.pkt);
  }

  lemma ImageAt(c: Session, m: Machine, now: nat)
    requires Image(c, m, 2)
    ensures Image(c.(at := now), m, 2)
  {
  }

  lemma {:induction false} PrefixBenign(c: Session, es: seq<Event>, hz: nat, k: nat)
    requires BenignRun(c, es, hz) && k <= |es|
    ensures BenignRun(c, es[..k], hz)
    decreases |es|
  {
    if k < |es| {
      PrefixBenign(c, es[..|es| - 1], hz, k);
      assert es[..|es| - 1][..k] == es[..k];
    } else {
      assert es[..k] == es;
    }
  }

  /** The run-level characterisation of the reordering invariant. */
  lemma {:induction false} BenignExactly(win: nat, at: nat, free: nat, es: seq<Event>, hz: nat)
    requires 1 <= win <= 255 && UsableSetups(es)
    ensures BenignRun(Fresh(win, at, free), es, hz) <==>
            forall k :: 0 <= k <= |es| ==> Window(Run(Fresh(win, at, free), es[..k], hz), 2)
  {
    hide Window, Benign, Image, Step;
    var c := Fresh(win, at, free);
    if BenignRun(c, es, hz) {
      forall k | 0 <= k <= |es| ensures Window(Run(c, es[..k], hz), 2) {
        PrefixBenign(c, es, hz, k);
        ReorderInvariant(win, at, free, es[..k], hz);
      }
    } else {
      var n := FirstBad(win, at, free, es, hz);
    }
  }

  /** The first step that is not benign, and what it does to the list. */
  lemma {:induction false} FirstBad(win: nat, at: nat, free: nat, es: seq<Event>, hz: nat) returns (n: nat)
    requires 1 <= win <= 255 && UsableSetups(es) && !BenignRun(Fresh(win, at, free), es, hz)
    ensures n < |es| && es[n].Frame?
    ensures BenignRun(Fresh(win, at, free), es[..n], hz) && !Benign(Run(Fresh(win, at, free), es[..n], hz), es[n], hz)
    ensures !Window(Run(Fresh(win, at, free), es[..n + 1], hz), 2)
    decreases |es|
  {
    hide Window, Benign, Image, Step;
    var c, last := Fresh(win, at, free), |es| - 1;
    if BenignRun(c, es[..last], hz) {
      n := last;
      RunRefines(win, at, free, es[..n], hz);
      BadStepBreaks(Run(c, es[..n], hz), MachineRun(c, FreshMachine(win), es[..n], hz), es[n], hz);
      assert es[..n + 1] == es;
    } else {
      n := FirstBad(win, at, free, es[..last], hz);
      assert es[..last][..n] == es[..n] && es[..last][..n + 1] == es[..n + 1];
    }
  }

  // ---------------------------------------------------------------- order

  /** The time-outs are shorter than half the clock's range, as for every kernel tick rate. */
  predicate ShortTimeouts(hz: nat) { hz < 0x4000_0000_0000_0000 }

  lemma NoFlushYet(s: Session, now: nat, hz: nat)
    requires ShortTimeouts(hz) && s.at == now
    ensures TimeoutFlush(s, now, hz) == s
  {
    hide AdvanceOne, Refresh, LongTimeout, ShortTimeout, TimeAfter;
    TimeoutsAre(hz);
    AfterMeans(now, s.at, LongTimeout(hz));
    AfterMeans(now, s.at, ShortTimeout(hz));
  }

  lemma TimeoutsAre(hz: nat)
    ensures LongTimeout(hz) <= hz && ShortTimeout(hz) <= hz
  {
  }

  /** The next frame in order goes straight up; a head of the list that does not follow it stays. */
  lemma HeadStays(s: Session, p: Packet, now: nat, hz: nat)
    requires ShortTimeouts(hz) && s.at == now && s.last != RESET_RCV_SEQ && s.list != []
    requires StepOne(p.seqno, s.last) && !StepOne(s.list[0].seqno, p.seqno)
    ensures Step(s, Frame(p, now), hz) == s.(last := p.seqno, out := s.out + [p])
  {
    hide LongTimeout, ShortTimeout, TimeoutFlush, StepOne;
    NoFlushYet(s, now, hz);
    assert RunLen(s.list, p.seqno) == 0;
    AnnounceNothing(s.(last := p.seqno, out := s.out + [p]));
  }

  lemma AnnounceNothing(s: Session)
    ensures Announce(s, 0) == s
  {
    assert s.list[..0] == [] && s.out + [] == s.out;
  }

  /** After a step that is not benign the successor of the frame is at the head of the list. */
  lemma StuckSuccessor(c: Session, m: Machine, p: Packet, now: nat, hz: nat)
    requires Image(c, m, 2) && !Benign(c, Frame(p, now), hz)
    ensures var s := Step(c, Frame(p, now), hz);
            && s.at == now && s.last == p.seqno && s.list != [] && s.list[0].seqno == Mask(p.seqno + 1)
            && s.out != [] && s.out[|s.out| - 1] == p
  {
    hide Image, TimeoutFlush, Receive, BypassesInWindow, HasNumber;
    var t, m' := TimeoutFlush(c, now, hz), Expire(m, FlushKind(|c.list|, c.at, now, hz));
    ImageTimeout(c, m, now, hz);
    ImageAt(t, m', now);
    AtIrrelevant(t, p, now);
    StuckAfterBypass(t.(at := now), m', p);
  }

  lemma StuckAfterBypass(c: Session, m: Machine, p: Packet)
    requires Image(c, m, 2) && BypassesInWindow(c, p) && HasNumber(c.list, Mask(p.seqno + 1))
    ensures var s := Receive(c, p);
            && s.at == c.at && s.last == p.seqno && s.list != [] && s.list[0].seqno == Mask(p.seqno + 1)
            && s.out != [] && s.out[|s.out| - 1] == p
  {
    hide Offset, Mask, Smaller, StepOne, Packets, LeLen, Listing, Classify, EmitTo, Store, HasNumber;
    ClassifyIsByDistance(p.seqno, c.last, c.win);
    var n := m.last + Offset(p.seqno, c.last);
    Unwrap(p.seqno, m.last);
    ClassifyInOrder(p.seqno, c.last, c.win);
    ImageStore(c, m, n, p, 2);
    SuccessorQueued(c.list, m.q, m.last + 2, m.last + m.win + 1, n);
    StoreKeeps(m, n, p);
    var s, m' := Receive(c, p), Store(m, n, p, false);
    HeadIsNext(s, m');
    MaskStep(n);
  }

  lemma HeadIsNext(c: Session, m: Machine)
    requires Image(c, m, 1) && m.active && m.last + 1 in m.q
    ensures c.list != [] && c.list[0].seqno == Mask(m.last + 1)
  {
    hide Mask, Listing, Packets;
    RepTail(c.list, m.q, m.last + 1, m.last + m.win + 1);
  }

  /** From every reachable state of a benign run and every step of frame n that is not benign: if
      frames n + 1 and n + 2 follow at once, the copy of n + 1 that was queued is announced after
      n + 2, although the driver's own test puts it before. */
  lemma BadStepDisorders(c: Session, m: Machine, p: Packet, now: nat, hz: nat, a: Packet, b: Packet)
    requires Image(c, m, 2) && !Benign(c, Frame(p, now), hz) && ShortTimeouts(hz)
    requires a.seqno == Mask(p.seqno + 1) && b.seqno == Mask(p.seqno + 2)
    ensures var s := Step(c, Frame(p, now), hz);
            && Step(Step(Step(s, Frame(a, now), hz), Frame(b, now), hz), Idle, hz).out == s.out + [a, b] + s.list
            && s.list != [] && s.list[0].seqno == a.seqno && Smaller(s.list[0].seqno, b.seqno)
  {
    hide Image, Benign, Step, Smaller, Mask, StepOne, ShortTimeouts;
    var s := Step(c, Frame(p, now), hz);
    StuckSuccessor(c, m, p, now, hz);
    Successors(p.seqno, a.seqno, b.seqno);
    HeadStays(s, a, now, hz);
    var s1 := s.(last := a.seqno, out := s.out + [a]);
    HeadStays(s1, b, now, hz);
    var s2 := s1.(last := b.seqno, out := s1.out + [b]);
    IdleOut(s2, hz);
    assert s.out + [a] + [b] == s.out + [a, b];
  }

  lemma Successors(n: Seq12, a: Seq12, b: Seq12)
    requires a == Mask(n + 1) && b == Mask(n + 2)
    ensures StepOne(a, n) && StepOne(b, a) && !StepOne(a, a) && !StepOne(a, b) && Smaller(a, b)
    ensures a != RESET_RCV_SEQ && b != RESET_RCV_SEQ && n != RESET_RCV_SEQ
  {
    hide Smaller, StepOne;
    MaskSmall(n);
    SmallerOfIntegers(n + 1, n);
    SmallerOfIntegers(n + 2, n + 1);
    SmallerOfIntegers(n + 1, n + 1);
    SmallerOfIntegers(n + 1, n + 2);
  }

  lemma IdleOut(s: Session, hz: nat)
    ensures Step(s, Idle, hz).out == s.out + s.list
  {
    assert s.list[..|s.list|] == s.list;
  }

  /** So every run that is not benign has a beginning that, continued by two frames and an idle
      time-out, announces a number after a later one. */
  lemma NotBenignDisorders(win: nat, at: nat, free: nat, es: seq<Event>, hz: nat, idA: nat, idB: nat)
    returns (n: nat, a: Packet, b: Packet)
    requires 1 <= win <= 255 && UsableSetups(es) && ShortTimeouts(hz) && !BenignRun(Fresh(win, at, free), es, hz)
    ensures n < |es| && es[n].Frame? && a.id == idA && b.id == idB
    ensures var c := Fresh(win, at, free);
            var s := Run(c, es[..n + 1], hz);
            && Run(c, es[..n + 1] + [Frame(a, es[n].now), Frame(b, es[n].now)] + [Idle], hz).out
               == s.out + [a, b] + s.list
            && s.list != [] && s.list[0].seqno == a.seqno && Smaller(s.list[0].seqno, b.seqno)
  {
    hide Window, Benign, Image, Step, Mask, Smaller, ShortTimeouts, Fresh, FreshMachine, MachineRun;
    var c := Fresh(win, at, free);
    n := FirstBad(win, at, free, es, hz);
    var p, now, pre := es[n].pkt, es[n].now, es[..n + 1];
    a, b := Packet(idA, Mask(p.seqno + 1), false), Packet(idB, Mask(p.seqno + 2), false);
    RunRefines(win, at, free, es[..n], hz);
    BadStepDisorders(Run(c, es[..n], hz), MachineRun(c, FreshMachine(win), es[..n], hz), p, now, hz, a, b);
    assert pre[..n] == es[..n] && pre[n] == Frame(p, now);
    RunOfTwo(c, pre, Frame(a, now), Frame(b, now), hz);
    var two := pre + [Frame(a, now), Frame(b, now)];
    assert (two + [Idle])[..|two|] == two;
  }
}
