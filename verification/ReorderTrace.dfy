/** How far the state of a session on the heap is the outcome of a run: what has happened to it
    since its set-up, and which part of the shared log it wrote. */
module ReorderTrace {
  import opened Basics
  import opened SeqNum
  import opened ReorderSpec
  import opened ReorderModel
  import opened ReorderOrder
  import opened ReorderTheorems
  import opened ReorderEffects
  import opened ReorderLogs
  import opened ReorderSystem

  /** The life of a session: the window it was set up with, the time and the number of free blocks
      then, its events since, and the length of the log at that point. */
  datatype Life = NoLife | Life(win: nat, at: nat, free: nat, events: seq<Event>, mark: nat)

  /** What belongs to the session alone. */
  function Bare(s: Session): Session {
    s.(free := 0, out := [], gone := [], leaked := 0, drops := 0)
  }

  function LifeRun(l: Life, hz: nat): Session
    requires l.Life?
  {
    Run(Fresh(l.win, l.at, l.free), l.events, hz)
  }

  /** Session k is where its life leads, and announced what its life announces. */
  ghost predicate LeadsTo(s: Session, l: Life, k: nat, log: seq<(nat, Packet)>, hz: nat) {
    l.Life? ==> Bare(s) == Bare(LifeRun(l, hz)) && l.mark <= |log| && Of(log[l.mark..], k) == LifeRun(l, hz).out
  }

  function Lived(l: Life, free: nat, e: Event): Life {
    if l.NoLife? then l else l.(events := l.events + [Pool(free), e])
  }

  /** Session k went from s through e: its life is longer by e, before which it met the free blocks
      of s, and the log by what it announced. No other life changed. */
  ghost predicate Took(lives: seq<Life>, log: seq<(nat, Packet)>, lives': seq<Life>, log': seq<(nat, Packet)>,
                       k: nat, s: Session, e: Event, hz: nat)
  {
    && k < |lives| && lives' == lives[k := Lived(lives[k], s.free, e)]
    && log' == log + Tagged(k, News(s, e, hz))
  }

  /** Session k was set up with a window and is t now: after announcing what s had queued, a life
      without events begins. With window 0 the session is over. */
  ghost predicate Began(lives: seq<Life>, log: seq<(nat, Packet)>, lives': seq<Life>, log': seq<(nat, Packet)>,
                        k: nat, s: Session, t: Session, win: nat)
  {
    && k < |lives| && log' == log + Tagged(k, s.list)
    && lives' == lives[k := if win == 0 then NoLife else Life(win, t.at, t.free, [], |log'|)]
  }

  /** What a set-up announces. */
  lemma SetupNews(s: Session, win: nat, hz: nat)
    ensures News(s, Setup(win), hz) == s.list
  {
    assert s.list[..|s.list|] == s.list;
  }

  function Delivered(log: seq<(nat, Packet)>): (r: seq<Packet>)
    ensures |r| == |log|
  {
    seq(|log|, i requires 0 <= i < |log| => log[i].1)
  }

  lemma DeliveredMore(log: seq<(nat, Packet)>, k: nat, ps: seq<Packet>)
    ensures Delivered(log + Tagged(k, ps)) == Delivered(log) + ps
  {
  }

  /** A step looks at nothing but the session's own state and the number of free blocks. */
  lemma StepBare(s: Session, t: Session, e: Event, hz: nat)
    requires Bare(s) == Bare(t) && s.free == t.free
    ensures Bare(Step(s, e, hz)) == Bare(Step(t, e, hz)) && News(s, e, hz) == News(t, e, hz)
  {
    hide Step;
    var b := s.(out := [], gone := [], leaked := 0, drops := 0);
    var hs, ht := History(s.out, s.gone, s.leaked, s.drops), History(t.out, t.gone, t.leaked, t.drops);
    assert After(hs, b) == s && After(ht, b) == t;
    StepAfter(hs, b, e, hz);
    StepAfter(ht, b, e, hz);
  }

  lemma OfMore(log: seq<(nat, Packet)>, mark: nat, j: nat, ps: seq<Packet>, k: nat)
    requires mark <= |log|
    ensures mark <= |log + Tagged(j, ps)|
    ensures Of((log + Tagged(j, ps))[mark..], k) == Of(log[mark..], k) + if j == k then ps else []
  {
    hide Tagged, Of;
    assert (log + Tagged(j, ps))[mark..] == log[mark..] + Tagged(j, ps);
    OfAppend(log[mark..], Tagged(j, ps), k);
    OfTagged(j, ps, k);
  }

  /** The session's own step. */
  lemma FollowsStep(s: Session, l: Life, k: nat, log: seq<(nat, Packet)>, e: Event, hz: nat)
    requires LeadsTo(s, l, k, log, hz)
    ensures LeadsTo(Step(s, e, hz), Lived(l, s.free, e), k, log + Tagged(k, News(s, e, hz)), hz)
  {
    hide Step, News, Tagged, Of, Fresh, Run;
    if l.Life? {
      var c, r := Fresh(l.win, l.at, l.free), LifeRun(l, hz);
      OfMore(log, l.mark, k, News(s, e, hz), k);
      RunOfTwo(c, l.events, Pool(s.free), e, hz);
      PoolStep(r, s.free, hz);
      StepBare(s, Facing(r, s.free), e, hz);
      StepNews(Facing(r, s.free), e, hz);
    }
  }

  /** The step of another one. */
  lemma FollowsOther(s: Session, t: Session, l: Life, k: nat, log: seq<(nat, Packet)>, j: nat, ps: seq<Packet>, hz: nat)
    requires LeadsTo(s, l, k, log, hz) && Bare(s) == Bare(t) && j != k
    ensures LeadsTo(t, l, k, log + Tagged(j, ps), hz)
  {
    hide Tagged, Of, LifeRun;
    if l.Life? {
      OfMore(log, l.mark, j, ps, k);
      assert Of(log[l.mark..], k) + [] == Of(log[l.mark..], k);
    }
  }

  /** A change outside the session's own state is not seen. */
  lemma FollowsSame(s: Session, t: Session, l: Life, k: nat, log: seq<(nat, Packet)>, hz: nat)
    requires LeadsTo(s, l, k, log, hz) && Bare(s) == Bare(t)
    ensures LeadsTo(t, l, k, log, hz)
  {
  }

  /** A set-up begins a life. */
  lemma FollowsSetup(s: Session, win: nat, k: nat, log: seq<(nat, Packet)>, hz: nat)
    ensures var t := Install(s, win);
            LeadsTo(t, Life(win, t.at, t.free, [], |log|), k, log, hz)
  {
    assert log[|log|..] == [];
  }

  /** The theorems about benign runs, for a session that follows its life. */
  lemma LifeInOrder(s: Session, l: Life, k: nat, log: seq<(nat, Packet)>, hz: nat) returns (out: seq<Announcement>)
    requires LeadsTo(s, l, k, log, hz) && l.Life? && 1 <= l.win <= 255
    requires BenignRun(Fresh(l.win, l.at, l.free), l.events, hz)
    ensures out == MachineRun(Fresh(l.win, l.at, l.free), FreshMachine(l.win), l.events, hz).out
    ensures Ordered(out) && l.mark <= |log| && Packets(out) == Of(log[l.mark..], k)
    ensures Window(s, 2)
  {
    AnnouncedInOrder(l.win, l.at, l.free, l.events, hz);
    ReorderInvariant(l.win, l.at, l.free, l.events, hz);
    out := MachineRun(Fresh(l.win, l.at, l.free), FreshMachine(l.win), l.events, hz).out;
    BareWindow(s, LifeRun(l, hz));
  }

  lemma BareWindow(s: Session, t: Session)
    requires Bare(s) == Bare(t) && Window(t, 2)
    ensures Window(s, 2)
  {
    assert s.last == Bare(s).last && s.list == Bare(s).list && s.win == Bare(s).win;
  }

  // ---------------------------------------------------------------- the time-out flush

  /** What a time-out flush makes of a session does not depend on the others. */
  lemma FlushBare(s: Session, t: Session, now: nat, hz: nat)
    requires Bare(s) == Bare(t)
    ensures Bare(TimeoutFlush(s, now, hz)) == Bare(TimeoutFlush(t, now, hz))
  {
    var u := t.(free := s.free);
    StepBare(s, u, Timer(now), hz);
    FlushFree(t, s.free, now, hz);
  }

  lemma FlushFree(t: Session, free: nat, now: nat, hz: nat)
    ensures Bare(TimeoutFlush(t.(free := free), now, hz)) == Bare(TimeoutFlush(t, now, hz))
    ensures TimeoutFlush(t.(free := free), now, hz).out == TimeoutFlush(t, now, hz).out
  {
    hide AdvanceOne, Announce, FlushKind;
    AdvanceFree(t, free, now);
    AnnounceFree(t, free, |t.list|);
  }

  lemma AnnounceFree(t: Session, free: nat, k: nat)
    requires k <= |t.list|
    ensures Announce(t.(free := free), k) == Announce(t, k).(free := free + k)
  {
  }

  lemma AdvanceFree(t: Session, free: nat, now: nat)
    ensures Facing(AdvanceOne(t.(free := free), now), 0) == Facing(AdvanceOne(t, now), 0)
  {
    hide Announce, LeLen, RunLen, Mask;
    var q := Mask(t.last + 1);
    var n := LeLen(t.list, q);
    AnnounceFree(t, free, n);
    var u := IndicateLe(t, q).(at := now, last := q);
    AnnounceFree(u, free + n, RunLen(u.list, u.last));
  }

  /** Nor does what it announces. */
  lemma FlushNews(s: Session, t: Session, now: nat, hz: nat)
    requires Bare(s) == Bare(t)
    ensures News(s, Timer(now), hz) == News(t, Timer(now), hz)
  {
    hide TimeoutFlush;
    FlushFree(t.(out := [], gone := [], leaked := 0, drops := 0), s.free, now, hz);
    assert s.(out := [], gone := [], leaked := 0, drops := 0)
        == t.(out := [], gone := [], leaked := 0, drops := 0).(free := s.free) by { BareIs(s, t); }
  }

  lemma BareIs(s: Session, t: Session)
    requires Bare(s) == Bare(t)
    ensures s.last == t.last && s.at == t.at && s.win == t.win && s.list == t.list
  {
    assert s.last == Bare(s).last && s.at == Bare(s).at && s.win == Bare(s).win && s.list == Bare(s).list;
  }

  /** A life that met its timer, with however many blocks free then. */
  ghost predicate TimedOut(l: Life, l': Life, now: nat) {
    if l.NoLife? then l' == l
    else
      var n := |l.events|;
      l'.Life? && |l'.events| == n + 2 && l'.events[n].Pool? && l' == Lived(l, l'.events[n].free, Timer(now))
  }

  lemma TimedOutNow(l: Life, free: nat, now: nat)
    ensures TimedOut(l, Lived(l, free, Timer(now)), now)
  {
  }

  /** Where all sessions are, what has happened to them, and what went up. */
  datatype Point = Point(views: seq<Session>, lives: seq<Life>, log: seq<(nat, Packet)>)

  /** Session v with life l has become s with life l', and announced `news`: all that a time-out flush
      does if one was made, and nothing otherwise. */
  ghost predicate FlushedFrom(done: bool, v: Session, l: Life, s: Session, l': Life, news: seq<Packet>,
                              now: nat, hz: nat)
  {
    && Bare(s) == (if done then Bare(TimeoutFlush(v, now, hz)) else Bare(v))
    && (if done then TimedOut(l, l', now) else l' == l)
    && news == if done then News(v, Timer(now), hz) else []
  }

  lemma FlushNow(v: Session, l: Life, s: Session, l': Life, now: nat, hz: nat)
    requires FlushedFrom(false, v, l, s, l', [], now, hz)
    ensures FlushedFrom(true, v, l, TimeoutFlush(s, now, hz), Lived(l', s.free, Timer(now)), News(s, Timer(now), hz),
                        now, hz)
  {
    hide TimeoutFlush, Bare, News, TimedOut, Lived;
    FlushBare(s, v, now, hz);
    FlushNews(s, v, now, hz);
    TimedOutNow(l, s.free, now);
  }

  /** The same in elapsed time: session v was given time until now, and has announced `news`. */
  ghost predicate Tended(v: Session, s: Session, news: seq<Packet>, now: nat, hz: nat) {
    Good(v) && Clock(v.at, now, hz) ==>
      exists k: nat, u: Session :: Waited(v, now, hz, k, u) && Bare(u) == Bare(s) && u.out == v.out + news
  }

  lemma FlushedTended(v: Session, l: Life, s: Session, l': Life, news: seq<Packet>, now: nat, hz: nat)
    requires FlushedFrom(true, v, l, s, l', news, now, hz)
    ensures Tended(v, s, news, now, hz)
  {
    hide Waited, Good, News, TimeoutFlush, Bare;
    if Good(v) && Clock(v.at, now, hz) {
      var k := TimerEffect(v, now, hz);
      StepNews(v, Timer(now), hz);
      var u := Step(v, Timer(now), hz);
      assert Waited(v, now, hz, k, u) && Bare(u) == Bare(s) && u.out == v.out + news;
    }
  }

  lemma FlushedSame(done: bool, v: Session, l: Life, s: Session, t: Session, l': Life, news: seq<Packet>,
                    now: nat, hz: nat)
    requires FlushedFrom(done, v, l, s, l', news, now, hz) && Bare(s) == Bare(t)
    ensures FlushedFrom(done, v, l, t, l', news, now, hz)
  {
  }

  /** Session v with life l has become s with life l', and announced `news`: its end if it was torn
      down, and nothing otherwise. */
  ghost predicate EndedFrom(done: bool, v: Session, l: Life, s: Session, l': Life, news: seq<Packet>) {
    if done then s.list == [] && l' == NoLife && news == v.list
    else Bare(s) == Bare(v) && l' == l && news == []
  }

  /** A flush of an empty list. */
  lemma FlushNothing(s: Session, now: nat, hz: nat)
    requires s.list == []
    ensures TimeoutFlush(s, now, hz) == s && News(s, Timer(now), hz) == []
  {
  }
}
