/** The driver's entry points over both halves: session tables and reordering entries. */
module Adapter {
  import opened Basics
  import opened SeqNum
  import opened ReorderSpec
  import opened ReorderList
  import opened ReorderEngine
  import opened BaLinks
  import opened BaTableSpec
  import opened BaSessions
  import opened BlockAck
  import opened ReorderModel
  import opened ReorderOrder
  import opened ReorderTheorems
  import opened ReorderSystem
  import opened ReorderTrace
  import opened ReorderEffects

  const REC_BA_SESSION_IDLE_TIMEOUT := 1000
  const FRAME_BA_REQ_SIZE := 20

  /** An accepted session of station w with a TID below t. */
  predicate Ended(e: RecSession, w: nat, t: nat) {
    e.status == Accept && e.wcid == w && e.tid < t
  }

  /** Between two points the recipient sessions of station w with TIDs below t were torn down, and
      nothing happened to the other ones. */
  ghost predicate Torn(rec: seq<RecSession>, r: Point, rec': seq<RecSession>, c: Point, w: nat, t: nat) {
    && |rec| == |rec'| == |r.views| == |r.lives| == |c.views| == |c.lives| && r.log <= c.log
    && forall k :: 0 <= k < |rec| ==> TornAt(k, rec, r, rec', c, w, t)
  }

  ghost predicate TornAt(k: nat, rec: seq<RecSession>, r: Point, rec': seq<RecSession>, c: Point, w: nat, t: nat)
    requires |rec| == |rec'| == |r.views| == |r.lives| == |c.views| == |c.lives| && r.log <= c.log && k < |rec|
  {
    && rec'[k] == (if Ended(rec[k], w, t) then rec[k].(status := RecNone) else rec[k])
    && EndedFrom(Ended(rec[k], w, t), r.views[k], r.lives[k], c.views[k], c.lives[k], Of(c.log[|r.log|..], k))
  }

  lemma TornNothing(rec: seq<RecSession>, r: Point, w: nat)
    requires |rec| == |r.views| == |r.lives|
    ensures Torn(rec, r, rec, r, w, 0)
  {
    assert r.log[|r.log|..] == [];
  }

  /** No session at TID t. */
  lemma TornNone(rec: seq<RecSession>, r: Point, rec': seq<RecSession>, c: Point, w: nat, t: nat)
    requires Torn(rec, r, rec', c, w, t)
    requires forall j :: 0 <= j < |rec'| ==> !(Ended(rec'[j], w, t + 1) && !Ended(rec'[j], w, t))
    ensures Torn(rec, r, rec', c, w, t + 1)
  {
    hide EndedFrom, Of;
    var u := t + 1;
    forall k | 0 <= k < |rec| ensures TornAt(k, rec, r, rec', c, w, u) {
      assert TornAt(k, rec, r, rec', c, w, t);
    }
  }

  /** Session k at TID t. */
  lemma TornOne(rec: seq<RecSession>, r: Point, rec': seq<RecSession>, c: Point, d: Point, w: nat, t: nat, k: nat)
    requires Torn(rec, r, rec', c, w, t) && k < |rec'| == |d.views| == |d.lives| && rec'[k] == RecSession(Accept, w, t)
    requires forall j :: 0 <= j < |rec'| && Ended(rec'[j], w, t + 1) && !Ended(rec'[j], w, t) ==> j == k
    requires Began(c.lives, c.log, d.lives, d.log, k, c.views[k], d.views[k], 0) && d.views[k].list == []
    requires forall j :: 0 <= j < |rec'| && j != k ==> Bare(d.views[j]) == Bare(c.views[j])
    ensures Torn(rec, r, rec'[k := rec'[k].(status := RecNone)], d, w, t + 1)
  {
    hide Of, Tagged, Bare;
    var u, after := t + 1, rec'[k := rec'[k].(status := RecNone)];
    forall j | 0 <= j < |rec| ensures TornAt(j, rec, r, after, d, w, u) {
      assert TornAt(j, rec, r, rec', c, w, t);
      OfMore(c.log, |r.log|, k, c.views[k].list, j);
      assert Of(c.log[|r.log|..], j) + [] == Of(c.log[|r.log|..], j);
      if j == k {
        SameList(r.views[k], c.views[k]);
      } else {
        SameList(d.views[j], c.views[j]);
      }
    }
  }

  lemma SameList(s: Session, t: Session)
    ensures Bare(s) == Bare(t) ==> s.list == t.list && [] + s.list == s.list
  {
    if Bare(s) == Bare(t) {
      BareIs(s, t);
    }
  }

  lemma TornAll(rec: seq<RecSession>, r: Point, rec': seq<RecSession>, c: Point, w: nat, t: nat)
    requires Torn(rec, r, rec', c, w, t) && (t != 0 ==> t == NUM_OF_TID)
    requires forall k :: 0 <= k < |rec| && rec[k].status == Accept ==> rec[k].tid < NUM_OF_TID
    ensures |rec| == |rec'| == |r.views| == |r.lives| == |c.views| == |c.lives| && r.log <= c.log
    ensures forall k :: 0 <= k < |rec| ==>
              var done := t != 0 && rec[k].status == Accept && rec[k].wcid == w;
              && rec'[k] == (if done then rec[k].(status := RecNone) else rec[k])
              && EndedFrom(done, r.views[k], r.lives[k], c.views[k], c.lives[k], Of(c.log[|r.log|..], k))
  {
    hide EndedFrom, Of;
    forall k | 0 <= k < |rec|
      ensures var done := t != 0 && rec[k].status == Accept && rec[k].wcid == w;
              && rec'[k] == (if done then rec[k].(status := RecNone) else rec[k])
              && EndedFrom(done, r.views[k], r.lives[k], c.views[k], c.lives[k], Of(c.log[|r.log|..], k))
    {
      assert TornAt(k, rec, r, rec', c, w, t);
    }
  }

  class Driver {
    const tab: BaTable
    const recv: Receiver
    const rxLimit: nat    // CommonCfg.BACapability.field.RxBAWinLimit
    ghost var lives: seq<Life>            // of the session of each recipient entry
    ghost var log: seq<(nat, Packet)>     // what went up, and from which entry
    ghost var released: bool              // ba_reordering_resource_release has begun

    ghost predicate Separate()
      reads {}
    {
      && {tab, tab.ori, tab.rec, tab.sta, recv, this} !! recv.repr
      && |recv.entries| == tab.rec.Length && tab.ori.Length <= tab.rec.Length
    }

    /** An entry without a session queues nothing; one with a session has a usable window, and a
        life that began with its set-up. */
    ghost predicate Coupled()
      requires Separate() && recv.Placed()
      reads this, tab.rec, recv.repr
    {
      |lives| == tab.rec.Length &&
      forall i :: 0 <= i < tab.rec.Length ==>
        (tab.rec[i].status == RecNone ==> recv.entries[i].list.nodes == [] && lives[i] == NoLife) &&
        (tab.rec[i].status == Accept ==> 1 <= recv.entries[i].win <= 255) &&
        (tab.rec[i].status == Accept && !released ==> lives[i].Life? && 1 <= lives[i].win <= 255)
    }

    /** Every session is where its life leads, and the log is what went up. */
    ghost predicate Traced()
      requires Separate() && recv.Valid()
      reads this, recv, recv.repr
    {
      && |lives| == |recv.entries| && Delivered(log) == recv.rx.delivered
      && forall k :: 0 <= k < |recv.entries| ==> FollowsAt(k)
    }

    ghost predicate FollowsAt(k: nat)
      requires Separate() && recv.Valid() && k < |recv.entries| == |lives|
      reads this, recv, recv.repr
    {
      LeadsTo(View(k), lives[k], k, log, recv.rx.hz)
    }

    ghost predicate Valid()
      reads this, tab, tab.ori, tab.rec, tab.sta, recv, recv.repr
    {
      Separate() && tab.Valid() && recv.Valid() && Coupled() && Traced()
    }

    constructor (num: nat, nOri: nat, nRec: nat, peers: seq<Peer>, chip: Chip, txLimit: nat, rxLimit: nat, hz: nat)
      requires 1 <= nOri <= nRec
      ensures Valid() && recv.total == num && recv.given == multiset{} && !released
      ensures log == [] && forall k :: 0 <= k < |lives| ==> lives[k] == NoLife
    {
      hide Valid, Coupled, Traced, BaTable.Valid, Receiver.Valid, Receiver.Placed;
      this.rxLimit := rxLimit;
      recv := new Receiver(num, nRec, hz);
      tab := new BaTable(nOri, nRec, peers, chip, txLimit);
      lives, log, released := seq(nRec, _ => NoLife), [], false;
      new;
      AtStart();
    }

    /** No sessions, nothing received. */
    lemma AtStart()
      requires Separate() && tab.Valid() && recv.Valid() && |lives| == tab.rec.Length
      requires forall i :: 0 <= i < tab.rec.Length ==>
                 lives[i] == NoLife && tab.rec[i].status == RecNone && recv.entries[i].list.nodes == []
      requires log == [] && recv.rx.delivered == []
      ensures Valid()
    {
      hide BaTable.Valid, Receiver.Valid, RecEntry.View;
      PlacedNow();
      assert forall k :: 0 <= k < |recv.entries| ==> FollowsAt(k);
    }

    /** The session of entry k. */
    ghost function View(k: nat): Session
      requires recv.Valid() && k < |recv.entries|
      reads recv, recv.repr
    {
      recv.entries[k].View(recv.rx)
    }

    /** The index a (station, TID) pair leads to; a non-zero one that the slot array has a place for
        is an accepted session's. */
    lemma Leads(w: nat, t: nat)
      requires Separate() && tab.Valid() && w < tab.sta.Length && t < TID_SPACE
      ensures var k := RecAt(tab.sta[w], t);
              && |tab.sta[w].rec| == NUM_OF_TID && k < tab.rec.Length
                   && (tab.rec[k].status == Accept || tab.rec[k].status == RecNone)
              && (t < NUM_OF_TID ==> k == RecSlots(tab.sta[..])[w][t])
              && (t < NUM_OF_TID && k != 0 ==> tab.rec[k] == RecSession(Accept, w, t) && t in tab.sta[w].rx)
      ensures tab.rec[0].status == RecNone
    {
      hide OriTable, RecTable, OriSlots, RecSlots, RequestsOk, Linked;
      tab.OriSlotsOf(w);
      tab.RecSlotsOf(w);
      tab.RecStatuses();
    }

    // -------------------------------------------------------------- keeping the trace

    /** Work on entry k leaves the other entries as they were. */
    twostate lemma AfterAt(k: nat)
      requires old(Valid()) && recv.Valid() && k < |recv.entries|
      requires unchanged(tab) && unchanged(tab.ori) && unchanged(tab.rec) && unchanged(tab.sta) && unchanged(this)
      requires forall j :: 0 <= j < |recv.entries| && j != k ==> recv.Same(j)
      requires tab.rec[k].status == Accept ==> recv.entries[k].win == old(recv.entries[k].win)
      ensures Separate() && tab.Valid() && |lives| == |recv.entries| && recv.Placed()
      ensures Coupled() <==> (tab.rec[k].status == RecNone ==> recv.entries[k].list.nodes == [])
      ensures forall j :: 0 <= j < |recv.entries| && j != k ==> FollowsAt(j)
    {
      hide BaTable.Valid, Receiver.Valid, FollowsAt;
      assert Separate();
      OthersLength(k);
      OthersFollow(k);
      TableKept();
    }

    twostate lemma OthersLength(k: nat)
      requires k < |recv.entries| && forall j :: 0 <= j < |recv.entries| && j != k ==> recv.Same(j)
      ensures recv.Valid() ==> recv.Placed()
      ensures forall j :: 0 <= j < |recv.entries| && j != k ==>
                recv.entries[j].win == old(recv.entries[j].win)
                  && recv.entries[j].list.nodes == old(recv.entries[j].list.nodes)
    {
      hide Receiver.Apart, Receiver.AllReady, Receiver.PoolLaw, Receiver.PacketLaw;
      forall j | 0 <= j < |recv.entries| && j != k
        ensures recv.entries[j].win == old(recv.entries[j].win)
                && recv.entries[j].list.nodes == old(recv.entries[j].list.nodes)
      {
        assert recv.Same(j);
      }
    }

    /** The other sessions follow their lives as before. */
    twostate lemma OthersFollow(k: nat)
      requires old(Separate() && recv.Valid() && Traced()) && Separate() && recv.Valid() && k < |recv.entries|
      requires lives == old(lives) && log == old(log)
      requires forall j :: 0 <= j < |recv.entries| && j != k ==> recv.Same(j)
      ensures |lives| == |recv.entries| && Delivered(log) == old(recv.rx.delivered)
      ensures forall j :: 0 <= j < |recv.entries| && j != k ==> FollowsAt(j)
    {
      hide Receiver.Valid, LeadsTo;
      forall j | 0 <= j < |recv.entries| && j != k ensures FollowsAt(j) {
        assert old(FollowsAt(j));
        SameBare(j);
        FollowsSame(old(View(j)), View(j), lives[j], j, log, recv.rx.hz);
      }
    }

    twostate lemma SameBare(j: nat)
      requires old(recv.Valid()) && recv.Valid() && j < |recv.entries| && recv.Same(j)
      ensures Bare(View(j)) == Bare(old(View(j)))
    {
      hide Receiver.Valid;
      recv.ListKept(j);
    }

    /** Session k lived through e, from s on. */
    ghost method Record(k: nat, e: Event, s: Session)
      requires Separate() && recv.Valid() && k < |recv.entries| == |lives| && Delivered(log) == s.out
      requires LeadsTo(s, lives[k], k, log, recv.rx.hz) && View(k) == Step(s, e, recv.rx.hz)
      requires forall j :: 0 <= j < |recv.entries| && j != k ==> FollowsAt(j)
      modifies this`lives, this`log
      ensures Traced() && recv.Placed() && (Coupled() <==> old(Coupled()))
      ensures Took(old(lives), old(log), lives, log, k, s, e, recv.rx.hz)
    {
      hide Receiver.Valid, LeadsTo, Step, News;
      var news := News(s, e, recv.rx.hz);
      FollowsStep(s, lives[k], k, log, e, recv.rx.hz);
      OthersSee(k, k, news);
      StepNews(s, e, recv.rx.hz);
      DeliveredMore(log, k, news);
      LogOf(k);
      PlacedNow();
      lives := lives[k := Lived(lives[k], s.free, e)];
      log := log + Tagged(k, news);
    }

    /** Session k was set up, and a life began, or ended. */
    ghost method RecordSetup(k: nat, win: nat, s: Session)
      requires Separate() && recv.Valid() && k < |recv.entries| == |lives| && Delivered(log) == s.out
      requires View(k) == ReorderSpec.Install(s, win)
      requires forall j :: 0 <= j < |recv.entries| && j != k ==> FollowsAt(j)
      modifies this`lives, this`log
      ensures Traced() && Began(old(lives), old(log), lives, log, k, s, View(k), win)
    {
      hide Receiver.Valid, News;
      var news := News(s, Setup(win), recv.rx.hz);
      OthersSee(k, k, news);
      StepNews(s, Setup(win), recv.rx.hz);
      SetupNews(s, win, recv.rx.hz);
      DeliveredMore(log, k, news);
      FollowsSetup(s, win, k, log + Tagged(k, news), recv.rx.hz);
      hide LeadsTo, ReorderSpec.Install;
      LogOf(k);
      log := log + Tagged(k, news);
      lives := lives[k := if win == 0 then NoLife else Life(win, View(k).at, View(k).free, [], |log|)];
      NoLifeFollows(View(k), k, log, recv.rx.hz);
    }

    lemma NoLifeFollows(s: Session, k: nat, log: seq<(nat, Packet)>, hz: nat)
      ensures LeadsTo(s, NoLife, k, log, hz)
    {
    }

    /** What entry j adds to the log is not seen by the sessions other than k and j. */
    lemma OthersSee(k: nat, j: nat, news: seq<Packet>)
      requires Separate() && recv.Valid() && |recv.entries| == |lives|
      requires forall i :: 0 <= i < |recv.entries| && i != k ==> FollowsAt(i)
      ensures forall i :: 0 <= i < |recv.entries| && i != k && i != j ==>
                LeadsTo(View(i), lives[i], i, log + Tagged(j, news), recv.rx.hz)
    {
      hide Receiver.Valid, LeadsTo, Tagged;
      forall i | 0 <= i < |recv.entries| && i != k && i != j
        ensures LeadsTo(View(i), lives[i], i, log + Tagged(j, news), recv.rx.hz)
      {
        assert FollowsAt(i);
        FollowsOther(View(i), View(i), lives[i], i, log, j, news, recv.rx.hz);
      }
    }

    /** The run-level results, about the lists on the heap and the packets that really went up: as
        long as the frames of a session's life are benign, its list satisfies the reordering
        invariant, and what it put into the log is in order under the integer machine's labels. */
    lemma SessionInOrder(k: nat) returns (out: seq<Announcement>)
      requires Valid() && !released && k < tab.rec.Length && tab.rec[k].status == Accept
      requires |lives| == tab.rec.Length && lives[k].Life?
      requires var l := lives[k]; BenignRun(Fresh(l.win, l.at, l.free), l.events, recv.rx.hz)
      ensures var l := lives[k];
              && out == MachineRun(Fresh(l.win, l.at, l.free), FreshMachine(l.win), l.events, recv.rx.hz).out
              && Ordered(out) && l.mark <= |log| && Packets(out) == Of(log[l.mark..], k)
      ensures Delivered(log) == recv.rx.delivered
      ensures Window(View(k), 2)
    {
      hide BaTable.Valid, Receiver.Valid, LeadsTo, BenignRun, Fresh, Window, RecEntry.View;
      assert FollowsAt(k);
      out := LifeInOrder(View(k), lives[k], k, log, recv.rx.hz);
    }

    twostate lemma TableKept()
      requires unchanged(tab) && unchanged(tab.ori) && unchanged(tab.rec) && unchanged(tab.sta)
      ensures old(tab.Valid()) ==> tab.Valid()
    {
    }

    lemma WinOf(k: nat)
      requires recv.Valid() && k < |recv.entries|
      ensures View(k).win == recv.entries[k].win && View(k).at == recv.entries[k].at
    {
    }

    lemma PlacedNow()
      requires recv.Valid()
      ensures recv.Placed() && recv.Apart() && recv.rx in recv.repr
      ensures forall i :: 0 <= i < |recv.entries| ==>
                recv.entries[i] in recv.repr && recv.entries[i].list in recv.repr
                && recv.entries[i] as object != recv.rx && recv.entries[i].list as object != recv.rx
    {
    }

    lemma ListOf(k: nat)
      requires recv.Valid() && k < |recv.entries|
      ensures |View(k).list| == |recv.entries[k].list.nodes|
    {
    }

    lemma LogOf(k: nat)
      requires recv.Valid() && k < |recv.entries|
      ensures View(k).out == recv.rx.delivered && View(k).gone == recv.rx.dropped && View(k).win == recv.entries[k].win
    {
    }

    // -------------------------------------------------------------- frames and timers

    /** Indicate_AMPDU_Packet. A frame of a torn-down session goes straight up. A TID beyond the
        slot array leads to the entry some originator slot names; if that one has no session, the
        frame may stay in a list that nobody owns. */
    method Indicate(w: nat, t: nat, p: Packet, oversize: bool, now: nat)
      requires Valid() && t < TID_SPACE
      modifies recv`given, recv.repr, this`lives, this`log
      ensures Separate() && tab.Valid() && recv.Valid() && recv.Placed() && Traced()
      ensures recv.given == old(recv.given) + multiset{p}
      ensures oversize || w >= tab.sta.Length ==>
                Valid() && recv.rx.dropped == old(recv.rx.dropped) + [p] && lives == old(lives) && log == old(log)
      ensures !oversize && w < tab.sta.Length ==>
                var k := RecAt(tab.sta[w], t);
                && k < |recv.entries| == tab.rec.Length
                && if k == 0 then
                     && Valid() && recv.rx.delivered == old(recv.rx.delivered) + [p]
                     && lives == old(lives) && log == old(log) + [(|recv.entries|, p)]
                   else
                     && View(k) == ReorderSpec.Indicate(old(View(k)), p, now, recv.rx.hz)
                     && Took(old(lives), old(log), lives, log, k, old(View(k)), Frame(p, now), recv.rx.hz)
                     && recv.entries[k].at == now
                     && (forall j :: 0 <= j < |recv.entries| && j != k ==> recv.Same(j))
                     && (Valid() <==> tab.rec[k].status == Accept || recv.entries[k].list.nodes == [])
                     && (t < NUM_OF_TID ==> Valid())
    {
      hide BaTable.Valid, Receiver.Valid, RecEntry.View, ReorderSpec.Indicate, Coupled, Traced, OriSlots, RecSlots;
      PlacedNow();
      if oversize || w >= tab.sta.Length {
        Direct(p, false);
      } else {
        Leads(w, t);
        var k := RecAt(tab.sta[w], t);
        if k == 0 {
          Direct(p, true);
        } else {
          IndicateAt(k, p, now);
        }
      }
    }

    method Direct(p: Packet, up: bool)
      requires Valid()
      modifies recv`given, recv.rx`delivered, recv.rx`dropped, this`log
      ensures Valid() && recv.Placed() && recv.given == old(recv.given) + multiset{p}
      ensures recv.rx.delivered == old(recv.rx.delivered) + (if up then [p] else [])
      ensures recv.rx.dropped == old(recv.rx.dropped) + (if up then [] else [p])
      ensures lives == old(lives) && log == old(log) + (if up then [(|recv.entries|, p)] else [])
    {
      hide BaTable.Valid, Receiver.Valid, LeadsTo, RecEntry.View;
      assert recv.Placed() && recv.rx in recv.repr by { PlacedNow(); }
      recv.Direct(p, up);
      TableKept();
      assert Coupled() by { PlacedNow(); }
      ghost var n := |recv.entries|;
      DirectFollow();
      OthersSee(n, n, if up then [p] else []);
      DeliveredMore(log, n, if up then [p] else []);
      log := log + Tagged(n, if up then [p] else []);
      assert Tagged(n, if up then [p] else []) == if up then [(n, p)] else [];
      assert Traced();
    }

    twostate lemma DirectFollow()
      requires old(Separate() && recv.Valid() && Traced()) && Separate() && recv.Valid()
      requires lives == old(lives) && log == old(log) && forall o :: o in recv.repr && o != recv.rx ==> unchanged(o)
      ensures |lives| == |recv.entries|
      ensures forall j :: 0 <= j < |recv.entries| ==> FollowsAt(j)
    {
      hide Receiver.Valid, LeadsTo;
      forall j | 0 <= j < |recv.entries| ensures FollowsAt(j) {
        assert old(FollowsAt(j));
        recv.ListKeptQuiet(j);
        PlacedNow();
        FollowsSame(old(View(j)), View(j), lives[j], j, log, recv.rx.hz);
      }
    }

    method IndicateAt(k: nat, p: Packet, now: nat)
      requires Valid() && k < tab.rec.Length && (tab.rec[k].status == Accept || tab.rec[k].status == RecNone)
      modifies recv`given, recv.repr, this`lives, this`log
      ensures Separate() && tab.Valid() && recv.Valid() && recv.Placed() && Traced()
      ensures Valid() <==> tab.rec[k].status == Accept || recv.entries[k].list.nodes == []
      ensures recv.given == old(recv.given) + multiset{p}
      ensures View(k) == ReorderSpec.Indicate(old(View(k)), p, now, recv.rx.hz)
      ensures Took(old(lives), old(log), lives, log, k, old(View(k)), Frame(p, now), recv.rx.hz)
      ensures recv.entries[k].at == now
      ensures forall j :: 0 <= j < |recv.entries| && j != k ==> recv.Same(j)
    {
      hide BaTable.Valid, Receiver.Valid, RecEntry.View, ReorderSpec.Indicate, LeadsTo, Coupled;
      ghost var s := View(k);
      assert FollowsAt(k);
      LogOf(k);
      IndicateWindow(s, p, now, recv.rx.hz);
      IndicateTimer(s, p, now, recv.rx.hz);
      recv.IndicateAt(k, p, now);
      WinOf(k);
      AfterAt(k);
      Record(k, Frame(p, now), s);
    }

    /** CntlEnqueueForRecv. Without a session the request lands on the reserved entry 0. */
    method BlockAckReq(w: nat, t: nat, start: Seq12, halted: bool, msgLen: nat) returns (ok: bool)
      requires Valid() && t < TID_SPACE
      modifies recv.repr, this`lives, this`log
      ensures Valid() && recv.Placed()
      ensures ok <==> !halted && msgLen == 20 && w < tab.sta.Length && t < NUM_OF_TID
      ensures !ok ==> unchanged(recv.repr) && log == old(log) && lives == old(lives)
      ensures ok ==>
                var k := RecSlots(tab.sta[..])[w][t];
                && k < |recv.entries|
                && View(k) == ReorderSpec.BlockAckReq(old(View(k)), start)
                && Took(old(lives), old(log), lives, log, k, old(View(k)), Bar(start), recv.rx.hz)
                && forall j :: 0 <= j < |recv.entries| && j != k ==> recv.Same(j)
    {
      hide BaTable.Valid, Receiver.Valid, RecEntry.View, ReorderSpec.BlockAckReq, Coupled, Traced, OriSlots, RecSlots;
      PlacedNow();
      if halted || msgLen != FRAME_BA_REQ_SIZE {
        return false;
      }
      if w >= tab.sta.Length || t >= NUM_OF_TID {
        return false;
      }
      Leads(w, t);
      var k := tab.sta[w].rec[t];
      BarAt(k, start);
      ok := true;
    }

    method BarAt(k: nat, start: Seq12)
      requires Valid() && k < tab.rec.Length && (tab.rec[k].status == Accept || tab.rec[k].status == RecNone)
      modifies recv.repr, this`lives, this`log
      ensures Valid() && recv.Placed() && View(k) == ReorderSpec.BlockAckReq(old(View(k)), start)
      ensures Took(old(lives), old(log), lives, log, k, old(View(k)), Bar(start), recv.rx.hz)
      ensures forall j :: 0 <= j < |recv.entries| && j != k ==> recv.Same(j)
    {
      hide BaTable.Valid, Receiver.Valid, RecEntry.View, ReorderSpec.BlockAckReq, LeadsTo, TimeoutFlush,
        ReorderSpec.Indicate;
      ghost var s := View(k);
      assert FollowsAt(k);
      LogOf(k);
      ListOf(k);
      WindowKept(s, Bar(start), recv.rx.hz);
      BarEmpty(s, start);
      recv.BarAt(k, start);
      WinOf(k);
      ListOf(k);
      AfterAt(k);
      Record(k, Bar(start), s);
    }

    lemma BarEmpty(s: Session, start: Seq12)
      ensures s.list == [] ==> ReorderSpec.BlockAckReq(s, start).list == []
    {
    }

    method FlushAt(k: nat, now: nat)
      requires Valid() && k < tab.rec.Length && (tab.rec[k].status == Accept || tab.rec[k].status == RecNone)
      modifies recv.repr, this`lives, this`log
      ensures Valid() && recv.Placed()
      ensures View(k) == TimeoutFlush(old(View(k)), now, recv.rx.hz)
      ensures Took(old(lives), old(log), lives, log, k, old(View(k)), Timer(now), recv.rx.hz)
      ensures forall j :: 0 <= j < |recv.entries| && j != k ==> recv.Same(j)
      ensures recv.rx.dropped == old(recv.rx.dropped) && DropCounts() == old(DropCounts())
    {
      hide BaTable.Valid, Receiver.Valid, RecEntry.View, TimeoutFlush, LeadsTo, ReorderSpec.Indicate,
        ReorderSpec.BlockAckReq;
      ghost var s := View(k);
      assert FollowsAt(k);
      LogOf(k);
      ListOf(k);
      WindowKept(s, Timer(now), recv.rx.hz);
      TimerEmpty(s, now, recv.rx.hz);
      recv.FlushAt(k, now);
      WinOf(k);
      FlushDrops(s, now, recv.rx.hz);
      PlacedNow();
      DropsKept(k);
      ListOf(k);
      AfterAt(k);
      Record(k, Timer(now), s);
    }

    /** nDropPacket of each entry. */
    ghost function DropCounts(): (r: seq<nat>)
      requires recv.Placed()
      reads recv, recv.repr
      ensures |r| == |recv.entries| && forall k :: 0 <= k < |r| ==> r[k] == recv.entries[k].nDrop
    {
      seq(|recv.entries|, k requires 0 <= k < |recv.entries| reads recv.repr => recv.entries[k].nDrop)
    }

    lemma FlushDrops(s: Session, now: nat, hz: nat)
      ensures TimeoutFlush(s, now, hz).gone == s.gone && TimeoutFlush(s, now, hz).drops == s.drops
    {
    }

    twostate lemma DropsKept(k: nat)
      requires old(recv.Valid()) && recv.Valid() && k < |recv.entries| && recv.Placed()
      requires View(k).gone == old(View(k)).gone && View(k).drops == old(View(k)).drops
      requires forall j :: 0 <= j < |recv.entries| && j != k ==> recv.Same(j)
      ensures recv.rx.dropped == old(recv.rx.dropped) && DropCounts() == old(DropCounts())
    {
      hide Receiver.Valid;
      forall j | 0 <= j < |recv.entries| ensures recv.entries[j].nDrop == old(recv.entries[j].nDrop) {
        if j != k {
          assert recv.Same(j);
        }
      }
    }

    lemma TimerEmpty(s: Session, now: nat, hz: nat)
      ensures s.list == [] ==> TimeoutFlush(s, now, hz) == s
    {
    }

    /** BARecSessionIdleTimeout */
    method IdleTimeout(k: nat, now: nat)
      requires Valid() && k < tab.rec.Length
      modifies recv.repr, this`lives, this`log
      ensures Valid() && recv.Placed()
      ensures if tab.rec[k].status == Accept && TimeAfter(now, old(View(k)).at + REC_BA_SESSION_IDLE_TIMEOUT) then
                && View(k) == ReorderSpec.Refresh(old(View(k)))
                && Took(old(lives), old(log), lives, log, k, old(View(k)), Idle, recv.rx.hz)
              else
                View(k) == old(View(k)) && lives == old(lives) && log == old(log)
      ensures tab.rec[k].status == Accept && Clock(old(recv.entries[k].at), now, 0) ==>
                if Elapsed(old(recv.entries[k].at), now) > 1000 then recv.entries[k].list.nodes == []
                else View(k) == old(View(k))
      ensures forall j :: 0 <= j < |recv.entries| && j != k ==> recv.Same(j)
    {
      hide BaTable.Valid, Receiver.Valid, ReorderSpec.Refresh, TimeAfter, LeadsTo, TimeoutFlush, ReorderSpec.Indicate,
        ReorderSpec.BlockAckReq;
      PlacedNow();
      ghost var s := View(k);
      assert FollowsAt(k);
      LogOf(k);
      if Clock(s.at, now, 0) {
        AfterMeans(now, s.at, REC_BA_SESSION_IDLE_TIMEOUT);
      }
      WinOf(k);
      if tab.rec[k].status == Accept && TimeAfter(now, recv.entries[k].at + REC_BA_SESSION_IDLE_TIMEOUT) {
        RefreshWindow(s);
        recv.RefreshAt(k);
        WinOf(k);
        AfterAt(k);
        Record(k, Idle, s);
      }
    }

    lemma RefreshWindow(s: Session)
      ensures ReorderSpec.Refresh(s).win == s.win
    {
    }

    ghost function Views(): (r: seq<Session>)
      requires recv.Valid()
      reads recv, recv.repr
      ensures |r| == |recv.entries| && forall k :: 0 <= k < |r| ==> r[k] == View(k)
    {
      seq(|recv.entries|, k requires 0 <= k < |recv.entries| && recv.Valid() reads recv, recv.repr => View(k))
    }

    /** Entry k belongs to a station in use. Station 0 is not looked at. */
    ghost predicate Maintained(k: nat, inUse: set<nat>)
      requires k < tab.rec.Length
      reads tab.rec
    {
      tab.rec[k].status == Accept && tab.rec[k].wcid >= 1 && tab.rec[k].wcid in inUse
    }

    ghost predicate Before(k: nat, w: nat, t: nat)
      requires k < tab.rec.Length
      reads tab.rec
    {
      tab.rec[k].wcid < w || (tab.rec[k].wcid == w && tab.rec[k].tid < t)
    }

    /** Between the points r and c of a round at time `now` the sessions before (w, t) of stations in use were
        flushed, and nothing happened to the other ones. */
    ghost predicate Flushed(r: Point, c: Point, inUse: set<nat>, now: nat, w: nat, t: nat)
      reads tab.rec
    {
      && |r.views| == |r.lives| == |c.views| == |c.lives| == tab.rec.Length && r.log <= c.log
      && forall k :: 0 <= k < tab.rec.Length ==> FlushedAt(k, r, c, inUse, now, w, t)
    }

    ghost predicate FlushedAt(k: nat, r: Point, c: Point, inUse: set<nat>, now: nat, w: nat, t: nat)
      requires |r.views| == |r.lives| == |c.views| == |c.lives| == tab.rec.Length && r.log <= c.log
      requires k < tab.rec.Length
      reads tab.rec
    {
      FlushedFrom(Maintained(k, inUse) && Before(k, w, t), r.views[k], r.lives[k], c.views[k], c.lives[k],
                  Of(c.log[|r.log|..], k), now, recv.rx.hz)
    }

    ghost function Current(): Point
      requires recv.Valid()
      reads this, recv, recv.repr
    {
      Point(Views(), lives, log)
    }

    /** BaReOrderingBufferMaintain: every session of a station in use is flushed once, as far as its
        own times say, and nothing else happens. */
    method Maintain(inUse: set<nat>, now: nat)
      requires Valid()
      modifies recv.repr, this`lives, this`log
      ensures Valid() && recv.Placed()
      ensures recv.rx.dropped == old(recv.rx.dropped) && DropCounts() == old(DropCounts())
      ensures |lives| == |old(lives)| == |recv.entries| == tab.rec.Length && old(log) <= log
      ensures forall k :: 0 <= k < tab.rec.Length ==>
                FlushedFrom(Maintained(k, inUse), old(View(k)), old(lives)[k], View(k), lives[k],
                            Of(log[|old(log)|..], k), now, recv.rx.hz)
      ensures forall k :: 0 <= k < tab.rec.Length ==>
                Maintained(k, inUse) == (tab.rec[k].status == Accept && tab.rec[k].wcid in inUse - {0})
      ensures forall k :: 0 <= k < tab.rec.Length && Maintained(k, inUse) ==>
                Tended(old(View(k)), View(k), Of(log[|old(log)|..], k), now, recv.rx.hz)
    {
      hide BaTable.Valid, Receiver.Valid, RecEntry.View, Coupled, Traced, Flushed, FlushedFrom, Tended;
      PlacedNow();
      Sizes();
      ghost var r, drops, counts := Current(), recv.rx.dropped, DropCounts();
      NoneFlushed(r, inUse, now);
      var w := 1;
      while w < tab.sta.Length
        invariant 1 <= w && Valid() && recv.Placed() && Flushed(r, Current(), inUse, now, w, 0)
        invariant recv.rx.dropped == drops && DropCounts() == counts
      {
        if w in inUse {
          var t := 0;
          while t < NUM_OF_TID
            invariant t <= NUM_OF_TID && Valid() && recv.Placed() && Flushed(r, Current(), inUse, now, w, t)
            invariant recv.rx.dropped == drops && DropCounts() == counts
          {
            MaintainOne(w, t, inUse, now, r);
            t := t + 1;
          }
        }
        NextStation(r, Current(), inUse, now, w);
        w := w + 1;
      }
      AllStations(r, Current(), inUse, now, w);
      forall k | 0 <= k < tab.rec.Length && Maintained(k, inUse)
        ensures Tended(old(View(k)), View(k), Of(log[|old(log)|..], k), now, recv.rx.hz)
      {
        FlushedTended(old(View(k)), old(lives)[k], View(k), lives[k], Of(log[|old(log)|..], k), now, recv.rx.hz);
      }
    }

    /** One station and TID. */
    method MaintainOne(w: nat, t: nat, ghost inUse: set<nat>, now: nat, ghost r: Point)
      requires Valid() && w < tab.sta.Length && t < NUM_OF_TID && 1 <= w && w in inUse
      requires Flushed(r, Current(), inUse, now, w, t)
      modifies recv.repr, this`lives, this`log
      ensures Valid() && recv.Placed() && Flushed(r, Current(), inUse, now, w, t + 1)
      ensures recv.rx.dropped == old(recv.rx.dropped) && DropCounts() == old(DropCounts())
    {
      hide BaTable.Valid, Receiver.Valid, RecEntry.View, TimeoutFlush, Traced, OriSlots, RecSlots, Flushed, Took, Bare;
      Leads(w, t);
      var k := RecAt(tab.sta[w], t);
      ghost var c := Current();
      ListOf(k);
      FlushAt(k, now);
      forall j | 0 <= j < |recv.entries| && j != k ensures Bare(View(j)) == Bare(old(View(j))) {
        SameBare(j);
      }
      NextFlush(r, c, Current(), inUse, now, k, w, t);
    }

    /** The flush of entry k takes a round on by one TID. */
    lemma NextFlush(r: Point, c: Point, d: Point, inUse: set<nat>, now: nat, k: nat, w: nat, t: nat)
      requires tab.Valid() && w < tab.sta.Length && t < NUM_OF_TID == |tab.sta[w].rec| && 1 <= w && w in inUse
      requires k < tab.rec.Length == |d.views| && tab.sta[w].rec[t] == k
      requires k != 0 ==> tab.rec[k] == RecSession(Accept, w, t)
      requires Flushed(r, c, inUse, now, w, t)
      requires k == 0 ==> tab.rec[0].status == RecNone && c.views[0].list == [] && c.lives[0] == NoLife
      requires d.views[k] == TimeoutFlush(c.views[k], now, recv.rx.hz)
      requires forall j :: 0 <= j < tab.rec.Length && j != k ==> Bare(d.views[j]) == Bare(c.views[j])
      requires Took(c.lives, c.log, d.lives, d.log, k, c.views[k], Timer(now), recv.rx.hz)
      ensures Flushed(r, d, inUse, now, w, t + 1)
    {
      hide BaTable.Valid, TimeoutFlush, Bare, FlushedFrom, News, Of, Tagged;
      var t' := t + 1;
      forall j | 0 <= j < tab.rec.Length ensures FlushedAt(j, r, d, inUse, now, w, t') {
        assert FlushedAt(j, r, c, inUse, now, w, t);
        var news := News(c.views[k], Timer(now), recv.rx.hz);
        OfMore(c.log, |r.log|, k, news, j);
        if j == k {
          FlushTurn(r, c, inUse, now, k, w, t);
        } else {
          if tab.rec[j].status == Accept {
            RecEntryIs(j);
          }
          assert Of(c.log[|r.log|..], j) + [] == Of(c.log[|r.log|..], j);
          FlushedSame(Maintained(j, inUse) && Before(j, w, t), r.views[j], r.lives[j], c.views[j], d.views[j],
                      c.lives[j], Of(c.log[|r.log|..], j), now, recv.rx.hz);
        }
      }
    }

    /** Entry k itself, which had not been flushed before. */
    lemma FlushTurn(r: Point, c: Point, inUse: set<nat>, now: nat, k: nat, w: nat, t: nat)
      requires tab.Valid() && 1 <= w && w in inUse && k < tab.rec.Length && Flushed(r, c, inUse, now, w, t)
      requires k != 0 ==> tab.rec[k] == RecSession(Accept, w, t)
      requires k == 0 ==> tab.rec[0].status == RecNone && c.views[0].list == [] && c.lives[0] == NoLife
      ensures FlushedFrom(Maintained(k, inUse) && Before(k, w, t + 1), r.views[k], r.lives[k],
                          TimeoutFlush(c.views[k], now, recv.rx.hz),
                          Lived(c.lives[k], c.views[k].free, Timer(now)),
                          Of(c.log[|r.log|..], k) + News(c.views[k], Timer(now), recv.rx.hz), now, recv.rx.hz)
    {
      hide BaTable.Valid, TimeoutFlush, Bare, News, Of, TimedOut;
      var s, news := c.views[k], News(c.views[k], Timer(now), recv.rx.hz);
      assert FlushedAt(k, r, c, inUse, now, w, t);
      if k != 0 {
        FlushNow(r.views[k], r.lives[k], s, c.lives[k], now, recv.rx.hz);
        assert [] + news == news;
      } else {
        FlushNothing(s, now, recv.rx.hz);
      }
    }

    lemma RecEntryIs(j: nat)
      requires tab.Valid() && j < tab.rec.Length && tab.rec[j].status == Accept
      ensures tab.rec[j].wcid < tab.sta.Length && tab.rec[j].tid < NUM_OF_TID == |tab.sta[tab.rec[j].wcid].rec|
      ensures tab.sta[tab.rec[j].wcid].rec[tab.rec[j].tid] == j
    {
      hide OriTable, RecTable, RequestsOk;
      tab.RecEntryOf(j);
    }

    lemma Sizes()
      requires Valid()
      ensures |lives| == |recv.entries| == tab.rec.Length
    {
      hide BaTable.Valid, Receiver.Valid, Traced;
    }

    lemma NoneFlushed(r: Point, inUse: set<nat>, now: nat)
      requires |r.views| == |r.lives| == tab.rec.Length
      ensures Flushed(r, r, inUse, now, 1, 0)
    {
      assert r.log[|r.log|..] == [];
    }

    lemma NextStation(r: Point, c: Point, inUse: set<nat>, now: nat, w: nat)
      requires tab.Valid() && Flushed(r, c, inUse, now, w, if w in inUse then NUM_OF_TID else 0)
      ensures Flushed(r, c, inUse, now, w + 1, 0)
    {
      hide BaTable.Valid, FlushedFrom, Of;
      var w' := w + 1;
      forall k | 0 <= k < tab.rec.Length ensures FlushedAt(k, r, c, inUse, now, w', 0) {
        assert FlushedAt(k, r, c, inUse, now, w, if w in inUse then NUM_OF_TID else 0);
        if tab.rec[k].status == Accept {
          RecEntryIs(k);
        }
      }
    }

    lemma AllStations(r: Point, c: Point, inUse: set<nat>, now: nat, w: nat)
      requires tab.Valid() && w >= tab.sta.Length && Flushed(r, c, inUse, now, w, 0)
      ensures |r.views| == |r.lives| == |c.views| == |c.lives| == tab.rec.Length && r.log <= c.log
      ensures forall k :: 0 <= k < tab.rec.Length ==>
                FlushedFrom(Maintained(k, inUse), r.views[k], r.lives[k], c.views[k], c.lives[k],
                            Of(c.log[|r.log|..], k), now, recv.rx.hz)
    {
      hide BaTable.Valid, FlushedFrom, Of;
      forall k | 0 <= k < tab.rec.Length
        ensures FlushedFrom(Maintained(k, inUse), r.views[k], r.lives[k], c.views[k], c.lives[k],
                            Of(c.log[|r.log|..], k), now, recv.rx.hz)
      {
        assert FlushedAt(k, r, c, inUse, now, w, 0);
        if tab.rec[k].status == Accept {
          RecEntryIs(k);
        }
      }
    }

    // -------------------------------------------------------------- teardown

    /** BARecSessionTearDown. What is queued goes up before the session disappears. With a TID beyond
        the slot array only the entry that an originator slot names is freed; if that is a session,
        the tables are no longer consistent. */
    method TearDownRec(w: nat, t: nat, passive: bool, memOk: bool)
      requires Valid() && t < TID_SPACE
      modifies recv.repr, tab, tab.rec, tab.sta, this`lives, this`log
      ensures Separate() && recv.Valid() && recv.Placed() && tab.ori[..] == old(tab.ori[..])
      ensures recv.rx.dropped == old(recv.rx.dropped)
      ensures t < NUM_OF_TID ==> Valid()
      ensures w >= tab.sta.Length || RecAt(old(tab.sta[w]), t) == 0 || (t < NUM_OF_TID && !passive && !memOk) ==>
                && Valid() && tab.rec[..] == old(tab.rec[..]) && tab.sta[..] == old(tab.sta[..])
                && tab.delBas == old(tab.delBas) && unchanged(recv.repr) && lives == old(lives) && log == old(log)
      ensures w < tab.sta.Length && t < NUM_OF_TID && RecAt(old(tab.sta[w]), t) != 0 && (passive || memOk) ==>
                var k := RecAt(old(tab.sta[w]), t);
                && RecReleased(old(tab.rec[..]), old(tab.sta[..]), tab.rec[..], tab.sta[..], k)
                && tab.delBas == old(tab.delBas) + (if passive then [] else [DelBa(w, t, false)])
                && k < |recv.entries| && View(k) == ReorderSpec.Install(old(View(k)), 0)
                && recv.entries[k].list.nodes == []
                && Began(old(lives), old(log), lives, log, k, old(View(k)), View(k), 0)
                && forall j :: 0 <= j < |recv.entries| && j != k ==> recv.Same(j)
      ensures w < tab.sta.Length && t >= NUM_OF_TID && RecAt(old(tab.sta[w]), t) != 0 ==>
                var k := RecAt(old(tab.sta[w]), t);
                && k < tab.rec.Length && (Valid() <==> old(tab.rec[k]).status == RecNone)
                && tab.rec[..] == old(tab.rec[..])[k := old(tab.rec[k]).(status := RecNone)]
                && unchanged(recv.repr) && tab.delBas == old(tab.delBas) && lives == old(lives) && log == old(log)
    {
      hide BaTable.Valid, Receiver.Valid, RecEntry.View, ReorderSpec.Install, Coupled, Traced, OriSlots, RecSlots;
      PlacedNow();
      if w >= tab.sta.Length {
        return;
      }
      Leads(w, t);
      var k := RecAt(tab.sta[w], t);
      if k == 0 {
        return;
      }
      if t < NUM_OF_TID {
        if !passive && !memOk {
          return;
        }
        Release(k, if passive then [] else [DelBa(w, t, false)]);
      } else {
        ghost var r := tab.rec[..];
        tab.FreeRecAlone(k);
        assert tab.Valid() ==> r[k].status == RecNone by { TabParts(); }
        assert r[k].status == RecNone ==> tab.rec[..] == r && r[k := r[k].(status := RecNone)] == r;
        SameTable(r);
      }
    }

    lemma TabParts()
      ensures tab.Valid() ==> tab.RecValid() && tab.OriValid()
    {
    }

    twostate lemma SameTable(r: seq<RecSession>)
      requires old(Valid()) && r == old(tab.rec[..])
      requires unchanged(recv) && unchanged(recv.repr) && unchanged(this)
      ensures tab.Valid() && tab.rec[..] == r ==> Valid()
    {
      hide BaTable.Valid, Receiver.Valid, Traced;
      if tab.Valid() && tab.rec[..] == r {
        assert forall i :: 0 <= i < tab.rec.Length ==> tab.rec[i] == tab.rec[..][i] == old(tab.rec[i]);
        assert recv.Valid();
        PlacedNow();
      }
    }

    /** Steps 1 and 2 of the teardown of a live session. */
    method Release(k: nat, tell: seq<DelBa>)
      requires Valid() && 1 <= k < tab.rec.Length && tab.rec[k].status == Accept
      modifies recv.repr, tab, tab.rec, tab.sta, this`lives, this`log
      ensures Valid() && recv.Placed() && tab.ori[..] == old(tab.ori[..])
      ensures RecReleased(old(tab.rec[..]), old(tab.sta[..]), tab.rec[..], tab.sta[..], k)
      ensures tab.delBas == old(tab.delBas) + tell
      ensures View(k) == ReorderSpec.Install(old(View(k)), 0) && recv.entries[k].list.nodes == []
      ensures Began(old(lives), old(log), lives, log, k, old(View(k)), View(k), 0)
      ensures recv.rx.dropped == old(recv.rx.dropped)
      ensures forall j :: 0 <= j < |recv.entries| && j != k ==> recv.Same(j)
    {
      hide Valid, Coupled, Traced, Receiver.Valid, ReorderSpec.Install, RecEntry.View, BaTable.Valid, FollowsAt;
      Parts();
      PlacedNow();
      ghost var r := tab.rec[..];
      InstallTraced(k, 0);
      OthersLength(k);
      TableKept();
      tab.Close(k, tell);
      assert forall j :: 0 <= j < tab.rec.Length && j != k ==> tab.rec[j] == tab.rec[..][j] == r[j];
      Recoupled(k);
      Whole();
    }

    /** The reordering entry is set up anew, or, with window 0, put to rest; its life begins or ends. */
    method InstallTraced(k: nat, win: nat)
      requires Separate() && recv.Valid() && Traced() && k < |recv.entries|
      modifies recv.repr, this`lives, this`log
      ensures Separate() && recv.Valid() && recv.Placed() && Traced() && |lives| == |recv.entries|
      ensures View(k) == ReorderSpec.Install(old(View(k)), win)
      ensures recv.entries[k].win == win && recv.entries[k].list.nodes == [] && recv.rx.dropped == old(recv.rx.dropped)
      ensures Began(old(lives), old(log), lives, log, k, old(View(k)), View(k), win)
      ensures forall j :: 0 <= j < |recv.entries| && j != k ==> recv.Same(j)
    {
      hide Receiver.Valid, ReorderSpec.Install, RecEntry.View, FollowsAt, Traced;
      PlacedNow();
      ghost var s := View(k);
      LogOf(k);
      recv.InstallAt(k, win);
      LogOf(k);
      InstallLogs(s, win);
      OthersLength(k);
      OthersFollow(k);
      RecordSetup(k, win, s);
      PlacedNow();
    }

    lemma InstallLogs(s: Session, w: nat)
      ensures ReorderSpec.Install(s, w).gone == s.gone
    {
    }

    // -------------------------------------------------------------- the peer's frames

    /** BARecSessionAdd: an existing session hands up what it has queued, a new one takes the
        first free entry; either way the window is the one the response will announce. A TID beyond
        the slot array spoils the tables. */
    method SessionAdd(w: nat, t: nat, bufSize: nat) returns (k: nat)
      requires Valid() && w < tab.sta.Length && t < TID_SPACE
      modifies recv.repr, tab.rec, tab.sta, tab`numAsRecipient, this`lives, this`log
      ensures Separate() && recv.Valid() && recv.Placed() && tab.ori[..] == old(tab.ori[..])
      ensures Valid() <==> t < NUM_OF_TID || k == 0
      ensures k == 0 <==> RecAt(old(tab.sta[w]), t) == 0 && old(tab.numAsRecipient) >= tab.rec.Length - 1
      ensures k == 0 ==>
                && tab.rec[..] == old(tab.rec[..]) && tab.sta[..] == old(tab.sta[..])
                && unchanged(recv.repr) && lives == old(lives) && log == old(log)
      ensures k != 0 ==>
                && RecAt(tab.sta[w], t) == k < tab.rec.Length && tab.rec[k] == RecSession(Accept, w, t)
                && t in tab.sta[w].rx && t !in tab.sta[w].decline
                && (RecAt(old(tab.sta[w]), t) != 0 ==> k == RecAt(old(tab.sta[w]), t))
                && (forall j :: 0 <= j < tab.rec.Length && j != k ==> tab.rec[j] == old(tab.rec[j]))
                && View(k) == ReorderSpec.Install(old(View(k)), RecWindow(bufSize, rxLimit))
                && recv.entries[k].win == RecWindow(bufSize, rxLimit) && recv.entries[k].list.nodes == []
                && Negotiated(recv.entries[k].win, bufSize, rxLimit)
                && (forall j :: 0 <= j < |recv.entries| && j != k ==> recv.Same(j))
                && if t < NUM_OF_TID then
                     Began(old(lives), old(log), lives, log, k, old(View(k)), View(k), RecWindow(bufSize, rxLimit))
                   else lives == old(lives) && log == old(log)
    {
      hide Valid, Coupled, Traced, BaTable.Valid, Receiver.Valid, RecEntry.View, ReorderSpec.Install;
      Parts();
      NegotiatedIs(bufSize, rxLimit);
      if t < NUM_OF_TID {
        k := SessionAddWithin(w, t, bufSize);
      } else {
        k := SessionAddBeyond(w, t, bufSize);
      }
      Parts();
    }

    lemma Parts()
      ensures Valid() ==> Separate() && tab.Valid() && recv.Valid() && Coupled() && Traced()
    {
    }

    method SessionAddBeyond(w: nat, t: nat, bufSize: nat) returns (k: nat)
      requires Valid() && w < tab.sta.Length && NUM_OF_TID <= t < TID_SPACE
      modifies recv.repr, tab.rec, tab.sta, tab`numAsRecipient
      ensures Separate() && recv.Valid() && recv.Placed() && tab.ori[..] == old(tab.ori[..])
      ensures k == 0 <==> RecAt(old(tab.sta[w]), t) == 0 && old(tab.numAsRecipient) >= tab.rec.Length - 1
      ensures k == 0 ==>
                Valid() && tab.rec[..] == old(tab.rec[..]) && tab.sta[..] == old(tab.sta[..]) && unchanged(recv.repr)
      ensures k != 0 ==>
                && !tab.Valid()
                && RecAt(tab.sta[w], t) == k < tab.rec.Length && tab.rec[k] == RecSession(Accept, w, t)
                && t in tab.sta[w].rx && t !in tab.sta[w].decline
                && (RecAt(old(tab.sta[w]), t) != 0 ==> k == RecAt(old(tab.sta[w]), t))
                && (forall j :: 0 <= j < tab.rec.Length && j != k ==> tab.rec[j] == old(tab.rec[j]))
                && View(k) == ReorderSpec.Install(old(View(k)), RecWindow(bufSize, rxLimit))
                && recv.entries[k].win == RecWindow(bufSize, rxLimit) && recv.entries[k].list.nodes == []
                && forall j :: 0 <= j < |recv.entries| && j != k ==> recv.Same(j)
    {
      hide Valid, Receiver.Valid, ReorderSpec.Install, RecEntry.View, BaTable.Valid, Traced, Coupled;
      Parts();
      PlacedNow();
      k := TableSpoilt(w, t);
      if k != 0 {
        label Opened:
        recv.InstallAt(k, RecWindow(bufSize, rxLimit));
        forall j | 0 <= j < |recv.entries| && j != k ensures recv.Same(j) {
          assert recv.Same@Opened(j);
        }
        PlacedNow();
      }
    }

    /** The part of it that concerns the session tables. */
    method TableSpoilt(w: nat, t: nat) returns (k: nat)
      requires Valid() && w < tab.sta.Length && NUM_OF_TID <= t < TID_SPACE
      modifies tab.rec, tab.sta, tab`numAsRecipient
      ensures Separate() && recv.Valid() && tab.ori[..] == old(tab.ori[..])
      ensures k == 0 <==> RecAt(old(tab.sta[w]), t) == 0 && old(tab.numAsRecipient) >= tab.rec.Length - 1
      ensures k == 0 ==> Valid() && tab.rec[..] == old(tab.rec[..]) && tab.sta[..] == old(tab.sta[..])
      ensures k != 0 ==>
                && !tab.Valid()
                && RecAt(tab.sta[w], t) == k < tab.rec.Length && tab.rec[k] == RecSession(Accept, w, t)
                && t in tab.sta[w].rx && t !in tab.sta[w].decline
                && (RecAt(old(tab.sta[w]), t) != 0 ==> k == RecAt(old(tab.sta[w]), t))
                && (forall j :: 0 <= j < tab.rec.Length && j != k ==> tab.rec[j] == old(tab.rec[j]))
    {
      hide Valid, Receiver.Valid, BaTable.Valid, Traced, Coupled, OriSlots, RecSlots;
      Parts();
      ghost var r := tab.rec[..];
      k := tab.OpenRecBeyond(w, t);
      assert k != 0 ==> !tab.Valid() by { TabParts(); }
      if k == 0 {
        SameTable(r);
      } else {
        assert forall j :: 0 <= j < tab.rec.Length ==> tab.rec[j] == tab.rec[..][j];
      }
    }

    method SessionAddWithin(w: nat, t: nat, bufSize: nat) returns (k: nat)
      requires Valid() && w < tab.sta.Length && t < NUM_OF_TID
      modifies recv.repr, tab.rec, tab.sta, tab`numAsRecipient, this`lives, this`log
      ensures Valid() && recv.Placed() && tab.ori[..] == old(tab.ori[..])
      ensures k == 0 <==> RecAt(old(tab.sta[w]), t) == 0 && old(tab.numAsRecipient) >= tab.rec.Length - 1
      ensures k == 0 ==>
                && tab.rec[..] == old(tab.rec[..]) && tab.sta[..] == old(tab.sta[..])
                && unchanged(recv.repr) && lives == old(lives) && log == old(log)
      ensures k != 0 ==>
                && RecAt(tab.sta[w], t) == k < tab.rec.Length && tab.rec[k] == RecSession(Accept, w, t)
                && t in tab.sta[w].rx && t !in tab.sta[w].decline
                && (RecAt(old(tab.sta[w]), t) != 0 ==> k == RecAt(old(tab.sta[w]), t))
                && (forall j :: 0 <= j < tab.rec.Length && j != k ==> tab.rec[j] == old(tab.rec[j]))
                && View(k) == ReorderSpec.Install(old(View(k)), RecWindow(bufSize, rxLimit))
                && recv.entries[k].win == RecWindow(bufSize, rxLimit) && recv.entries[k].list.nodes == []
                && Began(old(lives), old(log), lives, log, k, old(View(k)), View(k), RecWindow(bufSize, rxLimit))
                && forall j :: 0 <= j < |recv.entries| && j != k ==> recv.Same(j)
    {
      hide Valid, Coupled, Traced, Receiver.Valid, ReorderSpec.Install, RecEntry.View, BaTable.Valid, FollowsAt;
      Parts();
      PlacedNow();
      k := TableOpened(w, t);
      if k == 0 {
        return;
      }
      label Opened:
      InstallTraced(k, RecWindow(bufSize, rxLimit));
      forall j | 0 <= j < |recv.entries| && j != k ensures recv.Same(j) {
        assert recv.Same@Opened(j);
      }
      OthersLength(k);
      Recoupled(k);
      Whole();
    }

    /** The part of it that concerns the session tables. */
    method TableOpened(w: nat, t: nat) returns (k: nat)
      requires Valid() && w < tab.sta.Length && t < NUM_OF_TID
      modifies tab.rec, tab.sta, tab`numAsRecipient
      ensures Separate() && tab.Valid() && recv.Valid() && Traced() && tab.ori[..] == old(tab.ori[..])
      ensures k == 0 <==> RecAt(old(tab.sta[w]), t) == 0 && old(tab.numAsRecipient) >= tab.rec.Length - 1
      ensures k == 0 ==> Valid() && tab.rec[..] == old(tab.rec[..]) && tab.sta[..] == old(tab.sta[..])
      ensures k != 0 ==>
                && RecAt(tab.sta[w], t) == k < tab.rec.Length && tab.rec[k] == RecSession(Accept, w, t)
                && t in tab.sta[w].rx && t !in tab.sta[w].decline
                && (RecAt(old(tab.sta[w]), t) != 0 ==> k == RecAt(old(tab.sta[w]), t))
                && (forall j :: 0 <= j < tab.rec.Length && j != k ==> tab.rec[j] == old(tab.rec[j]))
    {
      hide Valid, Coupled, Traced, Receiver.Valid, BaTable.Valid, OriSlots, RecSlots;
      Parts();
      Leads(w, t);
      ghost var r := tab.rec[..];
      k := tab.OpenRec(w, t);
      Leads(w, t);
      assert forall j :: 0 <= j < tab.rec.Length && j != k ==> tab.rec[j] == tab.rec[..][j] == r[j];
      if k == 0 {
        SameTable(r);
      }
    }

    lemma Whole()
      requires Separate() && tab.Valid() && recv.Valid() && Coupled() && Traced()
      ensures Valid()
    {
    }

    /** A set-up or teardown of entry k leaves the table and the entries coupled. */
    twostate lemma Recoupled(k: nat)
      requires old(Valid()) && Separate() && recv.Placed() && k < |recv.entries| == |old(lives)|
      requires |lives| == |recv.entries| && released == old(released)
      requires forall j :: 0 <= j < |recv.entries| && j != k ==>
                 tab.rec[j] == old(tab.rec[j]) && lives[j] == old(lives)[j]
      requires forall j :: 0 <= j < |recv.entries| && j != k ==>
                 recv.entries[j].win == old(recv.entries[j].win)
                   && recv.entries[j].list.nodes == old(recv.entries[j].list.nodes)
      requires recv.entries[k].list.nodes == []
      requires tab.rec[k].status != Accept ||
               (1 <= recv.entries[k].win <= 255 && lives[k].Life? && 1 <= lives[k].win <= 255)
      requires tab.rec[k].status != RecNone || lives[k] == NoLife
      ensures Coupled()
    {
      hide BaTable.Valid, Receiver.Valid, Traced;
    }

    /** PeerAddBAReqAction for a known station: the status code and the buffer size of the
        response. `sane` is PeerAddBAReqActionSanity's verdict, which does not depend on the TID. */
    method PeerAddBaReq(w: nat, t: nat, sane: bool, decline: bool, htSta: bool, bufSize: nat)
      returns (status: nat, respBufSize: nat)
      requires Valid() && w < tab.sta.Length && t < TID_SPACE
      modifies recv.repr, tab.rec, tab.sta, tab`numAsRecipient, this`lives, this`log
      ensures Separate() && recv.Valid() && recv.Placed() && tab.ori[..] == old(tab.ori[..])
      ensures Valid() <==> t < NUM_OF_TID || status != 0
      ensures Negotiated(respBufSize, bufSize, rxLimit)
      ensures status == 0 ==>
                var k := RecAt(tab.sta[w], t);
                && 1 <= k < tab.rec.Length && tab.rec[k] == RecSession(Accept, w, t)
                && recv.entries[k].win == respBufSize && 1 <= respBufSize <= 255
                && (forall j :: 0 <= j < |recv.entries| && j != k ==> recv.Same(j))
                && if t < NUM_OF_TID then
                     Began(old(lives), old(log), lives, log, k, old(View(k)), View(k), respBufSize)
                   else lives == old(lives) && log == old(log)
      ensures status != 0 ==>
                && tab.rec[..] == old(tab.rec[..]) && tab.sta[..] == old(tab.sta[..])
                && unchanged(recv.repr) && lives == old(lives) && log == old(log)
      ensures (status == 1 <==> !sane) && (status == 37 <==> sane && (decline || !htSta))
      ensures status == 38 <==> sane && !decline && htSta && RecAt(old(tab.sta[w]), t) == 0
                                && old(tab.numAsRecipient) >= tab.rec.Length - 1
    {
      hide Receiver.Valid, ReorderSpec.Install, RecEntry.View, BaTable.Valid, Traced, Coupled;
      PlacedNow();
      status := 1;
      if sane {
        if !decline && htSta {
          var k := SessionAdd(w, t, bufSize);
          status := if k != 0 then 0 else 38;
        } else {
          status := 37;
        }
      }
      respBufSize := Min(U8(bufSize), U8(rxLimit));
      if respBufSize == 0 {
        respBufSize := 64;
      }
    }

    /** PeerDelBAAction on a frame that passed its sanity check. */
    method PeerDelBa(w: nat, t: nat, byOriginator: bool)
      requires Valid() && w < tab.sta.Length && t < TID_SPACE
      modifies recv.repr, tab, tab.ori, tab.rec, tab.sta, this`lives, this`log
      ensures Separate() && recv.Valid() && recv.Placed() && tab.delBas == old(tab.delBas)
      ensures recv.rx.dropped == old(recv.rx.dropped)
      ensures !byOriginator || t < NUM_OF_TID ==> Valid()
      ensures byOriginator ==>
                var k := RecAt(old(tab.sta[w]), t);
                && tab.ori[..] == old(tab.ori[..]) && k < tab.rec.Length
                && (t >= NUM_OF_TID ==> (Valid() <==> k == 0 || old(tab.rec[k]).status == RecNone))
                && (k == 0 ==> tab.rec[..] == old(tab.rec[..]) && tab.sta[..] == old(tab.sta[..]))
                && (k == 0 || t >= NUM_OF_TID ==> lives == old(lives) && log == old(log))
                && (k != 0 && t < NUM_OF_TID ==>
                      && RecReleased(old(tab.rec[..]), old(tab.sta[..]), tab.rec[..], tab.sta[..], k)
                      && View(k) == ReorderSpec.Install(old(View(k)), 0)
                      && Began(old(lives), old(log), lives, log, k, old(View(k)), View(k), 0)
                      && forall j :: 0 <= j < |recv.entries| && j != k ==> recv.Same(j))
      ensures !byOriginator ==>
                var i := OriAt(old(tab.sta[w]), t);
                && tab.rec[..] == old(tab.rec[..]) && unchanged(recv.repr) && lives == old(lives) && log == old(log)
                && if i == 0 then tab.ori[..] == old(tab.ori[..]) && tab.sta[..] == old(tab.sta[..])
                   else OriReleased(old(tab.ori[..]), old(tab.sta[..]), tab.ori[..], tab.sta[..], i)
      ensures t < NUM_OF_TID ==>
                if byOriginator then RecAt(tab.sta[w], t) == 0 && t !in tab.sta[w].rx
                else OriAt(tab.sta[w], t) == 0 && t !in tab.sta[w].tx
    {
      hide Receiver.Valid, ReorderSpec.Install, RecEntry.View, BaTable.Valid, Traced, Coupled, OriSlots, RecSlots;
      PlacedNow();
      Leads(w, t);
      if byOriginator {
        TearDownRec(w, t, true, true);
      } else {
        TearDownOri(w, t, true, true);
      }
      if t < NUM_OF_TID {
        Leads(w, t);
        Marks(w, t);
      }
    }

    /** A bitmap bit needs a non-zero slot. */
    lemma Marks(w: nat, t: nat)
      requires tab.Valid() && w < tab.sta.Length && t < NUM_OF_TID
      ensures RecAt(tab.sta[w], t) == 0 ==> t !in tab.sta[w].rx
      ensures OriAt(tab.sta[w], t) == 0 ==> t !in tab.sta[w].tx
    {
      tab.OriSlotsOf(w);
      tab.RecSlotsOf(w);
      assert OriSlots(tab.sta[..])[w][t] == tab.sta[w].ori[t] && RecSlots(tab.sta[..])[w][t] == tab.sta[w].rec[t];
    }

    /** BAOriSessionTearDown, with the recipient side untouched. */
    method TearDownOri(w: nat, t: nat, passive: bool, memOk: bool)
      requires Valid() && w < tab.sta.Length && t < TID_SPACE
      modifies tab, tab.ori, tab.sta
      ensures Valid() && recv.Placed() && tab.rec[..] == old(tab.rec[..])
      ensures var i := OriAt(old(tab.sta[w]), t);
              && i < tab.ori.Length
              && var tell := i != 0 && !passive && old(tab.ori[..])[i].status == Done;
              if i == 0 || (tell && !memOk) then
                tab.ori[..] == old(tab.ori[..]) && tab.sta[..] == old(tab.sta[..]) && tab.delBas == old(tab.delBas)
              else
                && OriReleased(old(tab.ori[..]), old(tab.sta[..]), tab.ori[..], tab.sta[..], i)
                && old(tab.ori[i]).wcid == w && old(tab.ori[i]).tid == t
                && tab.delBas == old(tab.delBas) + if tell then [DelBa(w, t, true)] else []
    {
      hide Receiver.Valid, BaTable.Valid, RecEntry.View, LeadsTo;
      OriLeads(w, t);
      PlacedNow();
      tab.TearDownOri(w, t, passive, false, memOk);
      assert Coupled() by {
        assert forall j :: 0 <= j < tab.rec.Length ==> tab.rec[j] == tab.rec[..][j] == old(tab.rec[j]);
      }
    }

    lemma OriLeads(w: nat, t: nat)
      requires tab.Valid() && w < tab.sta.Length && t < TID_SPACE
      ensures tab.ori.Length >= 1 && OriAt(tab.sta[w], t) < tab.ori.Length && |tab.sta[w].ori| == NUM_OF_TID
      ensures OriAt(tab.sta[w], t) != 0 ==>
                tab.ori[OriAt(tab.sta[w], t)].wcid == w && tab.ori[OriAt(tab.sta[w], t)].tid == t
                && tab.ori[OriAt(tab.sta[w], t)].status != OriNone
    {
      hide OriTable, RecTable, OriSlots, RequestsOk;
      tab.OriSlotsOf(w);
    }

    /** BASessionTearDownALL: when every message can be allocated, the station keeps no session in
        either role, its peer is told of each, and what was queued went up. The other sessions, and
        without memory all recipient sessions, are as they were. */
    method TearDownAll(w: nat, memOk: bool)
      requires Valid() && w < tab.sta.Length
      modifies recv.repr, tab, tab.ori, tab.rec, tab.sta, this`lives, this`log
      ensures Valid() && recv.Placed() && recv.given == old(recv.given) && recv.rx.dropped == old(recv.rx.dropped)
      ensures memOk ==> forall t :: 0 <= t < NUM_OF_TID ==>
                OriAt(tab.sta[w], t) == 0 && RecAt(tab.sta[w], t) == 0 && t !in tab.sta[w].tx && t !in tab.sta[w].rx
      ensures forall v :: 0 <= v < tab.sta.Length && v != w ==> tab.sta[v] == old(tab.sta[v])
      ensures |old(tab.sta[w]).ori| == NUM_OF_TID == |old(tab.sta[w]).rec|
      ensures memOk ==> tab.delBas == old(tab.delBas) + Farewells(old(tab.ori[..]), old(tab.sta[w]), w, NUM_OF_TID)
      ensures memOk ==> forall k :: 0 <= k < tab.rec.Length && tab.rec[k].wcid == w ==>
                tab.rec[k].status == RecNone && recv.entries[k].list.nodes == []
      ensures |lives| == |old(lives)| == |recv.entries| == tab.rec.Length && old(log) <= log
      ensures forall k :: 0 <= k < tab.rec.Length ==>
                var e, done := old(tab.rec[k]), memOk && old(tab.rec[k]).status == Accept && old(tab.rec[k]).wcid == w;
                && tab.rec[k] == (if done then e.(status := RecNone) else e)
                && EndedFrom(done, old(View(k)), old(lives)[k], View(k), lives[k], Of(log[|old(log)|..], k))
    {
      hide Valid, Receiver.Valid, BaTable.Valid, Coupled, Traced, RecEntry.View, Farewells, Torn;
      Parts();
      PlacedNow();
      OriLeads(w, 0);
      Leads(w, 0);
      Sizes();
      ghost var s, o, d, r, p := tab.sta[w], tab.ori[..], tab.delBas, tab.rec[..], Current();
      NoFarewells(o, s, w);
      TornNothing(r, p, w);
      TidsFit(r);
      var i := 0;
      while i < NUM_OF_TID
        invariant i <= NUM_OF_TID && Valid() && recv.Valid() && recv.Placed() && Separate()
        invariant TornDown(tab.sta[w], tab.ori[..], i, i, s, o, memOk)
        invariant memOk ==> tab.delBas == d + Farewells(o, s, w, i)
        invariant forall v :: 0 <= v < tab.sta.Length && v != w ==> tab.sta[v] == old(tab.sta[v])
        invariant Torn(r, p, tab.rec[..], Current(), w, if memOk then i else 0)
        invariant recv.rx.dropped == old(recv.rx.dropped)
      {
        TearDownTid(w, i, memOk, s, o, d, r, p);
        Parts();
        i := i + 1;
      }
      Parts();
      if memOk {
        Emptied(w);
      }
      TornAll(r, p, tab.rec[..], Current(), w, if memOk then i else 0);
      assert forall k :: 0 <= k < tab.rec.Length ==> tab.rec[..][k] == tab.rec[k];
    }

    lemma TidsFit(r: seq<RecSession>)
      requires tab.Valid() && r == tab.rec[..]
      ensures forall k :: 0 <= k < |r| && r[k].status == Accept ==> r[k].tid < NUM_OF_TID
    {
      hide BaTable.Valid;
      forall k | 0 <= k < |r| && r[k].status == Accept ensures r[k].tid < NUM_OF_TID {
        assert r[k] == tab.rec[k];
        RecEntryIs(k);
      }
    }

    lemma NoFarewells(ori: seq<OriEntry>, s: Station, w: nat)
      ensures Farewells(ori, s, w, 0) == []
    {
    }

    lemma Emptied(w: nat)
      requires Valid() && w < tab.sta.Length && |tab.sta[w].ori| == NUM_OF_TID == |tab.sta[w].rec|
      requires forall t :: 0 <= t < NUM_OF_TID ==> tab.sta[w].ori[t] == 0 && tab.sta[w].rec[t] == 0
      ensures forall t :: 0 <= t < NUM_OF_TID ==>
                OriAt(tab.sta[w], t) == 0 && RecAt(tab.sta[w], t) == 0 && t !in tab.sta[w].tx && t !in tab.sta[w].rx
      ensures recv.Placed()
      ensures forall k :: 0 <= k < tab.rec.Length && tab.rec[k].wcid == w ==>
                tab.rec[k].status == RecNone && recv.entries[k].list.nodes == []
    {
      hide Receiver.Valid, BaTable.Valid, Traced;
      PlacedNow();
      forall t | 0 <= t < NUM_OF_TID
        ensures OriAt(tab.sta[w], t) == 0 && RecAt(tab.sta[w], t) == 0 && t !in tab.sta[w].tx && t !in tab.sta[w].rx
      {
        Marks(w, t);
      }
      forall k | 0 <= k < tab.rec.Length && tab.rec[k].wcid == w
        ensures tab.rec[k].status == RecNone && recv.entries[k].list.nodes == []
      {
        NoSession(k);
      }
    }

    lemma NoSession(k: nat)
      requires tab.Valid() && k < tab.rec.Length
      ensures tab.rec[k].status == RecNone ||
              (tab.rec[k].wcid < tab.sta.Length && tab.rec[k].tid < NUM_OF_TID == |tab.sta[tab.rec[k].wcid].rec|
               && tab.sta[tab.rec[k].wcid].rec[tab.rec[k].tid] == k && k != 0)
    {
      hide OriTable, RecTable, RequestsOk;
      tab.RecStatuses();
      if tab.rec[k].status != RecNone {
        tab.RecEntryOf(k);
      }
    }

    /** Both roles of one TID. */
    method TearDownTid(w: nat, t: nat, memOk: bool, ghost s: Station, ghost o: seq<OriEntry>, ghost d: seq<DelBa>,
                       ghost r: seq<RecSession>, ghost p: Point)
      requires Valid() && w < tab.sta.Length && t < NUM_OF_TID && TornDown(tab.sta[w], tab.ori[..], t, t, s, o, memOk)
      requires memOk ==> tab.delBas == d + Farewells(o, s, w, t)
      requires Torn(r, p, tab.rec[..], Current(), w, if memOk then t else 0)
      modifies recv.repr, tab, tab.ori, tab.rec, tab.sta, this`lives, this`log
      ensures Valid() && recv.Placed() && TornDown(tab.sta[w], tab.ori[..], t + 1, t + 1, s, o, memOk)
      ensures memOk ==> tab.delBas == d + Farewells(o, s, w, t + 1)
      ensures forall v :: 0 <= v < tab.sta.Length && v != w ==> tab.sta[v] == old(tab.sta[v])
      ensures Torn(r, p, tab.rec[..], Current(), w, if memOk then t + 1 else 0)
      ensures recv.rx.dropped == old(recv.rx.dropped)
    {
      hide Valid, Coupled, Traced, Receiver.Valid, BaTable.Valid, TornDown, Farewells, Torn;
      Parts();
      TornIs(tab.sta[w], tab.ori[..], t, t, s, o, memOk);
      TearDownTidOri(w, t, memOk, s, o);
      Parts();
      TearDownTidRec(w, t, memOk, s, o, r, p);
      FarewellsNext(o, s, w, t, d, OriFarewell(o, s, w, t), RecFarewell(s, w, t));
    }

    ghost function OriFarewell(o: seq<OriEntry>, s: Station, w: nat, t: nat): seq<DelBa>
      requires t < |s.ori|
    {
      if 0 < s.ori[t] < |o| && o[s.ori[t]].status == Done then [DelBa(w, t, true)] else []
    }

    ghost function RecFarewell(s: Station, w: nat, t: nat): seq<DelBa>
      requires t < |s.rec|
    {
      if s.rec[t] != 0 then [DelBa(w, t, false)] else []
    }

    method TearDownTidOri(w: nat, t: nat, memOk: bool, ghost s: Station, ghost o: seq<OriEntry>)
      requires Valid() && w < tab.sta.Length && t < NUM_OF_TID && TornDown(tab.sta[w], tab.ori[..], t, t, s, o, memOk)
      requires t < |s.ori|
      modifies tab, tab.ori, tab.sta
      ensures Valid() && recv.Placed() && TornDown(tab.sta[w], tab.ori[..], t + 1, t, s, o, memOk)
      ensures tab.rec[..] == old(tab.rec[..]) && Current() == old(Current())
      ensures memOk ==> tab.delBas == old(tab.delBas) + OriFarewell(o, s, w, t)
      ensures forall v :: 0 <= v < tab.sta.Length && v != w ==> tab.sta[v] == old(tab.sta[v])
    {
      hide Valid, Coupled, Traced, Receiver.Valid, BaTable.Valid, TornDown, OwnSlots, OriReleased;
      Parts();
      TabParts();
      ghost var s0, o0 := tab.sta[..], tab.ori[..];
      OriLeads(w, t);
      tab.SlotsAreOwn(w);
      TornIs(s0[w], o0, t, t, s, o, memOk);
      TearDownOri(w, t, false, memOk);
      OriTidTorn(o0, s0, tab.ori[..], tab.sta[..], w, t, s, o, memOk);
      assert forall v :: 0 <= v < tab.sta.Length ==> tab.sta[v] == tab.sta[..][v];
    }

    method TearDownTidRec(w: nat, t: nat, memOk: bool, ghost s: Station, ghost o: seq<OriEntry>,
                          ghost r: seq<RecSession>, ghost p: Point)
      requires Valid() && w < tab.sta.Length && t < NUM_OF_TID
               && TornDown(tab.sta[w], tab.ori[..], t + 1, t, s, o, memOk)
      requires t < |s.rec| && Torn(r, p, tab.rec[..], Current(), w, if memOk then t else 0)
      modifies recv.repr, tab, tab.rec, tab.sta, this`lives, this`log
      ensures Valid() && recv.Placed() && TornDown(tab.sta[w], tab.ori[..], t + 1, t + 1, s, o, memOk)
      ensures memOk ==> tab.delBas == old(tab.delBas) + RecFarewell(s, w, t)
      ensures forall v :: 0 <= v < tab.sta.Length && v != w ==> tab.sta[v] == old(tab.sta[v])
      ensures Torn(r, p, tab.rec[..], Current(), w, if memOk then t + 1 else 0)
      ensures recv.rx.dropped == old(recv.rx.dropped)
    {
      hide Valid, Coupled, Traced, Receiver.Valid, BaTable.Valid, TornDown, ReorderSpec.Install, RecEntry.View,
        Torn, Began;
      Parts();
      PlacedNow();
      Leads(w, t);
      ghost var s0, r0, o0, k, c := tab.sta[..], tab.rec[..], tab.ori[..], RecAt(tab.sta[w], t), Current();
      OnlySession(w, t, k, r0);
      TornIs(s0[w], o0, t + 1, t, s, o, memOk);
      TearDownRec(w, t, false, memOk);
      RecTidTorn(r0, s0, tab.rec[..], tab.sta[..], o0, w, t, s, o, memOk);
      assert forall v :: 0 <= v < tab.sta.Length ==> tab.sta[v] == tab.sta[..][v];
      if memOk {
        if k == 0 {
          TornNone(r, p, r0, c, w, t);
        } else {
          forall j | 0 <= j < |recv.entries| && j != k ensures Bare(View(j)) == Bare(old(View(j))) {
            SameBare(j);
          }
          Sizes();
          ListOf(k);
          TornOne(r, p, r0, c, Current(), w, t, k);
        }
      }
    }

    /** The recipient sessions of (w, t): entry k, or none. */
    lemma OnlySession(w: nat, t: nat, k: nat, rec: seq<RecSession>)
      requires Separate() && tab.Valid() && w < tab.sta.Length && t < NUM_OF_TID && rec == tab.rec[..]
      requires k == RecAt(tab.sta[w], t)
      ensures k < |rec| && forall j :: 0 <= j < |rec| && Ended(rec[j], w, t + 1) && !Ended(rec[j], w, t) ==> j == k != 0
    {
      hide BaTable.Valid;
      Leads(w, t);
      forall j | 0 <= j < |rec| && Ended(rec[j], w, t + 1) && !Ended(rec[j], w, t) ensures j == k != 0 {
        assert rec[j] == tab.rec[j];
        RecEntryIs(j);
      }
    }

    // -------------------------------------------------------------- release

    /** ba_reordering_resource_release: whatever is queued is released, and every block not lost
        to an EAP frame is back on the free list. */
    method ResourceRelease()
      requires Valid()
      modifies recv.repr, this`lives, this`released
      ensures Valid() && recv.Placed() && forall k :: 0 <= k < tab.rec.Length ==> recv.entries[k].list.nodes == []
      ensures |recv.rx.pool.nodes| + |recv.rx.leaked| == recv.total
      ensures recv.rx.delivered == old(recv.rx.delivered) && released
      ensures |lives| == tab.rec.Length && forall k :: 0 <= k < |lives| ==> lives[k] == NoLife
      ensures multiset(recv.rx.delivered) + multiset(recv.rx.dropped) == recv.given
    {
      hide Coupled, Traced, BaTable.Valid, Receiver.Valid;
      released := true;
      assert Coupled() && Traced() by { StillCoupled(); }
      PlacedNow();
      Sizes();
      var i := 0;
      while i < tab.rec.Length
        invariant 0 <= i <= tab.rec.Length && Valid() && recv.Placed() && released
        invariant recv.rx.delivered == old(recv.rx.delivered)
        invariant forall k :: 0 <= k < i ==> recv.entries[k].list.nodes == []
        invariant |lives| == tab.rec.Length && forall k :: 0 <= k < i ==> lives[k] == NoLife
      {
        DiscardAt(i);
        i := i + 1;
      }
      AllEmpty();
    }

    /** Only the flag changed. */
    twostate lemma StillCoupled()
      requires old(Valid()) && Separate() && released
      requires unchanged(recv) && unchanged(recv.repr) && unchanged(tab.rec) && lives == old(lives) && log == old(log)
      ensures recv.Valid() && recv.Placed() && Coupled() && Traced()
    {
      hide BaTable.Valid, Receiver.Valid, LeadsTo;
      PlacedNow();
      assert forall k :: 0 <= k < |recv.entries| ==> (old(FollowsAt(k)) ==> FollowsAt(k));
    }

    method DiscardAt(k: nat)
      requires Valid() && k < tab.rec.Length && released
      modifies recv.repr, this`lives
      ensures Valid() && recv.Placed() && recv.entries[k].list.nodes == []
              && recv.rx.delivered == old(recv.rx.delivered)
      ensures forall j :: 0 <= j < k ==> recv.entries[j].list.nodes == old(recv.entries[j].list.nodes)
      ensures |lives| == |old(lives)| == |recv.entries| && lives[k] == NoLife
      ensures forall j :: 0 <= j < |lives| && j != k ==> lives[j] == old(lives)[j]
    {
      hide BaTable.Valid, Receiver.Valid, RecEntry.View, LeadsTo;
      PlacedNow();
      if tab.rec[k].status != RecNone {
        LogOf(k);
        recv.DiscardAt(k);
        LogOf(k);
        AfterAt(k);
        OthersLength(k);
        EndLife(k);
      }
    }

    /** After its release a session has no history. */
    ghost method EndLife(k: nat)
      requires Separate() && recv.Valid() && recv.Placed() && k < |recv.entries| == |lives| && released && Coupled()
      requires Delivered(log) == recv.rx.delivered
      requires forall j :: 0 <= j < |recv.entries| && j != k ==> FollowsAt(j)
      modifies this`lives
      ensures Coupled() && Traced() && lives == old(lives)[k := NoLife]
    {
      hide Receiver.Valid, LeadsTo, RecEntry.View;
      NoLifeFollows(View(k), k, log, recv.rx.hz);
      Follow(k, NoLife);
      lives := lives[k := NoLife];
    }

    /** The sessions would follow these lives. */
    lemma Follow(k: nat, l: Life)
      requires Separate() && recv.Valid() && k < |recv.entries| == |lives| && LeadsTo(View(k), l, k, log, recv.rx.hz)
      requires forall j :: 0 <= j < |recv.entries| && j != k ==> FollowsAt(j)
      ensures forall j :: 0 <= j < |recv.entries| ==> LeadsTo(View(j), lives[k := l][j], j, log, recv.rx.hz)
    {
      hide Receiver.Valid, LeadsTo, RecEntry.View;
      forall j | 0 <= j < |recv.entries| ensures LeadsTo(View(j), lives[k := l][j], j, log, recv.rx.hz) {
        if j != k {
          assert FollowsAt(j);
        }
      }
    }

    lemma AllEmpty()
      requires recv.Valid() && forall k :: 0 <= k < |recv.entries| ==> recv.entries[k].list.nodes == []
      ensures |recv.rx.pool.nodes| + |recv.rx.leaked| == recv.total
      ensures multiset(recv.rx.delivered) + multiset(recv.rx.dropped) == recv.given
    {
      ZeroSum(recv.Lens());
      recv.NothingQueued();
    }
  }
}
