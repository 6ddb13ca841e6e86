/** All recipient sessions together, in any interleaving: they share the free blocks and the
    upper layer, and nothing else. */
module ReorderSystem {
  import opened SeqNum
  import opened ReorderSpec
  import opened ReorderModel
  import opened ReorderOrder
  import opened ReorderTheorems
  import opened ReorderLogs

  /** The upper layer sees one log; an entry says which session announced it. The `free` field of
      a session is out of date while other sessions act. */
  datatype System = System(free: nat, sessions: seq<Session>, log: seq<(nat, Packet)>)

  datatype Input = Input(k: nat, e: Event)

  function Tagged(k: nat, ps: seq<Packet>): (r: seq<(nat, Packet)>)
    ensures |r| == |ps| && forall i :: 0 <= i < |ps| ==> r[i] == (k, ps[i])
  {
    seq(|ps|, i requires 0 <= i < |ps| => (k, ps[i]))
  }

  /** What a session faces when it acts. */
  function Facing(s: Session, free: nat): Session { s.(free := free) }

  /** What session s announces at e. */
  function News(s: Session, e: Event, hz: nat): seq<Packet> {
    Step(s.(out := [], gone := [], leaked := 0, drops := 0), e, hz).out
  }

  function Act(sys: System, i: Input, hz: nat): System
    requires i.k < |sys.sessions|
  {
    var v := Facing(sys.sessions[i.k], sys.free);
    var v' := Step(v, i.e, hz);
    System(v'.free, sys.sessions[i.k := v'], sys.log + Tagged(i.k, News(v, i.e, hz)))
  }

  predicate Addressed(n: nat, inputs: seq<Input>) { forall j :: 0 <= j < |inputs| ==> inputs[j].k < n }

  function Play(sys: System, inputs: seq<Input>, hz: nat): (r: System)
    requires Addressed(|sys.sessions|, inputs)
    ensures |r.sessions| == |sys.sessions|
  {
    if inputs == [] then sys
    else Act(Play(sys, inputs[..|inputs| - 1], hz), inputs[|inputs| - 1], hz)
  }

  /** The part of the log that session k announced. */
  function Of(log: seq<(nat, Packet)>, k: nat): seq<Packet> {
    if log == [] then []
    else Of(log[..|log| - 1], k) + if log[|log| - 1].0 == k then [log[|log| - 1].1] else []
  }

  /** The same play as session k lives it: before each of its own events the others have left it
      some number of free blocks. */
  function Local(sys: System, inputs: seq<Input>, k: nat, hz: nat): seq<Event>
    requires Addressed(|sys.sessions|, inputs)
  {
    if inputs == [] then []
    else
      var pre, i := inputs[..|inputs| - 1], inputs[|inputs| - 1];
      Local(sys, pre, k, hz) + if i.k == k then [Pool(Play(sys, pre, hz).free), i.e] else []
  }

  lemma {:induction false} OfAppend(log: seq<(nat, Packet)>, more: seq<(nat, Packet)>, k: nat)
    ensures Of(log + more, k) == Of(log, k) + Of(more, k)
  {
    if more == [] {
      assert log + more == log;
    } else {
      var n := |more| - 1;
      assert (log + more)[..|log| + n] == log + more[..n];
      OfAppend(log, more[..n], k);
    }
  }

  lemma {:induction false} OfTagged(j: nat, ps: seq<Packet>, k: nat)
    ensures Of(Tagged(j, ps), k) == if j == k then ps else []
  {
    if ps != [] {
      var n := |ps| - 1;
      assert Tagged(j, ps)[..n] == Tagged(j, ps[..n]);
      OfTagged(j, ps[..n], k);
      assert ps == ps[..n] + [ps[n]];
    }
  }

  /** A step adds its news to the log it finds. */
  lemma StepNews(s: Session, e: Event, hz: nat)
    ensures Step(s, e, hz).out == s.out + News(s, e, hz)
  {
    hide Step;
    var bare := s.(out := [], gone := [], leaked := 0, drops := 0);
    var h := History(s.out, s.gone, s.leaked, s.drops);
    assert After(h, bare) == s;
    StepAfter(h, bare, e, hz);
  }

  /** Session k cannot tell the interleaving from a run of its own. */
  lemma {:induction false} Independent(sys: System, inputs: seq<Input>, k: nat, hz: nat)
    requires Addressed(|sys.sessions|, inputs) && k < |sys.sessions|
    requires Of(sys.log, k) == sys.sessions[k].out
    ensures var t := Play(sys, inputs, hz);
            && Facing(t.sessions[k], 0) == Facing(Run(sys.sessions[k], Local(sys, inputs, k, hz), hz), 0)
            && Of(t.log, k) == t.sessions[k].out
  {
    hide Step, News, Tagged;
    if inputs != [] {
      var pre, i := inputs[..|inputs| - 1], inputs[|inputs| - 1];
      Independent(sys, pre, k, hz);
      var mid := Play(sys, pre, hz);
      var v := Facing(mid.sessions[i.k], mid.free);
      OfAppend(mid.log, Tagged(i.k, News(v, i.e, hz)), k);
      OfTagged(i.k, News(v, i.e, hz), k);
      if i.k == k {
        StepNews(v, i.e, hz);
        PoolStep(Run(sys.sessions[k], Local(sys, pre, k, hz), hz), mid.free, hz);
        RunOfTwo(sys.sessions[k], Local(sys, pre, k, hz), Pool(mid.free), i.e, hz);
        assert Facing(Facing(mid.sessions[k], 0), mid.free) == v;
      } else {
        assert Of(mid.log, k) + [] == Of(mid.log, k);
        assert Local(sys, pre, k, hz) + [] == Local(sys, pre, k, hz);
      }
    }
  }

  lemma PoolStep(s: Session, free: nat, hz: nat)
    ensures Step(s, Pool(free), hz) == Facing(s, free)
  {
  }

  /** In every interleaving in which session k's own steps are benign, what it announced is in
      order within the log all sessions share, under the labels the integer machine gives to its
      own events, and its list satisfies the reordering invariant. */
  lemma InterleavedInOrder(sys: System, inputs: seq<Input>, k: nat, win: nat, at: nat, hz: nat)
    returns (out: seq<Announcement>)
    requires Addressed(|sys.sessions|, inputs) && k < |sys.sessions| && sys.log == []
    requires 1 <= win <= 255 && sys.sessions[k] == Fresh(win, at, sys.free)
    requires BenignRun(Fresh(win, at, sys.free), Local(sys, inputs, k, hz), hz)
    ensures out == MachineRun(Fresh(win, at, sys.free), FreshMachine(win), Local(sys, inputs, k, hz), hz).out
    ensures Ordered(out) && Packets(out) == Of(Play(sys, inputs, hz).log, k)
    ensures Window(Play(sys, inputs, hz).sessions[k], 2)
  {
    hide BenignRun, Fresh, Run;
    var es := Local(sys, inputs, k, hz);
    FreshLog(win, at, sys.free);
    Independent(sys, inputs, k, hz);
    AnnouncedInOrder(win, at, sys.free, es, hz);
    ReorderInvariant(win, at, sys.free, es, hz);
    out := MachineRun(Fresh(win, at, sys.free), FreshMachine(win), es, hz).out;
    FacingWindow(Play(sys, inputs, hz).sessions[k], Run(Fresh(win, at, sys.free), es, hz));
  }

  lemma FreshLog(win: nat, at: nat, free: nat)
    ensures Fresh(win, at, free).out == []
  {
  }

  lemma FacingWindow(s: Session, t: Session)
    requires Facing(s, 0) == Facing(t, 0) && Window(t, 2)
    ensures Window(s, 2) && s.out == t.out
  {
    assert s == t.(free := s.free);
  }
}
