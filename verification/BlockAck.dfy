/** The two halves together: session tables and reordering entries behind the driver's entry
    points. The invariant says that every block of the pool is in exactly one place, that every
    packet ever received is in exactly one class, and that only live sessions queue packets. */
module BlockAck {
  import opened Basics
  import opened SeqNum
  import opened ReorderSpec
  import opened ReorderList
  import opened ReorderEngine
  import opened BaLinks
  import opened BaTableSpec
  import opened BaSessions

  // ---------------------------------------------------------------- sums over all entries

  ghost function Sum(s: seq<nat>): nat {
    if s == [] then 0 else Sum(s[..|s| - 1]) + s[|s| - 1]
  }

  lemma {:induction false} SumUpdate(s: seq<nat>, i: nat, x: nat)
    requires i < |s|
    ensures Sum(s[i := x]) + s[i] == Sum(s) + x
  {
    var n := |s| - 1;
    if i < n {
      SumUpdate(s[..n], i, x);
      assert s[i := x][..n] == s[..n][i := x];
    } else {
      assert s[i := x][..n] == s[..n];
    }
  }

  lemma {:induction false} ZeroSum(s: seq<nat>)
    requires forall i :: 0 <= i < |s| ==> s[i] == 0
    ensures Sum(s) == 0
  {
    if s != [] {
      ZeroSum(s[..|s| - 1]);
    }
  }

  /** All that is queued. */
  ghost function Gathered(qs: seq<seq<Packet>>): multiset<Packet> {
    if qs == [] then multiset{} else Gathered(qs[..|qs| - 1]) + multiset(qs[|qs| - 1])
  }

  lemma {:induction false} GatheredUpdate(qs: seq<seq<Packet>>, i: nat, q: seq<Packet>)
    requires i < |qs|
    ensures Gathered(qs[i := q]) + multiset(qs[i]) == Gathered(qs) + multiset(q)
  {
    var n := |qs| - 1;
    if i < n {
      GatheredUpdate(qs[..n], i, q);
      assert qs[i := q][..n] == qs[..n][i := q];
      Shuffle(Gathered(qs[..n]), Gathered(qs[..n][i := q]), multiset(qs[n]), multiset(qs[i]), multiset(q));
    } else {
      assert qs[i := q][..n] == qs[..n];
    }
  }

  lemma {:induction false} NothingGathered(qs: seq<seq<Packet>>)
    requires forall i :: 0 <= i < |qs| ==> qs[i] == []
    ensures Gathered(qs) == multiset{}
  {
    if qs != [] {
      NothingGathered(qs[..|qs| - 1]);
    }
  }

  lemma Shuffle(a: multiset<Packet>, b: multiset<Packet>, c: multiset<Packet>, d: multiset<Packet>, x: multiset<Packet>)
    requires b + d == a + x
    ensures (b + c) + d == (a + c) + x
  {
    forall p: Packet ensures ((b + c) + d)[p] == ((a + c) + x)[p] {
      assert (b + d)[p] == (a + x)[p];
    }
  }

  /** If entry k's own packets plus the logs grew as what was received did, so did everything. */
  lemma Rearrange(logs: multiset<Packet>, logs0: multiset<Packet>, all: multiset<Packet>, all0: multiset<Packet>,
                  q: multiset<Packet>, q0: multiset<Packet>, g: multiset<Packet>, g0: multiset<Packet>)
    requires all + q0 == all0 + q && logs + q + g0 == logs0 + q0 + g && logs0 + all0 == g0
    ensures logs + all == g
  {
    forall p: Packet ensures (logs + all)[p] == g[p] {
      assert (all + q0)[p] == (all0 + q)[p] && (logs + q + g0)[p] == (logs0 + q0 + g)[p] && (logs0 + all0)[p] == g0[p];
    }
  }

  lemma Carry(logs: multiset<Packet>, logs0: multiset<Packet>, all: multiset<Packet>, g: multiset<Packet>,
              g0: multiset<Packet>)
    requires logs + g0 == logs0 + g && logs0 + all == g0
    ensures logs + all == g
  {
    forall p: Packet ensures (logs + all)[p] == g[p] {
      assert (logs + g0)[p] == (logs0 + g)[p] && (logs0 + all)[p] == g0[p];
    }
  }

  class Receiver {
    const rx: RxPath
    const entries: seq<RecEntry>
    ghost const total: nat          // number of blocks in the pool at start
    ghost const blocks: set<Mpdu>
    ghost const repr: set<object>
    ghost var given: multiset<Packet>

    /** num blocks, nRec entries, nothing received yet. */
    constructor (num: nat, nRec: nat, hz: nat)
      ensures Valid() && |entries| == nRec && total == num && rx.hz == hz && this !in repr
      ensures given == multiset{} && rx.delivered == []
      ensures forall i :: 0 <= i < nRec ==> entries[i].list.nodes == []
    {
      hide Valid, Apart, AllReady, PoolLaw, PacketLaw, MpduList.Valid, Distinct;
      var r := new RxPath(num, hz);
      var es := BuildEntries(nRec, r.pool);
      rx, entries, total, given := r, es, num, multiset{};
      blocks := Elements(r.pool.nodes);
      repr := {r, r.pool} + (set e | e in es) + (set e | e in es :: e.list) + Elements(r.pool.nodes);
      new;
      Empty();
    }

    static method BuildEntries(n: nat, pool: MpduList) returns (es: seq<RecEntry>)
      ensures |es| == n
      ensures forall i :: 0 <= i < n ==> fresh(es[i]) && fresh(es[i].list) && es[i].list != pool
      ensures forall i :: 0 <= i < n ==> es[i].list.Valid() && es[i].list.nodes == []
      ensures forall i, j :: 0 <= i < j < n ==> es[i] != es[j] && es[i].list != es[j].list
    {
      es := [];
      while |es| < n
        invariant |es| <= n
        invariant forall i :: 0 <= i < |es| ==> fresh(es[i]) && fresh(es[i].list) && es[i].list != pool
        invariant forall i :: 0 <= i < |es| ==> es[i].list.Valid() && es[i].list.nodes == []
        invariant forall i, j :: 0 <= i < j < |es| ==> es[i] != es[j] && es[i].list != es[j].list
      {
        var e := new RecEntry();
        es := es + [e];
      }
    }

    /** The laws hold of empty lists and a full pool. */
    lemma Empty()
      requires Placed() && rx.pool.Valid() && Elements(rx.pool.nodes) <= blocks && rx.leaked == {}
      requires forall i :: 0 <= i < |entries| ==> entries[i].list.Valid() && entries[i].list.nodes == []
      requires rx.delivered == [] && rx.dropped == [] && given == multiset{} && |rx.pool.nodes| == total
      ensures Valid()
    {
      assert forall i :: 0 <= i < |entries| ==> Part(i) == {};
      assert forall n :: 0 <= n < |rx.pool.nodes| ==> rx.pool.nodes[n] in Elements(rx.pool.nodes);
      ZeroSum(Lens());
      NothingQueued();
    }

    lemma NothingQueued()
      requires Placed() && Apart()
      requires forall i :: 0 <= i < |entries| ==> entries[i].list.nodes == []
      ensures Gathered(Queues()) == multiset{}
    {
      hide Placed, Apart;
      assert forall i :: 0 <= i < |entries| ==> Queues()[i] == Queued(i) == [];
      NothingGathered(Queues());
    }

    ghost predicate Placed()
    {
      && rx in repr && rx.pool in repr && this !in repr
      && (forall x :: x in blocks ==> x in repr)
      && (forall i :: 0 <= i < |entries| ==>
            entries[i] in repr && entries[i].list in repr && entries[i].list != rx.pool)
      && (forall i, j :: 0 <= i < j < |entries| ==> entries[i] != entries[j] && entries[i].list != entries[j].list)
    }

    ghost function Lens(): seq<nat>
      requires Placed()
      reads repr
    {
      seq(|entries|, i requires 0 <= i < |entries| reads repr => |entries[i].list.nodes|)
    }

    /** The blocks entry i holds. */
    ghost function Part(i: nat): set<Mpdu>
      requires i < |entries| && Placed()
      reads repr
    {
      Elements(entries[i].list.nodes)
    }

    /** Every block of every list is one of the pool's, and no two lists share one. */
    ghost predicate Apart()
      requires Placed()
      reads repr
    {
      && (forall i :: 0 <= i < |entries| ==> Part(i) <= blocks)
      && Elements(rx.pool.nodes) <= blocks && rx.leaked <= blocks
      && (forall i, j :: 0 <= i < j < |entries| ==> Part(i) !! Part(j))
      && (forall i, k :: 0 <= i < |entries| && 0 <= k < |entries[i].list.nodes| ==> entries[i].list.nodes[k] in repr)
      && (forall k :: 0 <= k < |rx.pool.nodes| ==> rx.pool.nodes[k] in repr)
    }

    ghost function Queued(i: nat): seq<Packet>
      requires i < |entries| && Placed() && Apart()
      reads repr
    {
      entries[i].list.Contents()
    }

    /** What each entry has queued. */
    ghost function Queues(): seq<seq<Packet>>
      requires Placed() && Apart()
      reads repr
    {
      seq(|entries|, i requires 0 <= i < |entries| && Placed() && Apart() reads repr => Queued(i))
    }

    ghost predicate ReadyAt(i: nat)
      requires i < |entries| && Placed() && Apart()
      reads repr
    {
      entries[i].Ready(rx)
    }

    ghost predicate AllReady()
      requires Placed() && Apart()
      reads repr
    {
      forall i :: 0 <= i < |entries| ==> ReadyAt(i)
    }

    /** free blocks + queued blocks over all sessions + leaked blocks = the blocks at start. */
    ghost predicate PoolLaw()
      requires Placed()
      reads repr
    {
      |rx.pool.nodes| + Sum(Lens()) + |rx.leaked| == total
    }

    /** delivered + dropped + queued over all sessions = everything received. */
    ghost predicate PacketLaw()
      requires Placed() && Apart()
      reads this, repr
    {
      multiset(rx.delivered) + multiset(rx.dropped) + Gathered(Queues()) == given
    }

    ghost predicate Valid()
      reads this, repr
    {
      Placed() && Apart() && AllReady() && PoolLaw() && PacketLaw()
    }

    /** Nothing of entry j changed. */
    twostate predicate Same(j: nat)
      requires j < |entries|
      reads entries[j], entries[j].list, entries[j].list.nodes
    {
      && unchanged(entries[j]) && unchanged(entries[j].list)
      && forall k :: 0 <= k < |entries[j].list.nodes| ==> unchanged(entries[j].list.nodes[k])
    }

    /** Entry k was worked on and every other entry was left alone: if k's own part of the laws
        holds, the whole does. */
    twostate lemma Kept(k: nat)
      requires old(Valid()) && k < |entries|
      requires entries[k].Ready(rx) && entries[k].AllBlocks(rx) == old(entries[k].AllBlocks(rx))
      requires forall j :: 0 <= j < |entries| && j != k ==> Same(j)
      requires Blocks(entries[k].View(rx)) == Blocks(old(entries[k].View(rx)))
      requires Held(entries[k].View(rx)) + old(given) == Held(old(entries[k].View(rx))) + given
      ensures Placed() && Apart() && AllReady() && PoolLaw() && PacketLaw()
    {
      hide Valid, Placed, Apart, AllReady, PoolLaw, PacketLaw, Same, Held, Blocks, RecEntry.Ready, RecEntry.AllBlocks,
        RecEntry.View;
      KeptApart(k);
      KeptReady(k);
      KeptLaws(k);
    }

    twostate lemma KeptLaws(k: nat)
      requires old(Valid()) && k < |entries| && Placed() && Apart()
      requires entries[k].Ready(rx)
      requires forall j :: 0 <= j < |entries| && j != k ==> Same(j)
      requires Blocks(entries[k].View(rx)) == Blocks(old(entries[k].View(rx)))
      requires Held(entries[k].View(rx)) + old(given) == Held(old(entries[k].View(rx))) + given
      ensures PoolLaw() && PacketLaw()
    {
      hide Valid, AllReady, PoolLaw, PacketLaw, Same, Held, Blocks, RecEntry.Ready, RecEntry.AllBlocks, RecEntry.View;
      KeptPool(k);
      KeptPackets(k);
    }

    /** What the other entries hold was disjoint from all that entry k could touch. */
    twostate lemma KeptApart(k: nat)
      requires old(Valid()) && k < |entries|
      requires entries[k].Ready(rx) && entries[k].AllBlocks(rx) == old(entries[k].AllBlocks(rx))
      requires forall j :: 0 <= j < |entries| && j != k ==> Same(j)
      ensures Placed() && Apart()
      ensures forall j :: 0 <= j < |entries| && j != k ==> Part(j) !! entries[k].AllBlocks(rx)
    {
      KeptParts(k);
      assert forall i :: 0 <= i < |entries| ==> Part(i) <= blocks by {
        assert Part(k) <= entries[k].AllBlocks(rx);
      }
      assert forall i, n :: 0 <= i < |entries| && 0 <= n < |entries[i].list.nodes| ==>
             entries[i].list.nodes[n] in Part(i);
      assert forall n :: 0 <= n < |rx.pool.nodes| ==> rx.pool.nodes[n] in Elements(rx.pool.nodes);
      forall i, j | 0 <= i < j < |entries| ensures Part(i) !! Part(j) {
        assert Part(k) <= entries[k].AllBlocks(rx);
        if i != k && j != k {
          assert old(Part(i)) !! old(Part(j));
        }
      }
    }

    twostate lemma KeptParts(k: nat)
      requires old(Valid()) && k < |entries|
      requires entries[k].AllBlocks(rx) == old(entries[k].AllBlocks(rx))
      requires forall j :: 0 <= j < |entries| && j != k ==> Same(j)
      ensures entries[k].AllBlocks(rx) <= blocks
      ensures forall j :: 0 <= j < |entries| && j != k ==>
                Part(j) == old(Part(j)) && Part(j) !! entries[k].AllBlocks(rx)
    {
      assert old(entries[k].AllBlocks(rx)) == old(Part(k)) + old(Elements(rx.pool.nodes)) + old(rx.leaked);
      forall j | 0 <= j < |entries| && j != k
        ensures Part(j) == old(Part(j)) && Part(j) !! entries[k].AllBlocks(rx)
      {
        assert Same(j) && old(ReadyAt(j));
        OldReadySets(j);
        assert old(Part(j)) !! old(Part(k));
      }
    }

    twostate lemma ListKept(j: nat)
      requires j < |entries| && Same(j)
      ensures old(entries[j].list.Valid()) ==> entries[j].list.Valid()
      ensures old(entries[j].list.Stamped()) ==> entries[j].list.Stamped()
      ensures old(entries[j].list.Contents()) == entries[j].list.Contents()
    {
    }

    twostate lemma KeptReady(k: nat)
      requires old(Valid()) && k < |entries| && Placed() && Apart()
      requires entries[k].Ready(rx)
      requires forall j :: 0 <= j < |entries| && j != k ==> Same(j)
      requires forall j :: 0 <= j < |entries| && j != k ==> Part(j) !! entries[k].AllBlocks(rx)
      ensures AllReady()
    {
      hide MpduList.Valid, MpduList.Stamped;
      ReadySets(entries[k]);
      forall j | 0 <= j < |entries| ensures ReadyAt(j) {
        if j != k {
          assert Same(j) && old(ReadyAt(j));
          ListKept(j);
          assert Elements(rx.pool.nodes) + rx.leaked <= entries[k].AllBlocks(rx) && Part(j) !! entries[k].AllBlocks(rx);
          ReadyFromSets(entries[j]);
        }
      }
    }

    lemma ReadyFromSets(e: RecEntry)
      requires e.list != rx.pool && e.list.Valid() && e.list.Stamped() && rx.pool.Valid()
      requires Elements(e.list.nodes) !! (Elements(rx.pool.nodes) + rx.leaked) && Elements(rx.pool.nodes) !! rx.leaked
      ensures e.Ready(rx)
    {
      assert forall x: Mpdu :: x in e.list.nodes ==> x in Elements(e.list.nodes);
      assert forall x: Mpdu :: x in rx.pool.nodes ==> x in Elements(rx.pool.nodes);
    }

    twostate lemma KeptPool(k: nat)
      requires old(Valid()) && k < |entries| && Placed() && Apart()
      requires entries[k].Ready(rx)
      requires forall j :: 0 <= j < |entries| && j != k ==> Same(j)
      requires Blocks(entries[k].View(rx)) == Blocks(old(entries[k].View(rx)))
      ensures PoolLaw()
    {
      assert Lens() == old(Lens())[k := |entries[k].list.nodes|] by {
        forall j | 0 <= j < |entries| && j != k ensures |entries[j].list.nodes| == old(|entries[j].list.nodes|) {
          assert Same(j);
        }
      }
      SumUpdate(old(Lens()), k, |entries[k].list.nodes|);
    }

    twostate lemma KeptPackets(k: nat)
      requires old(Valid()) && k < |entries| && Placed() && Apart()
      requires forall j :: 0 <= j < |entries| && j != k ==> Same(j)
      requires Held(entries[k].View(rx)) + old(given) == Held(old(entries[k].View(rx))) + given
      ensures PacketLaw()
    {
      QueuesKept(k);
      GatheredUpdate(old(Queues()), k, Queued(k));
      Rearrange(multiset(rx.delivered) + multiset(rx.dropped), old(multiset(rx.delivered) + multiset(rx.dropped)),
                Gathered(Queues()), old(Gathered(Queues())), multiset(Queued(k)), old(multiset(Queued(k))),
                given, old(given));
    }

    /** Only entry k's queue differs. */
    twostate lemma QueuesKept(k: nat)
      requires old(Placed() && Apart()) && Placed() && Apart() && k < |entries|
      requires forall j :: 0 <= j < |entries| && j != k ==> Same(j)
      ensures Queues() == old(Queues())[k := Queued(k)]
    {
      hide Same, Apart, Placed;
      forall j | 0 <= j < |entries| ensures Queues()[j] == old(Queues())[k := Queued(k)][j] {
        if j != k {
          assert Same(j);
          ListKept(j);
        }
      }
    }

    lemma ReadySets(e: RecEntry)
      requires e.Ready(rx)
      ensures Elements(e.list.nodes) !! Elements(rx.pool.nodes) && Elements(e.list.nodes) !! rx.leaked
      ensures Elements(rx.pool.nodes) !! rx.leaked
    {
    }

    twostate lemma OldReadySets(j: nat)
      requires j < |entries| && old(entries[j].Ready(rx))
      ensures old(Elements(entries[j].list.nodes)) !! old(Elements(rx.pool.nodes))
      ensures old(Elements(entries[j].list.nodes)) !! old(rx.leaked)
    {
    }

    // -------------------------------------------------------------- one entry at work

    /** All that work on entry k may write. */
    ghost function Touched(k: nat): set<object>
      requires k < |entries|
      reads entries[k].list, rx.pool
    {
      {entries[k], entries[k].list, rx, rx.pool}
      + (set x | x in entries[k].list.nodes) + (set x | x in rx.pool.nodes)
    }

    lemma BeforeWork(k: nat)
      requires Valid() && k < |entries|
      ensures entries[k].Ready(rx)
      ensures entries[k] in repr && entries[k].list in repr && rx in repr && rx.pool in repr && this !in repr
      ensures forall n :: 0 <= n < |entries[k].list.nodes| ==> entries[k].list.nodes[n] in repr
      ensures forall n :: 0 <= n < |rx.pool.nodes| ==> rx.pool.nodes[n] in repr
    {
      assert ReadyAt(k);
    }

    /** Whatever was not written stayed the same, and the laws carry over. */
    twostate lemma AfterWork(k: nat)
      requires old(Valid()) && k < |entries|
      requires forall o :: o in repr && o !in old(Touched(k)) ==> unchanged(o)
      requires entries[k].Ready(rx) && entries[k].AllBlocks(rx) == old(entries[k].AllBlocks(rx))
      requires Blocks(entries[k].View(rx)) == Blocks(old(entries[k].View(rx)))
      requires Held(entries[k].View(rx)) + old(given) == Held(old(entries[k].View(rx))) + given
      ensures Valid()
      ensures forall j :: 0 <= j < |entries| && j != k ==> Same(j)
    {
      hide Placed, Apart, AllReady, PoolLaw, PacketLaw, Same, Held, Blocks, RecEntry.Ready, RecEntry.AllBlocks,
        RecEntry.View;
      OthersSame(k);
      Kept(k);
    }

    /** What entry k can reach is disjoint from every other entry. */
    twostate lemma OthersSame(k: nat)
      requires old(Valid()) && k < |entries|
      requires forall o :: o in repr && o !in old(Touched(k)) ==> unchanged(o)
      ensures forall j :: 0 <= j < |entries| && j != k ==> Same(j)
    {
      hide PoolLaw, PacketLaw, RecEntry.Ready, Distinct;
      forall j | 0 <= j < |entries| && j != k ensures Same(j) {
        assert old(ReadyAt(j)) && old(Part(j)) !! old(Part(k));
        OldReadySets(j);
        assert entries[j] in repr && entries[j] !in old(Touched(k));
        assert entries[j].list in repr && entries[j].list !in old(Touched(k));
        forall n | 0 <= n < |entries[j].list.nodes| ensures unchanged(entries[j].list.nodes[n]) {
          var x := old(entries[j].list.nodes)[n];
          assert x in old(Elements(entries[j].list.nodes)) && x !in old(Elements(rx.pool.nodes));
          assert x in repr && x in old(Part(j)) && x !in old(Part(k)) && x !in old(rx.pool.nodes);
        }
      }
    }

    method IndicateAt(k: nat, p: Packet, now: nat)
      requires Valid() && k < |entries|
      modifies this`given, repr
      ensures Valid() && given == old(given) + multiset{p}
      ensures entries[k].View(rx) == ReorderSpec.Indicate(old(entries[k].View(rx)), p, now, rx.hz)
      ensures forall j :: 0 <= j < |entries| && j != k ==> Same(j)
    {
      hide Valid, Same, RecEntry.Ready, RecEntry.View, Held, Blocks, ReorderSpec.Indicate, RecEntry.Owned;
      BeforeWork(k);
      StepConserves(entries[k].View(rx), Frame(p, now), rx.hz);
      entries[k].Indicate(rx, p, now);
      given := given + multiset{p};
      AfterWork(k);
    }

    method BarAt(k: nat, start: Seq12)
      requires Valid() && k < |entries|
      modifies repr
      ensures Valid()
      ensures entries[k].View(rx) == ReorderSpec.BlockAckReq(old(entries[k].View(rx)), start)
      ensures forall j :: 0 <= j < |entries| && j != k ==> Same(j)
    {
      hide Valid, Same, RecEntry.Ready, RecEntry.View, Held, Blocks, ReorderSpec.BlockAckReq, RecEntry.Owned;
      BeforeWork(k);
      StepConserves(entries[k].View(rx), Bar(start), rx.hz);
      entries[k].BlockAckReq(rx, start);
      AfterWork(k);
    }

    method FlushAt(k: nat, now: nat)
      requires Valid() && k < |entries|
      modifies repr
      ensures Valid()
      ensures entries[k].View(rx) == TimeoutFlush(old(entries[k].View(rx)), now, rx.hz)
      ensures forall j :: 0 <= j < |entries| && j != k ==> Same(j)
    {
      hide Valid, Same, RecEntry.Ready, RecEntry.View, Held, Blocks, TimeoutFlush, RecEntry.Owned;
      BeforeWork(k);
      StepConserves(entries[k].View(rx), Timer(now), rx.hz);
      entries[k].FlushTimeout(rx, now);
      AfterWork(k);
    }

    method RefreshAt(k: nat)
      requires Valid() && k < |entries|
      modifies repr
      ensures Valid() && entries[k].list.nodes == []
      ensures entries[k].View(rx) == ReorderSpec.Refresh(old(entries[k].View(rx)))
      ensures forall j :: 0 <= j < |entries| && j != k ==> Same(j)
    {
      hide Valid, Same, RecEntry.Ready, RecEntry.View, Held, Blocks, ReorderSpec.Refresh, RecEntry.Owned;
      BeforeWork(k);
      StepConserves(entries[k].View(rx), Idle, rx.hz);
      entries[k].Refresh(rx);
      AfterWork(k);
    }

    method InstallAt(k: nat, w: nat)
      requires Valid() && k < |entries|
      modifies repr
      ensures Valid() && entries[k].list.nodes == [] && entries[k].win == w
      ensures entries[k].View(rx) == ReorderSpec.Install(old(entries[k].View(rx)), w)
      ensures forall j :: 0 <= j < |entries| && j != k ==> Same(j)
    {
      hide Valid, Same, RecEntry.Ready, Held, Blocks, ReorderSpec.Install, RecEntry.Owned;
      BeforeWork(k);
      StepConserves(entries[k].View(rx), Setup(w), rx.hz);
      entries[k].Install(rx, w);
      assert entries[k].win == w by { InstallWin(old(entries[k].View(rx)), w); }
      AfterWork(k);
    }

    lemma InstallWin(s: Session, w: nat)
      ensures ReorderSpec.Install(s, w).win == w
    {
    }

    method DiscardAt(k: nat)
      requires Valid() && k < |entries|
      modifies repr
      ensures Valid() && entries[k].list.nodes == []
      ensures var v := old(entries[k].View(rx));
              entries[k].View(rx) == v.(list := [], free := v.free + |v.list|, gone := v.gone + v.list)
      ensures forall j :: 0 <= j < |entries| && j != k ==> Same(j)
    {
      hide Valid, Same, RecEntry.Ready, RecEntry.View, RecEntry.Owned;
      BeforeWork(k);
      entries[k].Discard(rx);
      AfterWork(k);
    }

    /** A packet of no session: straight up, or released. */
    method Direct(p: Packet, up: bool)
      requires Valid()
      modifies this`given, rx`delivered, rx`dropped
      ensures Valid() && given == old(given) + multiset{p}
      ensures rx.delivered == old(rx.delivered) + (if up then [p] else [])
      ensures rx.dropped == old(rx.dropped) + (if up then [] else [p])
      ensures forall o :: o in repr && o != rx ==> unchanged(o)
    {
      hide Apart, AllReady, PoolLaw, PacketLaw;
      if up {
        rx.delivered := rx.delivered + [p];
      } else {
        rx.dropped := rx.dropped + [p];
      }
      given := given + multiset{p};
      LogsOnly();
    }

    twostate lemma LogsOnly()
      requires old(Valid())
      requires forall o :: o in repr && o != rx ==> unchanged(o)
      requires rx.leaked == old(rx.leaked)
      requires multiset(rx.delivered) + multiset(rx.dropped) + old(given) ==
                 old(multiset(rx.delivered) + multiset(rx.dropped)) + given
      ensures Valid()
    {
      forall j | 0 <= j < |entries|
        ensures entries[j].list.nodes == old(entries[j].list.nodes) && entries[j].Ready(rx) && Part(j) == old(Part(j))
      {
        LogsOnlyAt(j);
      }
      assert rx.pool in repr && unchanged(rx.pool);
      assert Apart();
      assert Lens() == old(Lens());
      SameQueued();
      Carry(multiset(rx.delivered) + multiset(rx.dropped), old(multiset(rx.delivered) + multiset(rx.dropped)),
            Gathered(Queues()), given, old(given));
    }

    twostate lemma LogsOnlyAt(j: nat)
      requires old(Valid()) && j < |entries|
      requires forall o :: o in repr && o != rx ==> unchanged(o)
      requires rx.leaked == old(rx.leaked)
      ensures entries[j].list.nodes == old(entries[j].list.nodes) && entries[j].Ready(rx) && Part(j) == old(Part(j))
    {
      assert old(ReadyAt(j));
      assert entries[j].list in repr && rx.pool in repr;
      ListKeptQuiet(j);
    }

    twostate lemma ListKeptQuiet(j: nat)
      requires old(Valid()) && j < |entries|
      requires forall o :: o in repr && o != rx ==> unchanged(o)
      ensures entries[j].list.nodes == old(entries[j].list.nodes) && rx.pool.nodes == old(rx.pool.nodes)
      ensures old(entries[j].list.Valid()) ==> entries[j].list.Valid()
      ensures old(entries[j].list.Stamped()) ==> entries[j].list.Stamped()
      ensures old(rx.pool.Valid()) ==> rx.pool.Valid()
      ensures old(entries[j].list.Contents()) == entries[j].list.Contents()
    {
      assert entries[j].list in repr && rx.pool in repr;
      assert forall k :: 0 <= k < |entries[j].list.nodes| ==> unchanged(entries[j].list.nodes[k]);
      assert forall k :: 0 <= k < |rx.pool.nodes| ==> unchanged(rx.pool.nodes[k]);
    }

    twostate lemma SameQueued()
      requires old(Valid() && Placed() && Apart()) && Placed() && Apart()
      requires forall o :: o in repr && o != rx ==> unchanged(o)
      ensures Queues() == old(Queues())
    {
      hide Valid, Apart, Placed;
      forall j | 0 <= j < |entries| ensures Queues()[j] == old(Queues())[j] {
        ListKeptQuiet(j);
      }
    }
  }
}
