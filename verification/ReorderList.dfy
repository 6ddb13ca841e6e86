/** The linked lists of common/ba_action.c: blocks chained through their `next` pointer under
    a head with a length counter. The same type serves as a session's sorted reordering list
    and as the shared free list of blocks. */
module ReorderList {
  import opened Basics
  import opened SeqNum
  import opened ReorderSpec

  /** struct reordering_mpdu */
  class Mpdu {
    var next: Mpdu?
    var sequence: nat
    var pkt: Packet

    constructor ()
      ensures next == null
    {
      next, sequence, pkt := null, 0, NO_PACKET;
    }
  }

  // What a block holds after memset.
  const NO_PACKET := Packet(0, 0, false)

  ghost function Elements<T>(s: seq<T>): set<T> {
    set x | x in s
  }

  lemma ElementsSplice<T>(s: seq<T>, k: nat, b: T)
    requires k <= |s|
    ensures Elements(s[..k] + [b] + s[k..]) == Elements(s) + {b}
  {
    assert s == s[..k] + s[k..];
  }

  /** struct reordering_list; `nodes` is the chain as a sequence. */
  class MpduList {
    var next: Mpdu?
    var qlen: int
    ghost var nodes: seq<Mpdu>

    ghost predicate Valid()
      reads this, nodes
    {
      && qlen == |nodes|
      && Distinct(nodes)
      && next == (if nodes == [] then null else nodes[0])
      && forall i :: 0 <= i < |nodes| ==> LinkedAt(i)
    }

    ghost predicate LinkedAt(i: nat)
      requires i < |nodes|
      reads this, nodes
    {
      nodes[i].next == if i + 1 < |nodes| then nodes[i + 1] else null
    }

    /** Every block in the chain carries its packet's sequence number. */
    ghost predicate Stamped()
      reads this, nodes
    {
      forall i :: 0 <= i < |nodes| ==> nodes[i].sequence == nodes[i].pkt.seqno
    }

    ghost function Contents(): (s: seq<Packet>)
      reads this, nodes
      ensures |s| == |nodes| && forall i :: 0 <= i < |s| ==> s[i] == nodes[i].pkt
    {
      seq(|nodes|, i requires 0 <= i < |nodes| reads this, nodes => nodes[i].pkt)
    }

    constructor ()
      ensures Valid() && nodes == [] && fresh(this)
    {
      next, qlen, nodes := null, 0, [];
    }

    /** ba_enqueue: push at the front. */
    method Push(b: Mpdu)
      requires Valid() && b !in nodes
      modifies this, b`next
      ensures Valid() && nodes == [b] + old(nodes)
    {
      qlen := qlen + 1;
      b.next := next;
      next := b;
      nodes := [b] + nodes;
      forall i | 0 <= i < |nodes| ensures LinkedAt(i) {
        if i > 0 {
          assert nodes[i] == old(nodes)[i - 1] && old(LinkedAt(i - 1));
        }
      }
    }

    /** ba_dequeue: pop the first block, if any. */
    method Pop() returns (b: Mpdu?)
      requires Valid()
      modifies this, nodes
      ensures Valid()
      ensures old(nodes) == [] ==> b == null && nodes == []
      ensures old(nodes) != [] ==> b == old(nodes)[0] && nodes == old(nodes)[1..] && b.next == null
      ensures forall x :: x in old(nodes) ==> x.sequence == old(x.sequence) && x.pkt == old(x.pkt)
    {
      b := null;
      if qlen != 0 {
        assert LinkedAt(0);
        qlen := qlen - 1;
        b := next;
        next := b.next;
        nodes := nodes[1..];
        b.next := null;
        forall i | 0 <= i < |nodes| ensures LinkedAt(i) {
          assert nodes[i] == old(nodes)[i + 1] && old(LinkedAt(i + 1)) && old(nodes)[0] != old(nodes)[i + 1];
        }
      }
    }

    /** ba_reordering_mpdu_insertsorted */
    method InsertSorted(b: Mpdu) returns (ok: bool)
      requires Valid() && Stamped() && b !in nodes && b.sequence == b.pkt.seqno
      modifies this, nodes, b`next
      ensures Valid() && Stamped()
      ensures ok <==> !IsQueued(old(Contents()), b.pkt.seqno)
      ensures ok ==> Contents() == Insert(old(Contents()), b.pkt)
      ensures ok ==> Elements(nodes) == Elements(old(nodes)) + {b}
      ensures ok ==> forall x: Mpdu :: x in nodes ==> x in old(nodes) || x == b
      ensures !ok ==> nodes == old(nodes) && Contents() == old(Contents())
      ensures b.pkt == old(b.pkt)
    {
      hide Smaller, InsertPos, Valid, LinkedAt, Distinct, Elements;
      var prev, cur;
      ghost var k;
      prev, cur, k := Scan(b.sequence);
      if cur != null && cur.sequence == b.sequence {
        return false;
      }
      Link(prev, cur, b, k);
      ElementsSplice(old(nodes), k, b);
      assert Contents() == old(Contents())[..k] + [b.pkt] + old(Contents())[k..];
      ok := true;
    }

    /** The scan with ppScan: the first block that is not smaller, and the one before it. */
    method Scan(s: nat) returns (prev: Mpdu?, cur: Mpdu?, ghost k: nat)
      requires Valid() && Stamped()
      ensures k == InsertPos(Contents(), s) && k <= |nodes|
      ensures cur == if k < |nodes| then nodes[k] else null
      ensures prev == if k == 0 then null else nodes[k - 1]
    {
      prev, cur, k := null, next, 0;
      while cur != null && Smaller(cur.sequence, s)
        invariant 0 <= k <= |nodes|
        invariant cur == if k < |nodes| then nodes[k] else null
        invariant prev == if k == 0 then null else nodes[k - 1]
        invariant forall i :: 0 <= i < k ==> Smaller(nodes[i].pkt.seqno, s)
        decreases |nodes| - k
      {
        assert LinkedAt(k);
        prev, cur, k := cur, cur.next, k + 1;
      }
    }

    /** Splice b in between prev and cur (`*ppScan = mpdu`). */
    method Link(prev: Mpdu?, cur: Mpdu?, b: Mpdu, ghost k: nat)
      requires Valid() && b !in nodes && k <= |nodes|
      requires cur == if k < |nodes| then nodes[k] else null
      requires prev == if k == 0 then null else nodes[k - 1]
      modifies this, nodes, b`next
      ensures Valid() && nodes == old(nodes)[..k] + [b] + old(nodes)[k..]
      ensures forall x: Mpdu :: x in old(nodes) || x == b ==> x.sequence == old(x.sequence) && x.pkt == old(x.pkt)
    {
      b.next := cur;
      if prev == null {
        next := b;
      } else {
        prev.next := b;
      }
      qlen := qlen + 1;
      nodes := nodes[..k] + [b] + nodes[k..];
      forall i | 0 <= i < |nodes| ensures LinkedAt(i) {
        if i < k {
          assert nodes[i] == old(nodes)[i] && old(LinkedAt(i));
        } else if i > k {
          assert nodes[i] == old(nodes)[i - 1] && old(LinkedAt(i - 1));
        }
      }
    }
  }
}
