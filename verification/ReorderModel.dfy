/** What the reordering buffer means: a machine over unbounded integers, with the queue as a
    map from sequence number to packet, and the proof that the 12-bit session of ReorderSpec
    refines it. No modular arithmetic, no list order and no bit test occurs in the machine
    except where a 12-bit number read from a frame is placed on the integer line. */
module ReorderModel {
  import opened Basics
  import opened SeqNum
  import opened ReorderSpec

  datatype Option<T> = None | Some(value: T)

  /** One packet passed to the upper layer: the stretch between two resets it belongs to, its
      unwrapped number, the (unwrapped) start of the last BlockAckReq of that stretch, and
      whether it bypassed the list (no block, or EAP). */
  datatype Announcement = Announcement(epoch: nat, num: int, pkt: Packet, bar: Option<int>, bypass: bool)

  datatype Machine = Machine(
    active: bool,              // false while LastIndSeq is RESET_RCV_SEQ
    last: int,
    win: nat,
    q: map<int, Packet>,
    epoch: nat,
    bar: Option<int>,
    out: seq<Announcement>,
    gone: seq<Packet>)

  // ---------------------------------------------------------------- the integer machine

  function Announced(m: Machine, n: int, p: Packet, bypass: bool): Machine {
    m.(out := m.out + [Announcement(m.epoch, n, p, m.bar, bypass)])
  }

  /** Announce the queued numbers from lo to hi, counting up. */
  function EmitRange(m: Machine, lo: int, hi: int): Machine
    decreases hi - lo
  {
    if lo > hi then m
    else if lo in m.q then EmitRange(Announced(m, lo, m.q[lo], false).(q := m.q - {lo}), lo + 1, hi)
    else EmitRange(m, lo + 1, hi)
  }

  /** Announce everything queued up to n. */
  function EmitTo(m: Machine, n: int): Machine {
    EmitRange(m, m.last + 1, n)
  }

  /** Announce consecutive numbers while they are there. */
  function Advance(m: Machine): Machine
    decreases |m.q|
  {
    if m.last + 1 in m.q then
      var n := m.last + 1;
      Advance(Announced(m, n, m.q[n], false).(q := m.q - {n}, last := n))
    else m
  }

  /** Announce everything and forget where the sequence was. */
  function Restart(m: Machine): Machine {
    EmitTo(m, m.last + m.win).(active := false, epoch := m.epoch + 1, bar := None)
  }

  function Expire(m: Machine, f: Flush): Machine {
    match f
    case FlushNone => m
    case FlushOne => Advance(EmitTo(m, m.last + 1).(last := m.last + 1))
    case FlushAll => Restart(m)
  }

  /** Queue packet p as number n, or let it bypass the queue when no block was granted. */
  function Store(m: Machine, n: int, p: Packet, granted: bool): Machine {
    if granted then
      if n in m.q then m.(gone := m.gone + [p]) else m.(q := m.q[n := p])
    else
      Announced(EmitTo(m, n).(last := n), n, p, true)
  }

  /** A frame whose number lies d ahead of the last one announced. */
  function Accept(m: Machine, p: Packet, granted: bool): Machine {
    if !m.active then
      Announced(m.(active := true, last := p.seqno), p.seqno, p, false)
    else
      var d := Offset(p.seqno, Mask(m.last));
      var n := m.last + d;
      if d == 0 || d >= 2048 then m.(gone := m.gone + [p])
      else if d == 1 then Advance(Announced(m, n, p, false).(last := n))
      else if d <= m.win then Store(m, n, p, granted)
      else Advance(Store(EmitTo(m, n - m.win).(last := n - m.win), n, p, granted))
  }

  /** A BlockAckReq moves the window start to its number, never backwards. The machine at rest
      takes it only when the number is in the lower half of the space. */
  function MoveTo(m: Machine, start: Seq12): Machine {
    if !m.active then
      if start < 2048 then m.(active := true, last := start - 1, bar := Some(start)) else m
    else
      var d := Offset(start, Mask(m.last));
      var n := m.last + d;
      if 1 <= d <= 2048 then EmitTo(m, n).(last := n - 1, bar := Some(n)) else m
  }

  // ---------------------------------------------------------------- the refinement relation

  /** The queued packets from lo up to but not including hi, in order. */
  function Listing(q: map<int, Packet>, lo: int, hi: int): seq<Packet>
    decreases hi - lo
  {
    if lo >= hi then []
    else if lo in q then [q[lo]] + Listing(q, lo + 1, hi)
    else Listing(q, lo + 1, hi)
  }

  /** The list holds exactly the queue, whose numbers lie in [lo, hi). */
  ghost predicate Rep(list: seq<Packet>, q: map<int, Packet>, lo: int, hi: int) {
    && (forall k :: k in q ==> lo <= k < hi && q[k].seqno == Mask(k))
    && list == Listing(q, lo, hi)
  }

  function Packets(out: seq<Announcement>): seq<Packet> {
    seq(|out|, i requires 0 <= i < |out| => out[i].pkt)
  }

  ghost predicate Logs(c: Session, m: Machine) {
    c.out == Packets(m.out) && c.gone == m.gone && c.win == m.win && 1 <= c.win <= 255
  }

  /** The session c is the 12-bit image of m, and every queued number is at least `gap`
      and at most win ahead of the last one. */
  ghost predicate Image(c: Session, m: Machine, gap: nat) {
    && Logs(c, m)
    && (m.active <==> c.last != RESET_RCV_SEQ)
    && (m.active ==> c.last == Mask(m.last))
    && Rep(c.list, m.q, m.last + gap, m.last + m.win + 1)
    && (!m.active ==> m.q == map[])
  }

  // ---------------------------------------------------------------- listings

  lemma {:induction false} ListingAgree(q: map<int, Packet>, q': map<int, Packet>, lo: int, hi: int)
    requires forall k :: lo <= k < hi ==> (k in q <==> k in q')
    requires forall k :: lo <= k < hi && k in q && k in q' ==> q[k] == q'[k]
    ensures Listing(q, lo, hi) == Listing(q', lo, hi)
    decreases hi - lo
  {
    if lo < hi {
      ListingAgree(q, q', lo + 1, hi);
    }
  }

  lemma {:induction false} ListingSkipLow(q: map<int, Packet>, a: int, lo: int, hi: int)
    requires a <= lo && forall k :: k in q ==> !(a <= k < lo)
    ensures Listing(q, a, hi) == Listing(q, lo, hi)
    decreases lo - a
  {
    if a < lo {
      ListingSkipLow(q, a + 1, lo, hi);
    }
  }

  lemma {:induction false} ListingSkipHigh(q: map<int, Packet>, lo: int, hi: int, b: int)
    requires hi <= b && forall k :: k in q ==> !(hi <= k < b)
    ensures Listing(q, lo, b) == Listing(q, lo, hi)
    decreases b - lo
  {
    if lo < b {
      ListingSkipHigh(q, lo + 1, hi, b);
    }
  }

  /** Any range that covers the queue represents it equally well. */
  lemma RepRange(list: seq<Packet>, q: map<int, Packet>, lo: int, hi: int, lo': int, hi': int)
    requires Rep(list, q, lo, hi)
    requires forall k :: k in q ==> lo' <= k < hi'
    ensures Rep(list, q, lo', hi')
  {
    var a := if lo < lo' then lo else lo';
    var b := if hi < hi' then hi' else hi;
    ListingSkipLow(q, a, lo, b);
    ListingSkipLow(q, a, lo', b);
    ListingSkipHigh(q, lo, hi, b);
    ListingSkipHigh(q, lo', hi', b);
  }

  lemma {:induction false} ListingHead(q: map<int, Packet>, lo: int, hi: int) returns (j: int)
    requires Listing(q, lo, hi) != []
    ensures lo <= j < hi && j in q && Listing(q, lo, hi)[0] == q[j]
    decreases hi - lo
  {
    if lo in q { j := lo; } else { j := ListingHead(q, lo + 1, hi); }
  }

  /** Dropping the lowest possible number: the list loses its head, or nothing. */
  lemma RepTail(list: seq<Packet>, q: map<int, Packet>, lo: int, hi: int)
    requires Rep(list, q, lo, hi)
    ensures lo in q ==>
              list != [] && list[0] == q[lo] && q[lo].seqno == Mask(lo) && Rep(list[1..], q - {lo}, lo + 1, hi)
    ensures lo !in q ==> Rep(list, q, lo + 1, hi)
  {
    if lo in q {
      assert lo < hi;
      ListingAgree(q, q - {lo}, lo + 1, hi);
    } else {
      ListingSkipLow(q, lo, lo + 1, hi);
    }
  }

  /** Circular distances of the listed numbers: strictly ascending and inside the range. */
  lemma {:induction false} RepAscending(list: seq<Packet>, q: map<int, Packet>, lo: int, hi: int, base: int)
    requires Rep(list, q, lo, hi) && base <= lo && hi - base <= SEQ_SPACE
    ensures forall i :: 0 <= i < |list| ==> lo - base <= Offset(list[i].seqno, Mask(base)) < hi - base
    ensures forall i, j :: 0 <= i < j < |list| ==>
              Offset(list[i].seqno, Mask(base)) < Offset(list[j].seqno, Mask(base))
    ensures lo <= hi ==> |list| <= hi - lo
    decreases hi - lo
  {
    hide Offset, Mask;
    if lo < hi {
      RepTail(list, q, lo, hi);
      if lo in q {
        RepAscending(list[1..], q - {lo}, lo + 1, hi, base);
        OffsetOfIntegers(lo, base);
        assert list == [list[0]] + list[1..];
      } else {
        RepAscending(list, q, lo + 1, hi, base);
      }
    }
  }

  // ---------------------------------------------------------------- list loops refine map operations

  /** Only the output and the queue differ. */
  ghost predicate SameBut(m: Machine, m': Machine) {
    m' == m.(out := m'.out, q := m'.q)
  }

  lemma PacketsAppend(out: seq<Announcement>, a: Announcement)
    ensures Packets(out + [a]) == Packets(out) + [a.pkt]
  {
  }

  /** A list whose numbers all lie beyond n + 1 has nothing for a loop that stops at n. */
  lemma NothingBelow(list: seq<Packet>, q: map<int, Packet>, lo: int, hi: int, n: int)
    requires Rep(list, q, lo, hi) && n < lo && hi - n <= 2048
    ensures LeLen(list, Mask(n)) == 0 && InsertPos(list, Mask(n)) == 0
    ensures list != [] ==> list[0].seqno != Mask(n)
    ensures n + 1 < lo ==> RunLen(list, Mask(n)) == 0
  {
    hide Smaller, Mask, StepOne;
    if list != [] {
      var j := ListingHead(q, lo, hi);
      SmallerOfIntegers(j, n);
    }
  }

  /** The loop of ba_indicate_reordering_mpdus_le_seq announces exactly the numbers up to n. */
  lemma {:induction false} EmitMatches(list: seq<Packet>, m: Machine, lo: int, hi: int, n: int)
    requires Rep(list, m.q, lo, hi)
    requires lo <= n + 1 && n + 1 <= hi && hi - n <= 2048 && n - lo <= 2047
    ensures var k := LeLen(list, Mask(n));
            var m' := EmitRange(m, lo, n);
            && Packets(m'.out) == Packets(m.out) + list[..k]
            && Rep(list[k..], m'.q, n + 1, hi)
            && SameBut(m, m')
    decreases n - lo
  {
    hide Smaller, Mask, StepOne, Rep, Listing;
    if lo > n {
      NothingBelow(list, m.q, lo, hi, n);
      assert list[..0] == [] && list[0..] == list;
    } else {
      RepTail(list, m.q, lo, hi);
      if lo in m.q {
        SmallerOfIntegers(lo, n);
        var m1 := Announced(m, lo, m.q[lo], false).(q := m.q - {lo});
        EmitMatches(list[1..], m1, lo + 1, hi, n);
        var k := LeLen(list[1..], Mask(n));
        assert LeLen(list, Mask(n)) == k + 1;
        assert list[..k + 1] == [list[0]] + list[1..][..k];
        assert list[k + 1..] == list[1..][k..];
        PacketsAppend(m.out, Announcement(m.epoch, lo, m.q[lo], m.bar, false));
      } else {
        EmitMatches(list, m, lo + 1, hi, n);
      }
    }
  }

  lemma RunLenStep(list: seq<Packet>, start: nat)
    requires list != [] && StepOne(list[0].seqno, start)
    ensures var k := RunLen(list[1..], list[0].seqno);
            && RunLen(list, start) == k + 1
            && list[..k + 1] == [list[0]] + list[1..][..k]
            && list[k + 1..] == list[1..][k..]
            && list[k] == (if k == 0 then list[0] else list[1..][k - 1])
  {
  }

  /** The loop of ba_indicate_reordering_mpdus_in_order announces exactly the consecutive numbers. */
  lemma {:induction false} AdvanceMatches(list: seq<Packet>, m: Machine, hi: int)
    requires Rep(list, m.q, m.last + 1, hi) && hi - m.last <= 2048
    ensures var k := RunLen(list, Mask(m.last));
            var m' := Advance(m);
            && Packets(m'.out) == Packets(m.out) + list[..k]
            && Rep(list[k..], m'.q, m'.last + 2, hi)
            && SameBut(m.(last := m'.last), m')
            && m'.last >= m.last
            && Mask(m'.last) == (if k == 0 then Mask(m.last) else list[k - 1].seqno)
    decreases |m.q|
  {
    hide Smaller, Mask, StepOne, Rep, Listing, Packets, RunLen, Announced;
    var n := m.last + 1;
    RepTail(list, m.q, n, hi);
    if n in m.q {
      SmallerOfIntegers(n, m.last);
      var m1 := Announced(m, n, m.q[n], false).(q := m.q - {n}, last := n);
      AnnouncedFields(m, n, m.q[n]);
      AdvanceMatches(list[1..], m1, hi);
      RunLenStep(list, Mask(m.last));
      PacketsStep(list, m.out, Announcement(m.epoch, n, m.q[n], m.bar, false), RunLen(list[1..], list[0].seqno));
    } else {
      NothingBelow(list, m.q, n + 1, hi, m.last);
      assert list[..0] == [] && list[0..] == list;
      assert Packets(m.out) + [] == Packets(m.out);
    }
  }

  lemma AnnouncedFields(m: Machine, n: int, p: Packet)
    ensures Announced(m, n, p, false) == m.(out := m.out + [Announcement(m.epoch, n, p, m.bar, false)])
  {
  }

  /** The head of the list announced, then k more. */
  lemma PacketsStep(list: seq<Packet>, out: seq<Announcement>, a: Announcement, k: nat)
    requires k < |list| && list[0] == a.pkt
    ensures Packets(out + [a]) + list[1..][..k] == Packets(out) + list[..k + 1]
  {
    PacketsAppend(out, a);
    assert list[..k + 1] == [list[0]] + list[1..][..k];
    assert (Packets(out) + [list[0]]) + list[1..][..k] == Packets(out) + ([list[0]] + list[1..][..k]);
  }

  /** Adding a number below or above all that the range [lo + 1, hi) holds. */
  lemma RepCons(list: seq<Packet>, q: map<int, Packet>, lo: int, hi: int, p: Packet)
    requires Rep(list, q, lo + 1, hi) && lo < hi && p.seqno == Mask(lo)
    ensures Rep([p] + list, q[lo := p], lo, hi)
  {
    ListingAgree(q, q[lo := p], lo + 1, hi);
  }

  /** ba_reordering_mpdu_insertsorted finds a duplicate exactly when the number is queued, and
      otherwise puts the packet where the queue has it. */
  lemma {:induction false} InsertMatches(list: seq<Packet>, q: map<int, Packet>, lo: int, hi: int, n: int, p: Packet)
    requires Rep(list, q, lo, hi) && lo <= n < hi && hi - lo <= 2048 && p.seqno == Mask(n)
    ensures IsQueued(list, p.seqno) <==> n in q
    ensures n !in q ==> Rep(Insert(list, p), q[n := p], lo, hi)
    decreases hi - lo
  {
    hide Smaller, Mask, StepOne, Listing;
    RepTail(list, q, lo, hi);
    if lo == n {
      if n in q {
        SmallerOfIntegers(n, n);
      } else {
        NothingBelow(list, q, n + 1, hi, n);
        assert Insert(list, p) == [p] + list;
        RepCons(list, q, n, hi, p);
      }
    } else if lo in q {
      SmallerOfIntegers(lo, n);
      InsertMatches(list[1..], q - {lo}, lo + 1, hi, n, p);
      if n !in q {
        assert Insert(list, p) == [list[0]] + Insert(list[1..], p);
        RepCons(Insert(list[1..], p), (q - {lo})[n := p], lo, hi, list[0]);
        assert (q - {lo})[n := p][lo := list[0]] == q[n := p];
      }
    } else {
      InsertMatches(list, q, lo + 1, hi, n, p);
      if n !in q {
        RepRange(Insert(list, p), q[n := p], lo + 1, hi, lo, hi);
      }
    }
  }

  // ---------------------------------------------------------------- session operations refine the machine

  lemma ImageRelease(c: Session, m: Machine)
    requires Image(c, m, 1) && m.active
    ensures Image(ReleaseInOrder(c), Advance(m), 2)
    ensures Advance(m).active
  {
    hide Listing, Packets, Mask, RunLen, Advance;
    AdvanceMatches(c.list, m, m.last + m.win + 1);
    var k, m' := RunLen(c.list, c.last), Advance(m);
    RepRange(c.list[k..], m'.q, m'.last + 2, m.last + m.win + 1, m'.last + 2, m'.last + m'.win + 1);
  }

  /** Announcing everything up to n; the caller then moves LastIndSeq to n or to n - 1. */
  lemma ImageEmit(c: Session, m: Machine, n: int, gap: nat)
    requires 1 <= gap && Image(c, m, gap) && m.active && m.last <= n <= m.last + 2048
    ensures var c', m' := IndicateLe(c, Mask(n)), EmitTo(m, n);
            && Logs(c', m') && SameBut(m, m')
            && Rep(c'.list, m'.q, n + 1, n + m.win + 1)
            && (n >= m.last + m.win ==> m'.q == map[] && c'.list == [])
            && (forall k :: k in m'.q ==> k in m.q && m'.q[k] == m.q[k])
            && (forall k :: k in m.q && k > n ==> k in m'.q)
  {
    hide Listing, Packets, Mask, LeLen;
    var hi := if n < m.last + m.win then m.last + m.win + 1 else n + 1;
    RepRange(c.list, m.q, m.last + gap, m.last + m.win + 1, m.last + 1, hi);
    EmitMatches(c.list, m, m.last + 1, hi, n);
    var k, m' := LeLen(c.list, Mask(n)), EmitTo(m, n);
    EmitKeeps(m, m.last + 1, n);
    RepRange(c.list[k..], m'.q, n + 1, hi, n + 1, n + m.win + 1);
    if n >= m.last + m.win {
      NothingListed(c.list[k..], m'.q, n + 1);
    }
  }

  lemma NothingListed(list: seq<Packet>, q: map<int, Packet>, lo: int)
    requires Rep(list, q, lo, lo)
    ensures list == [] && q == map[]
  {
    assert forall k :: k !in q;
  }

  lemma {:induction false} EmitKeeps(m: Machine, lo: int, n: int)
    ensures var q' := EmitRange(m, lo, n).q;
            && (forall k :: k in q' ==> k in m.q && q'[k] == m.q[k])
            && (forall k :: k in m.q && (k < lo || k > n) ==> k in q')
    ensures SameBut(m, EmitRange(m, lo, n))
    decreases n - lo
  {
    if lo <= n {
      EmitKeeps(if lo in m.q then Announced(m, lo, m.q[lo], false).(q := m.q - {lo}) else m, lo + 1, n);
    }
  }

  lemma ImageRefresh(c: Session, m: Machine)
    requires Image(c, m, 2)
    ensures Image(Refresh(c), Restart(m), 2)
    ensures Restart(m).q == map[]
  {
    hide Packets, Mask, LeLen;
    if m.active {
      var n := m.last + m.win;
      ImageEmit(c, m, n, 2);
      assert LeLen(c.list, Mask(n)) == |c.list|;
      RepRange([], map[], n + 1, n + m.win + 1, m.last + 2, m.last + m.win + 1);
    } else {
      EmitNothing(m, m.last + 1, m.last + m.win);
      NothingQueued(c.list, m.q, m.last + 2, m.last + m.win + 1);
      assert c.list[|c.list|..] == [] && c.list[..|c.list|] == [];
    }
  }

  lemma {:induction false} EmitNothing(m: Machine, lo: int, n: int)
    requires forall k :: k in m.q ==> k > n || k < lo
    ensures EmitRange(m, lo, n) == m
    decreases n - lo
  {
    if lo <= n {
      EmitNothing(m, lo + 1, n);
    }
  }

  lemma NothingQueued(list: seq<Packet>, q: map<int, Packet>, lo: int, hi: int)
    requires Rep(list, q, lo, hi) && q == map[]
    ensures list == []
  {
    RepRange(list, q, lo, hi, lo, lo);
  }

  lemma ImageAdvanceOne(c: Session, m: Machine, now: nat)
    requires Image(c, m, 2) && m.active
    ensures Image(AdvanceOne(c, now), Expire(m, FlushOne), 2)
  {
    hide Packets, LeLen, Advance, Listing, Mask, Rep, EmitTo, ReleaseInOrder;
    var n := m.last + 1;
    MaskStep(m.last);
    ImageEmit(c, m, n, 2);
    ImageRelease(IndicateLe(c, Mask(n)).(at := now, last := Mask(n)), EmitTo(m, n).(last := n));
  }

  lemma ImageTimeout(c: Session, m: Machine, now: nat, hz: nat)
    requires Image(c, m, 2)
    ensures Image(TimeoutFlush(c, now, hz), Expire(m, FlushKind(|c.list|, c.at, now, hz)), 2)
  {
    hide Packets, LeLen, Advance, Listing, TimeAfter, LongTimeout, ShortTimeout, AdvanceOne, Refresh, Restart, Rep;
    match FlushKind(|c.list|, c.at, now, hz)
    case FlushNone =>
    case FlushOne =>
      if !m.active {
        NothingQueued(c.list, m.q, m.last + 2, m.last + m.win + 1);
      }
      ImageAdvanceOne(c, m, now);
    case FlushAll =>
      ImageRefresh(c, m);
  }

  /** Storing n, at most win ahead. The bypass leaves a queue that may start right at n + 1. */
  lemma ImageStore(c: Session, m: Machine, n: int, p: Packet, gap: nat)
    requires 1 <= gap && Image(c, m, gap) && m.active
    requires m.last + gap <= n <= m.last + m.win && p.seqno == Mask(n)
    ensures var granted := c.free > 0 && !p.eap;
            && Image(Enqueue(c, p), Store(m, n, p, granted), if granted then gap else 1)
            && Store(m, n, p, granted).active
  {
    hide Packets, LeLen, Listing, Mask, IsQueued, Insert;
    if c.free > 0 && !p.eap {
      InsertMatches(c.list, m.q, m.last + gap, m.last + m.win + 1, n, p);
    } else {
      var t := if c.free > 0 then c.(free := c.free - 1, leaked := c.leaked + 1) else c;
      ImageEmit(t, m, n, gap);
      PacketsAppend(EmitTo(m, n).out, Announcement(m.epoch, n, p, m.bar, true));
    }
  }
}
