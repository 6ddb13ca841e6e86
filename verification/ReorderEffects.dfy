/** What each event does to a recipient session, in distances, elapsed ticks and list positions. No
    statement here uses a test, a constant or an operation of the driver: only the numbers of the
    packets, the lists, and the two times. */
module ReorderEffects {
  import opened Basics
  import opened SeqNum
  import opened ReorderSpec
  import opened ReorderTheorems

  // ---------------------------------------------------------------- the vocabulary

  /** How far number a is ahead of b on the circle of 4096. */
  function Ahead(a: int, b: int): nat { (a - b) % 4096 }

  /** The state between events: the list is ascending, two to win ahead of the last number; a session
      that waits for its first frame queues nothing. */
  ghost predicate Good(s: Session) {
    && 1 <= s.win <= 255 && |s.list| <= s.win
    && if s.last == 0xFFFF then s.list == [] else s.last <= 4095 && Ascending(s.list, s.last, 2, s.win)
  }

  ghost predicate Ascending(list: seq<Packet>, last: nat, lo: nat, hi: nat) {
    && (forall i :: 0 <= i < |list| ==> lo <= Ahead(list[i].seqno, last) <= hi)
    && (forall i, j :: 0 <= i < j < |list| ==> Ahead(list[i].seqno, last) < Ahead(list[j].seqno, last))
  }

  /** The first k packets are those at most d ahead of `last`. */
  ghost predicate UpTo(list: seq<Packet>, last: nat, d: nat, k: nat) {
    && k <= |list|
    && (forall i :: 0 <= i < k ==> Ahead(list[i].seqno, last) <= d)
    && (forall i :: k <= i < |list| ==> Ahead(list[i].seqno, last) > d)
  }

  /** The first k packets have the numbers right after n, and the next one has not. */
  ghost predicate Consecutive(list: seq<Packet>, n: nat, k: nat) {
    && k <= |list|
    && (forall i :: 0 <= i < k ==> list[i].seqno == (n + 1 + i) % 4096)
    && (k < |list| ==> list[k].seqno != (n + 1 + k) % 4096)
  }

  /** The first k queued packets go up and give their blocks back. */
  function Up(s: Session, k: nat): Session
    requires k <= |s.list|
  {
    s.(list := s.list[k..], out := s.out + s.list[..k], free := s.free + k)
  }

  /** What follows the last number without a gap goes up, and moves it. */
  ghost predicate Released(s: Session, k: nat, u: Session) {
    Consecutive(s.list, s.last, k) && u == Up(s, k).(last := (s.last + k) % 4096)
  }

  // ---------------------------------------------------------------- what the events do

  /** No more than half of the clock's range has gone by, and a second is shorter than a quarter. */
  predicate Clock(at: nat, now: nat, hz: nat) {
    hz < 0x4000_0000_0000_0000 && Elapsed(at, now) <= 0x8000_0000_0000_0000
  }

  function Elapsed(at: nat, now: nat): nat { (now - at) % 0x1_0000_0000_0000_0000 }

  /** The passing of time: within a tenth of a second nothing happens; after half a second two or more
      queued packets are all given up, and the session starts over; in between, and for a single
      packet, the number that is missing is given up, and what follows it goes up. */
  ghost predicate Waited(s: Session, now: nat, hz: nat, k: nat, u: Session) {
    if s.list == [] || 10 * Elapsed(s.at, now) <= hz then u == s
    else if |s.list| >= 2 && 2 * Elapsed(s.at, now) > hz then u == Up(s, |s.list|).(last := 0xFFFF, at := now)
    else Released(s.(at := now, last := (s.last + 1) % 4096), k, u)
  }

  /** A frame between two and win ahead is stored at its place; a second copy of it is dropped; and an
      EAP frame, or one that finds no block, goes up at once behind all that is not after it. */
  ghost predicate Stored(s: Session, p: Packet, k: nat, u: Session) {
    var d := Ahead(p.seqno, s.last);
    if s.free > 0 && !p.eap then
      if exists i :: 0 <= i < |s.list| && s.list[i].seqno == p.seqno then u == s.(gone := s.gone + [p])
      else
        && k <= |s.list| && u == s.(list := s.list[..k] + [p] + s.list[k..], free := s.free - 1)
        && (forall i :: 0 <= i < k ==> Ahead(s.list[i].seqno, s.last) < d)
        && (forall i :: k <= i < |s.list| ==> Ahead(s.list[i].seqno, s.last) > d)
    else
      var kept := if s.free > 0 then 1 else 0;
      && UpTo(s.list, s.last, d, k)
      && u == s.(list := s.list[k..], out := s.out + s.list[..k] + [p], last := p.seqno,
                 free := s.free + k - kept, leaked := s.leaked + kept)
  }

  /** Every frame restarts the timer. The first one of a session, and the one after the last number,
      go up, the latter with all that follows it; one not after the last number is counted and
      dropped; one beyond the window first moves the window, so that it is the last in it. */
  ghost predicate Handled(t: Session, p: Packet, now: nat, k: nat, moved: Session, j: nat,
                          stored: Session, n: nat, u: Session)
  {
    var s, d := t.(at := now), Ahead(p.seqno, t.last);
    if s.last == 0xFFFF then u == s.(last := p.seqno, out := s.out + [p])
    else if d == 0 || d >= 2048 then u == s.(drops := s.drops + 1, gone := s.gone + [p])
    else if d == 1 then Released(s.(last := p.seqno, out := s.out + [p]), k, u)
    else if d <= s.win then Stored(s, p, k, u)
    else
      var w := (p.seqno - s.win) % 4096;
      && UpTo(s.list, s.last, d - s.win, k) && moved == Up(s, k).(last := w)
      && Stored(moved, p, j, stored) && Released(stored, n, u)
  }

  /** A BlockAckReq up to 2048 ahead moves the start of the window to its number, after announcing what
      is queued up to it; another one does nothing. */
  ghost predicate Requested(s: Session, start: nat, k: nat, u: Session) {
    var d, before := Ahead(start, s.last), (start - 1) % 4096;
    if s.last == 0xFFFF then u == if start < 2048 then s.(last := before) else s
    else if 1 <= d <= 2048 then
      UpTo(s.list, s.last, d, k) && u == Up(s, k).(last := before)
    else u == s
  }

  // ---------------------------------------------------------------- proofs

  lemma GoodIsWindow(s: Session)
    ensures Good(s) <==> Window(s, 2) && 1 <= s.win <= 255
  {
    assert forall i :: 0 <= i < |s.list| ==> Ahead(s.list[i].seqno, s.last) == Offset(s.list[i].seqno, s.last);
  }

  /** The driver's bit test between two numbers that lie x and d ahead of the last one. */
  lemma TestIs(a: Seq12, q: nat, last: nat)
    requires q <= 4095 && last <= 4095
    requires -2048 <= Ahead(a, last) - Ahead(q, last) < 2048
    ensures Smaller(a, q) <==> Ahead(a, last) < Ahead(q, last)
    ensures a == q <==> Ahead(a, last) == Ahead(q, last)
  {
    hide Smaller;
    OnCircle(a, last);
    OnCircle(q, last);
    SmallerOfIntegers(last + Ahead(a, last), last + Ahead(q, last));
  }

  lemma OnCircle(a: nat, last: nat)
    requires a <= 4095 && last <= 4095
    ensures Mask(last + Ahead(a, last)) == a
  {
    var q := (a - last) / 4096;
    assert last + Ahead(a, last) == 4096 * -q + a;
    ModUnique(last + Ahead(a, last), -q, a);
  }

  /** The prefix that "less or equal" announces. */
  lemma LeIs(list: seq<Packet>, q: nat, last: nat, lo: nat, hi: nat)
    requires q <= 4095 && last <= 4095 && Ascending(list, last, lo, hi) && hi <= 255 && Ahead(q, last) <= 2048
    ensures UpTo(list, last, Ahead(q, last), LeLen(list, q))
  {
    hide Smaller, Ahead, LeLen;
    var k, d := LeLen(list, q), Ahead(q, last);
    forall i | 0 <= i < |list|
      ensures i < k ==> Ahead(list[i].seqno, last) <= d
      ensures i >= k ==> Ahead(list[i].seqno, last) > d
    {
      TestIs(list[i].seqno, q, last);
      if i >= k {
        TestIs(list[k].seqno, q, last);
      }
    }
  }

  /** The run that "in order" announces. */
  lemma RunIs(list: seq<Packet>, n: nat)
    ensures Consecutive(list, n, RunLen(list, n))
  {
    hide RunLen, Mask;
    var k := RunLen(list, n);
    forall i | 0 <= i < k ensures list[i].seqno == (n + 1 + i) % 4096 {
      RunAt(list, n, k, i);
    }
    if k < |list| {
      if k > 0 {
        RunAt(list, n, k, k - 1);
        MaskStep(n + k);
      }
      MaskIsRemainder(n + 1 + k);
    }
  }

  lemma {:induction false} RunAt(list: seq<Packet>, n: nat, k: nat, i: nat)
    requires i < k <= |list| && forall j :: 0 <= j < k ==> Follows(list, n, j)
    ensures list[i].seqno == (n + 1 + i) % 4096 == Mask(n + 1 + i)
  {
    hide Mask;
    assert Follows(list, n, i);
    if i > 0 {
      RunAt(list, n, k, i - 1);
      MaskStep(n + i);
    }
    MaskIsRemainder(n + 1 + i);
  }

  lemma MaskIsRemainder(x: int)
    ensures Mask(x) == x % 4096
  {
  }

  lemma AnnounceIs(s: Session, k: nat)
    requires k <= |s.list|
    ensures Announce(s, k) == Up(s, k)
  {
  }

  /** In-order release, and the update of LastIndSeq behind it. */
  lemma ReleaseIs(s: Session)
    requires s.last <= 4095
    ensures Released(s, RunLen(s.list, s.last), ReleaseInOrder(s))
  {
    hide Announce, RunLen, Up;
    var k := RunLen(s.list, s.last);
    RunIs(s.list, s.last);
    AnnounceIs(s, k);
  }

  /** A time-out flush, whenever it comes. */
  lemma TimerEffect(s: Session, now: nat, hz: nat) returns (k: nat)
    requires Good(s) && Clock(s.at, now, hz)
    ensures Waited(s, now, hz, k, Step(s, Timer(now), hz))
  {
    hide Announce, RunLen, Mask, LeLen, TimeAfter, Up, Ahead, Released, ReorderSpec.ReleaseInOrder;
    k := 0;
    AfterMeans(now, s.at, LongTimeout(hz));
    AfterMeans(now, s.at, ShortTimeout(hz));
    if s.list != [] && 10 * Elapsed(s.at, now) > hz {
      if |s.list| >= 2 && 2 * Elapsed(s.at, now) > hz {
        AnnounceIs(s, |s.list|);
      } else {
        var q := Mask(s.last + 1);
        MaskIsRemainder(s.last + 1);
        NothingYet(s, q);
        var t := s.(at := now, last := q);
        ReleaseIs(t);
        k := RunLen(t.list, t.last);
      }
    }
  }

  /** No packet of a good list is at the next number or before it. */
  lemma NothingYet(s: Session, q: nat)
    requires Good(s) && s.last != 0xFFFF && q == (s.last + 1) % 4096
    ensures IndicateLe(s, q) == s
  {
    hide LeLen;
    LeIs(s.list, q, s.last, 2, s.win);
    assert Ahead(q, s.last) == 1;
    assert s.list != [] ==> Ahead(s.list[0].seqno, s.last) >= 2;
    assert LeLen(s.list, q) == 0;
    assert s.list[0..] == s.list && s.out + s.list[..0] == s.out;
  }

  /** ba_enqueue_reordering_packet, for a number at most win ahead. */
  lemma EnqueueIs(s: Session, p: Packet, lo: nat) returns (k: nat)
    requires s.last <= 4095 && s.win <= 255 && Ascending(s.list, s.last, lo, s.win) && Ahead(p.seqno, s.last) <= s.win
    ensures Stored(s, p, k, Enqueue(s, p))
  {
    hide Announce, LeLen, InsertPos, Smaller, Ahead, Up;
    var d := Ahead(p.seqno, s.last);
    if s.free > 0 && !p.eap {
      k := InsertPos(s.list, p.seqno);
      InsertIs(s.list, p, s.last, lo, s.win);
    } else {
      k := LeLen(s.list, p.seqno);
      LeIs(s.list, p.seqno, s.last, lo, s.win);
      var t := if s.free > 0 then s.(free := s.free - 1, leaked := s.leaked + 1) else s;
      AnnounceIs(t, k);
      UpIs(t, k);
    }
  }

  lemma UpIs(s: Session, k: nat)
    requires k <= |s.list|
    ensures Up(s, k) == s.(list := s.list[k..], out := s.out + s.list[..k], free := s.free + k)
  {
  }

  /** Where the sorted insertion puts a packet, and when it finds its number. */
  lemma InsertIs(list: seq<Packet>, p: Packet, last: nat, lo: nat, hi: nat)
    requires last <= 4095 && Ascending(list, last, lo, hi) && hi <= 255 && Ahead(p.seqno, last) <= hi
    ensures var k := InsertPos(list, p.seqno);
            && (IsQueued(list, p.seqno) <==> exists i :: 0 <= i < |list| && list[i].seqno == p.seqno)
            && (forall i :: 0 <= i < k ==> Ahead(list[i].seqno, last) < Ahead(p.seqno, last))
            && (!IsQueued(list, p.seqno) ==>
                  forall i :: k <= i < |list| ==> Ahead(list[i].seqno, last) > Ahead(p.seqno, last))
  {
    hide Smaller, Ahead, InsertPos;
    var k := InsertPos(list, p.seqno);
    forall i | 0 <= i < |list|
      ensures i < k ==> Ahead(list[i].seqno, last) < Ahead(p.seqno, last)
      ensures list[i].seqno == p.seqno ==> i == k
      ensures i >= k && list[k].seqno != p.seqno ==> Ahead(list[i].seqno, last) > Ahead(p.seqno, last)
    {
      TestIs(list[i].seqno, p.seqno, last);
      if i >= k {
        TestIs(list[k].seqno, p.seqno, last);
      }
    }
  }

  /** After the flush a frame finds a good list again. */
  lemma WaitedGood(s: Session, now: nat, hz: nat)
    requires Good(s)
    ensures Good(TimeoutFlush(s, now, hz))
  {
    hide Announce, RunLen, Mask, LeLen, TimeAfter, Up, Released, ReorderSpec.ReleaseInOrder, Ahead, Ascending;
    if FlushKind(|s.list|, s.at, now, hz).FlushOne? {
      var q := Mask(s.last + 1);
      MaskIsRemainder(s.last + 1);
      NothingYet(s, q);
      var t := s.(at := now, last := q);
      ReleaseIs(t);
      ReleasedGood(s, t, RunLen(t.list, t.last), ReorderSpec.ReleaseInOrder(t));
    } else {
      AnnounceIs(s, |s.list|);
      UpIs(s, |s.list|);
    }
  }

  /** The missing number given up, and the run behind it released. */
  lemma ReleasedGood(s: Session, t: Session, k: nat, u: Session)
    requires Good(s) && s.last != 0xFFFF && t.last == (s.last + 1) % 4096 && t.list == s.list && t.win == s.win
    requires Released(t, k, u)
    ensures Good(u)
  {
    hide Ahead;
    forall i | 0 <= i < |u.list|
      ensures Ahead(u.list[i].seqno, u.last) == Ahead(s.list[k + i].seqno, s.last) - (k + 1)
      ensures Ahead(s.list[k + i].seqno, s.last) >= k + 3
    {
      assert u.list[i] == s.list[k + i];
      GapAt(s, k, i);
      AheadLess(u.list[i].seqno, s.last, k + 1, u.last);
    }
  }

  /** The list position bounds the distance from below, and beyond the run there is a gap. */
  lemma {:induction false} GapAt(s: Session, k: nat, i: nat)
    requires Good(s) && s.last != 0xFFFF && k + i < |s.list| && s.list[k].seqno != ((s.last + 1) % 4096 + 1 + k) % 4096
    ensures Ahead(s.list[k + i].seqno, s.last) >= k + 3
    decreases i
  {
    hide Ahead;
    AtLeast(s, k);
    if Ahead(s.list[k].seqno, s.last) == k + 2 {
      OnCircle(s.list[k].seqno, s.last);
      MaskIsRemainder(s.last + k + 2);
      MaskStep(s.last + 1);
      RemainderStep(s.last, k);
    }
    assert i > 0 ==> Ahead(s.list[k].seqno, s.last) < Ahead(s.list[k + i].seqno, s.last);
  }

  lemma RemainderStep(n: nat, k: nat)
    ensures ((n + 1) % 4096 + 1 + k) % 4096 == (n + k + 2) % 4096
  {
  }

  lemma {:induction false} AtLeast(s: Session, k: nat)
    requires Good(s) && s.last != 0xFFFF && k < |s.list|
    ensures Ahead(s.list[k].seqno, s.last) >= k + 2
  {
    hide Ahead;
    if k > 0 {
      AtLeast(s, k - 1);
    }
  }

  lemma AheadLess(a: nat, last: nat, n: nat, last': nat)
    requires a <= 4095 && last <= 4095 && n <= Ahead(a, last) && last' == ((last + 1) % 4096 + (n - 1)) % 4096 && n >= 1
    ensures Ahead(a, last') == Ahead(a, last) - n
  {
    RemainderAdd(last, n);
    var q := (last + n) / 4096;
    var c := (a - last) / 4096;
    assert last + n == 4096 * q + last';
    assert a - last' == 4096 * (c + q) + (Ahead(a, last) - n);
    ModUnique(a - last', c + q, Ahead(a, last) - n);
  }

  lemma RemainderAdd(last: nat, n: nat)
    requires n >= 1
    ensures ((last + 1) % 4096 + (n - 1)) % 4096 == (last + n) % 4096
  {
  }

  // ---------------------------------------------------------------- the events

  /** What a frame does: the time since the last one is dealt with, then the frame. */
  lemma FrameEffect(s: Session, p: Packet, now: nat, hz: nat)
    returns (i: nat, t: Session, k: nat, moved: Session, j: nat, stored: Session, n: nat)
    requires Good(s)
    ensures Clock(s.at, now, hz) ==> Waited(s, now, hz, i, t)
    ensures Good(t) && Handled(t, p, now, k, moved, j, stored, n, Step(s, Frame(p, now), hz))
  {
    hide Waited, Good, Handled, TimeoutFlush, Receive;
    i, t := 0, TimeoutFlush(s, now, hz);
    WaitedGood(s, now, hz);
    if Clock(s.at, now, hz) {
      i := TimerEffect(s, now, hz);
    }
    k, moved, j, stored, n := ReceiveEffect(t, p, now);
  }

  /** The frame itself. */
  lemma ReceiveEffect(t: Session, p: Packet, now: nat)
    returns (k: nat, moved: Session, j: nat, stored: Session, n: nat)
    requires Good(t)
    ensures Handled(t, p, now, k, moved, j, stored, n, Receive(t.(at := now), p))
  {
    hide Announce, LeLen, RunLen, Smaller, Mask, Up, Ahead, Ascending, Enqueue, Slide, ReorderSpec.ReleaseInOrder,
      Released, Stored, UpTo, Classify;
    var s, d := t.(at := now), Ahead(p.seqno, t.last);
    k, moved, j, stored, n := 0, s, 0, s, 0;
    if s.last != 0xFFFF {
      BranchIs(p.seqno, s.last, s.win);
      if d == 1 {
        var u := s.(last := p.seqno, out := s.out + [p]);
        ReleaseIs(u);
        k := RunLen(u.list, u.last);
      } else if 2 <= d <= s.win {
        k := EnqueueIs(s, p, 2);
      } else if 2 <= d < 2048 {
        k, moved, j, stored, n := SlideEffect(s, p);
      }
    }
  }

  /** The chain of tests is the distance. */
  lemma BranchIs(a: Seq12, last: nat, win: nat)
    requires last <= 4095 && win <= 255
    ensures var d := Ahead(a, last);
            && (StepOne(a, last) <==> d == 1)
            && (d == 0 || d >= 2048 ==> Classify(a, last, win) in {Duplicate, Old})
            && (2 <= d <= win ==> Classify(a, last, win) == InWindow)
            && (d >= 2 && win < d < 2048 ==> Classify(a, last, win) == BeyondWindow)
  {
    hide Smaller;
    assert Ahead(a, last) == Offset(a, last);
    ClassifyIsByDistance(a, last, win);
    ClassifyInOrder(a, last, win);
  }

  /** Beyond the window. */
  lemma SlideEffect(s: Session, p: Packet)
    returns (k: nat, moved: Session, j: nat, stored: Session, n: nat)
    requires Good(s) && s.last != 0xFFFF && s.win < Ahead(p.seqno, s.last) < 2048
    ensures UpTo(s.list, s.last, Ahead(p.seqno, s.last) - s.win, k)
    ensures moved == Up(s, k).(last := (p.seqno - s.win) % 4096)
    ensures Stored(moved, p, j, stored) && Released(stored, n, Slide(s, p))
  {
    hide Announce, LeLen, RunLen, Smaller, Mask, Up, Ahead, Enqueue, ReorderSpec.ReleaseInOrder, Released, Stored;
    var d, w := Ahead(p.seqno, s.last), WinStart(p.seqno, s.win);
    WinStartIs(p.seqno, s.win);
    MaskIsRemainder(p.seqno - s.win);
    StartAhead(p.seqno, s.last, s.win);
    k := LeLen(s.list, w);
    LeIs(s.list, w, s.last, 2, s.win);
    AnnounceIs(s, k);
    moved := IndicateLe(s, w).(last := w);
    UpIs(s, k);
    forall i | 0 <= i < |moved.list|
      ensures Ahead(moved.list[i].seqno, w) == Ahead(s.list[k + i].seqno, s.last) - (d - s.win)
    {
      assert moved.list[i] == s.list[k + i];
      FromStart(moved.list[i].seqno, s.last, d - s.win, w);
    }
    assert Ascending(moved.list, w, 1, s.win);
    j := EnqueueIs(moved, p, 1);
    stored := Enqueue(moved, p);
    StoredLast(moved, p, j, stored);
    ReleaseIs(stored);
    n := RunLen(stored.list, stored.last);
  }

  lemma StoredLast(s: Session, p: Packet, k: nat, u: Session)
    requires Stored(s, p, k, u) && s.last <= 4095
    ensures u.last <= 4095
  {
  }

  /** The start of the window that ends with the frame. */
  lemma StartAhead(a: nat, last: nat, win: nat)
    requires a <= 4095 && last <= 4095 && 1 <= win < Ahead(a, last) < 2048
    ensures var w := (a - win) % 4096;
            Ahead(w, last) == Ahead(a, last) - win && Ahead(a, w) == win
  {
    var w, q, c := (a - win) % 4096, (a - win) / 4096, (a - last) / 4096;
    assert a - win == 4096 * q + w && a - last == 4096 * c + Ahead(a, last);
    assert w - last == 4096 * (c - q) + (Ahead(a, last) - win);
    ModUnique(w - last, c - q, Ahead(a, last) - win);
    assert a - w == 4096 * q + win;
    ModUnique(a - w, q, win);
  }

  lemma FromStart(a: nat, last: nat, n: nat, w: nat)
    requires a <= 4095 && last <= 4095 && w <= 4095 && Ahead(w, last) == n <= Ahead(a, last)
    ensures Ahead(a, w) == Ahead(a, last) - n
  {
    var c, q := (a - last) / 4096, (w - last) / 4096;
    assert a - w == 4096 * (c - q) + (Ahead(a, last) - n);
    ModUnique(a - w, c - q, Ahead(a, last) - n);
  }

  /** What a BlockAckReq does. */
  lemma BarEffect(s: Session, start: Seq12, hz: nat) returns (k: nat)
    requires Good(s)
    ensures Requested(s, start, k, Step(s, Bar(start), hz))
  {
    hide Announce, LeLen, Up, Ahead, UpTo, Smaller;
    k := 0;
    BeforeStart(start);
    if s.last == 0xFFFF {
      RestingTest(start);
      AnnounceIs(s, 0);
      UpIs(s, 0);
      assert s.out + s.list[..0] == s.out;
      assert s.list == [] && LeLen(s.list, start) == 0;
    } else {
      StartTest(start, s.last);
      if 1 <= Ahead(start, s.last) <= 2048 {
        k := LeLen(s.list, start);
        LeIs(s.list, start, s.last, 2, s.win);
        AnnounceIs(s, k);
      }
    }
  }

  lemma BeforeStart(start: Seq12)
    ensures (start - 1) % 4096 == if start == 0 then 4095 else start - 1
  {
  }

  lemma RestingTest(start: Seq12)
    ensures Smaller(0xFFFF, start) <==> start < 2048
  {
  }

  /** The test between last number and start of the window. */
  lemma StartTest(start: Seq12, last: nat)
    requires last <= 4095
    ensures Smaller(last, start) <==> 1 <= Ahead(start, last) <= 2048
  {
    hide Smaller;
    SmallerIsUpperHalf(last, start);
    var d, c := Ahead(start, last), (start - last) / 4096;
    assert last - start == 4096 * -c - d;
    if d > 0 {
      ModUnique(last - start, -c - 1, 4096 - d);
    } else {
      ModUnique(last - start, -c, 0);
    }
  }

  /** The idle time-out and a set-up announce all that is queued, whatever the state, and the session
      waits for a first frame again. */
  lemma RestartEffect(s: Session, win: nat, hz: nat)
    ensures Step(s, Idle, hz) == Up(s, |s.list|).(last := 0xFFFF)
    ensures Step(s, Setup(win), hz) == Up(s, |s.list|).(last := 0xFFFF, win := win)
  {
    AnnounceIs(s, |s.list|);
  }

  /** When the timer restarts, whatever the state: with every frame, and with a flush. */
  lemma TimerRestarts(s: Session, e: Event, hz: nat)
    ensures e.Frame? ==> Step(s, e, hz).at == e.now
    ensures e.Timer? ==> Step(s, e, hz) == s || Step(s, e, hz).at == e.now
    ensures !e.Frame? && !e.Timer? ==> Step(s, e, hz).at == s.at
  {
    hide LeLen, RunLen, Smaller, TimeAfter, Mask, ReorderSpec.Indicate;
    if e.Frame? {
      IndicateTimer(s, e.pkt, e.now, hz);
    }
  }

  /** For a tenth of a second after any frame nothing is given up. */
  lemma QuietAfterFrame(s: Session, p: Packet, now: nat, t: nat, hz: nat)
    requires Clock(now, t, hz) && 10 * Elapsed(now, t) <= hz
    ensures var u := Step(s, Frame(p, now), hz); Step(u, Timer(t), hz) == u
  {
    hide Step, TimeAfter;
    TimerRestarts(s, Frame(p, now), hz);
    Quiet(Step(s, Frame(p, now), hz), t, hz);
  }

  lemma Quiet(s: Session, now: nat, hz: nat)
    requires Clock(s.at, now, hz) && 10 * Elapsed(s.at, now) <= hz
    ensures Step(s, Timer(now), hz) == s
  {
    hide TimeAfter, AdvanceOne, Refresh;
    AfterMeans(now, s.at, LongTimeout(hz));
    AfterMeans(now, s.at, ShortTimeout(hz));
  }

  /** When a session with two or more packets queued starts over, whatever its list looks like. */
  lemma GivenUpExactly(s: Session, now: nat, hz: nat)
    requires Clock(s.at, now, hz) && |s.list| >= 2 && s.last != 0xFFFF
    ensures Step(s, Timer(now), hz).last == 0xFFFF <==> 2 * Elapsed(s.at, now) > hz
  {
    hide TimeAfter, LeLen, RunLen, Mask;
    AfterMeans(now, s.at, LongTimeout(hz));
    AfterMeans(now, s.at, ShortTimeout(hz));
  }
}
