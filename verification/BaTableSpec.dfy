/** The Block Ack session tables (BA_TABLE and the slot arrays, bitmaps and counters around it)
    under ADDBA, DELBA and timer events. */
module BaTableSpec {
  import opened BaLinks

  datatype OriStatus = OriNone | OriUsed | WaitRes | Done
  datatype RecStatus = RecNone | RecUsed | HandleRes | Accept

  const ORI_SESSION_MAX_RETRY := 8

  /** BA_ORI_ENTRY; `armed` says whether its set-up timer is running. */
  datatype OriEntry = OriEntry(status: OriStatus, wcid: nat, tid: nat, winSize: nat, token: nat, armed: bool)

  /** The session part of BA_REC_ENTRY. */
  datatype RecSession = RecSession(status: RecStatus, wcid: nat, tid: nat)

  /** What BA_MaxWinSizeReasign looks at: the peer, and the adapter. */
  datatype Peer = Peer(ralink: bool, ampduFactor: nat, htMixOrGreenfield: bool, mcsSet2: nat)
  datatype Chip = Chip(mt76x2u: bool, threeTxPaths: bool)

  /** The Block Ack fields of MAC_TABLE_ENTRY. */
  datatype Station = Station(ori: seq<nat>, rec: seq<nat>, tx: set<nat>, rx: set<nat>, decline: set<nat>, peer: Peer)

  datatype Request = Request(idx: nat, wcid: nat, tid: nat, token: nat)
  datatype DelBa = DelBa(wcid: nat, tid: nat, byOriginator: bool)

  // ---------------------------------------------------------------- views

  function OriOwners(ori: seq<OriEntry>): seq<Owner> {
    seq(|ori|, i requires 0 <= i < |ori| => Owner(ori[i].status != OriNone, ori[i].wcid, ori[i].tid))
  }

  function OriLive(ori: seq<OriEntry>): seq<bool> {
    seq(|ori|, i requires 0 <= i < |ori| => ori[i].status != OriNone)
  }

  function OriDone(ori: seq<OriEntry>): seq<bool> {
    seq(|ori|, i requires 0 <= i < |ori| => ori[i].status == Done)
  }

  function RecOwners(rec: seq<RecSession>): seq<Owner> {
    seq(|rec|, i requires 0 <= i < |rec| => Owner(rec[i].status != RecNone, rec[i].wcid, rec[i].tid))
  }

  function RecLive(rec: seq<RecSession>): seq<bool> {
    seq(|rec|, i requires 0 <= i < |rec| => rec[i].status != RecNone)
  }

  function OriSlots(sta: seq<Station>): seq<seq<nat>> {
    seq(|sta|, w requires 0 <= w < |sta| => sta[w].ori)
  }

  function RecSlots(sta: seq<Station>): seq<seq<nat>> {
    seq(|sta|, w requires 0 <= w < |sta| => sta[w].rec)
  }

  // A TID read from a frame has four bits, the slot arrays have NUM_OF_TID places, and nothing
  // checks the difference. Indices beyond an array reach the next field of MAC_TABLE_ENTRY.

  const TID_SPACE := 16

  /** BAOriWcidArray[t]; behind it lies BAOriSequence, which is zero and never written. */
  function OriAt(s: Station, t: nat): nat {
    if t < |s.ori| then s.ori[t] else 0
  }

  /** BARecWcidArray[t]; behind it lies BAOriWcidArray. */
  function RecAt(s: Station, t: nat): nat {
    if t < |s.rec| then s.rec[t] else OriAt(s, t - |s.rec|)
  }

  /** The DELBA messages for tearing down the sessions of TIDs below n at station w. */
  function Farewells(ori: seq<OriEntry>, s: Station, w: nat, n: nat): seq<DelBa>
    requires n <= |s.ori| && n <= |s.rec|
  {
    if n == 0 then []
    else
      var t := n - 1;
      Farewells(ori, s, w, t)
        + (if 0 < s.ori[t] < |ori| && ori[s.ori[t]].status == Done then [DelBa(w, t, true)] else [])
        + (if s.rec[t] != 0 then [DelBa(w, t, false)] else [])
  }

  lemma FarewellsNext(ori: seq<OriEntry>, s: Station, w: nat, t: nat, d: seq<DelBa>, own: seq<DelBa>, rec: seq<DelBa>)
    requires t < |s.ori| && t < |s.rec|
    requires own == if 0 < s.ori[t] < |ori| && ori[s.ori[t]].status == Done then [DelBa(w, t, true)] else []
    requires rec == if s.rec[t] != 0 then [DelBa(w, t, false)] else []
    ensures Farewells(ori, s, w, 0) == []
    ensures d + Farewells(ori, s, w, t + 1) == d + Farewells(ori, s, w, t) + own + rec
  {
  }

  /** The tokens 1, 2, .., n. */
  function Tokens(n: nat): (s: seq<nat>)
    ensures |s| == n && forall k :: 0 <= k < n ==> s[k] == k + 1
  {
    seq(n, k => k + 1)
  }

  // ---------------------------------------------------------------- the invariants

  /** Entry i while in use: it waits with its timer armed or is done with the timer stopped, and
      the tokens sent for it so far are 1 .. token - 1. */
  ghost predicate OriEntryOk(e: OriEntry, sent: seq<nat>, txLimit: nat) {
    && e.status != OriUsed
    && (e.armed <==> e.status == WaitRes)
    && (e.status == WaitRes ==> e.winSize == txLimit)
    && (e.status != OriNone ==>
          e.winSize <= txLimit && 1 <= e.token <= ORI_SESSION_MAX_RETRY && sent == Tokens(e.token - 1))
  }

  ghost predicate OriEntriesOk(ori: seq<OriEntry>, sent: seq<seq<nat>>, txLimit: nat) {
    |sent| == |ori| && forall i :: 0 <= i < |ori| ==> OriEntryOk(ori[i], sent[i], txLimit)
  }

  /** TXBAbitmap marks exactly the sessions that are done. */
  ghost predicate TxMarksDone(ori: seq<OriEntry>, sta: seq<Station>)
    requires Linked(OriOwners(ori), OriSlots(sta))
  {
    forall w, t :: 0 <= w < |sta| && 0 <= t < NUM_OF_TID ==>
      (t in sta[w].tx <==> OriSlots(sta)[w][t] != 0 && ori[OriSlots(sta)[w][t]].status == Done)
  }

  /** The tokens of the requests for entry i. */
  function TokensOf(requests: seq<Request>, i: nat): seq<nat> {
    if requests == [] then []
    else
      var n := |requests| - 1;
      TokensOf(requests[..n], i) + if requests[n].idx == i then [requests[n].token] else []
  }

  /** What an entry's current session has sent is what was handed to the MLME for it since the
      session began. */
  ghost predicate RequestsOk(requests: seq<Request>, sent: seq<seq<nat>>, begun: seq<nat>) {
    && |begun| == |sent|
    && forall i :: 0 <= i < |sent| ==> begun[i] <= |requests| && sent[i] == TokensOf(requests[begun[i]..], i)
  }

  /** A session begins at entry i. */
  lemma RequestsBegin(requests: seq<Request>, sent: seq<seq<nat>>, begun: seq<nat>, i: nat)
    requires RequestsOk(requests, sent, begun) && i < |sent|
    ensures |begun| == |sent| && RequestsOk(requests, sent[i := []], begun[i := |requests|])
  {
    assert requests[|requests|..] == [];
  }

  /** One more request goes out. */
  lemma RequestSent(requests: seq<Request>, sent: seq<seq<nat>>, begun: seq<nat>, r: Request)
    requires RequestsOk(requests, sent, begun) && r.idx < |sent|
    ensures RequestsOk(requests + [r], sent[r.idx := sent[r.idx] + [r.token]], begun)
  {
    var more, sent' := requests + [r], sent[r.idx := sent[r.idx] + [r.token]];
    forall i | 0 <= i < |sent'|
      ensures begun[i] <= |more| && sent'[i] == TokensOf(more[begun[i]..], i)
    {
      var tail := requests[begun[i]..];
      assert more[begun[i]..] == tail + [r] && (tail + [r])[..|tail|] == tail;
      if i != r.idx {
        assert sent[i] + [] == sent[i];
      }
    }
  }

  /** Tokens 1, 2, .. in order, at most ORI_SESSION_MAX_RETRY - 1 of them, have been handed to the
      MLME for the session that entry i is in. */
  lemma TokensInOrder(ori: seq<OriEntry>, sta: seq<Station>, sent: seq<seq<nat>>, begun: seq<nat>,
                      requests: seq<Request>,
                      num: nat, numDone: nat, txLimit: nat, i: nat)
    requires OriTable(ori, sta, sent, num, numDone, txLimit) && RequestsOk(requests, sent, begun)
    requires i < |ori| && ori[i].status != OriNone
    ensures i < |begun| && begun[i] <= |requests|
    ensures TokensOf(requests[begun[i]..], i) == Tokens(ori[i].token - 1) && ori[i].token <= 8
  {
  }

  ghost predicate OriTable(ori: seq<OriEntry>, sta: seq<Station>, sent: seq<seq<nat>>, num: nat, numDone: nat,
                           txLimit: nat) {
    && Linked(OriOwners(ori), OriSlots(sta))
    && OriEntriesOk(ori, sent, txLimit)
    && TxMarksDone(ori, sta)
    && num == Count(OriLive(ori)) && numDone == Count(OriDone(ori))
  }

  /** RXBAbitmap marks exactly the accepted sessions, and every live entry is accepted. */
  ghost predicate RecMarked(rec: seq<RecSession>, sta: seq<Station>) {
    && Linked(RecOwners(rec), RecSlots(sta))
    && (forall i :: 0 <= i < |rec| ==> rec[i].status == RecNone || rec[i].status == Accept)
    && (forall w, t :: 0 <= w < |sta| && 0 <= t < NUM_OF_TID ==> (t in sta[w].rx <==> RecSlots(sta)[w][t] != 0))
  }

  ghost predicate RecTable(rec: seq<RecSession>, sta: seq<Station>, num: nat) {
    RecMarked(rec, sta) && num == Count(RecLive(rec))
  }

  // ---------------------------------------------------------------- window sizes

  function Min(a: nat, b: nat): nat { if a <= b then a else b }

  /** A value stored into a u8. */
  function U8(x: int): nat { x % 256 }

  /** The cap BA_MaxWinSizeReasign derives from the peer's A-MPDU exponent and the chip. */
  function AmpduCap(chip: Chip, p: Peer): nat {
    Min(PeerMax(p), ChipMax(chip, p))
  }

  function PeerMax(p: Peer): nat {
    var e := Pow2(p.ampduFactor + 3);
    if p.ralink then U8(e) else U8((e * 10) / 16 - 1)
  }

  function ChipMax(chip: Chip, p: Peer): nat {
    if chip.mt76x2u then (if p.htMixOrGreenfield && p.mcsSet2 != 0xff then 31 else 47)
    else if chip.threeTxPaths && p.mcsSet2 != 0 then 31 else 20
  }

  function Pow2(n: nat): nat { if n == 0 then 1 else 2 * Pow2(n - 1) }

  /** The peer's buffer size as BAOriSessionAdd reads it: truncated to a u8, less one. */
  function PeerLimit(bufSize: nat): nat {
    var b := U8(bufSize);
    if b > 0 then b - 1 else 0
  }

  /** The window BARecSessionAdd installs and the response announces. */
  function RecWindow(bufSize: nat, rxLimit: nat): nat {
    var w := Min(U8(bufSize), U8(rxLimit));
    if w == 0 then 64 else w
  }

  /** What a recipient's window has to do with the buffer size the peer asked for and the adapter's
      limit, of each of which the low octet counts: the lesser of the two, or 64 if that is none. */
  ghost predicate Negotiated(win: nat, bufSize: nat, rxLimit: nat) {
    if bufSize % 256 == 0 || rxLimit % 256 == 0 then win == 64
    else win <= bufSize % 256 && win <= rxLimit % 256 && (win == bufSize % 256 || win == rxLimit % 256)
  }

  /** The windows a completed originator session may have: the configured limit, one less than the
      peer's buffer, what the peer's A-MPDU exponent has room for (a sixteenth of the octets, in
      units of 1.6 Kbyte for a foreign peer), and what the chip is good for. */
  ghost predicate WithinLimits(win: nat, txLimit: nat, bufSize: nat, chip: Chip, p: Peer) {
    && win <= txLimit
    && win <= (if bufSize % 256 == 0 then 0 else bufSize % 256 - 1)
    && (var octets := if p.ampduFactor == 0 then 8 else if p.ampduFactor == 1 then 16 else if p.ampduFactor == 2 then 32
                      else 64;
        if p.ralink then win <= octets else 16 * (win + 1) <= 10 * octets)
    && win <= (if chip.mt76x2u then (if p.htMixOrGreenfield && p.mcsSet2 != 255 then 31 else 47)
               else if chip.threeTxPaths && p.mcsSet2 != 0 then 31 else 20)
  }

  /** The largest such window. */
  ghost predicate LargestWindow(win: nat, txLimit: nat, bufSize: nat, chip: Chip, p: Peer) {
    && WithinLimits(win, txLimit, bufSize, chip, p)
    && forall v: nat :: WithinLimits(v, txLimit, bufSize, chip, p) ==> v <= win
  }

  /** The minimum that BAOriSessionAdd takes, for the exponents of the two-bit field. */
  lemma LargestIs(txLimit: nat, bufSize: nat, chip: Chip, p: Peer)
    requires p.ampduFactor <= 3
    ensures LargestWindow(Min(txLimit, Min(PeerLimit(bufSize), AmpduCap(chip, p))), txLimit, bufSize, chip, p)
  {
    hide PeerMax, ChipMax;
    var win := Min(txLimit, Min(PeerLimit(bufSize), AmpduCap(chip, p)));
    PeerMaxIs(p);
    ChipMaxIs(chip, p);
    forall v: nat ensures WithinLimits(v, txLimit, bufSize, chip, p) <==> v <= win {
    }
  }

  lemma ChipMaxIs(chip: Chip, p: Peer)
    ensures ChipMax(chip, p) == if chip.mt76x2u then (if p.htMixOrGreenfield && p.mcsSet2 != 255 then 31 else 47)
                                else if chip.threeTxPaths && p.mcsSet2 != 0 then 31 else 20
  {
  }

  lemma PeerMaxIs(p: Peer)
    requires p.ampduFactor <= 3
    ensures PeerMax(p) == if p.ralink then (if p.ampduFactor == 0 then 8 else if p.ampduFactor == 1 then 16
                                            else if p.ampduFactor == 2 then 32 else 64)
                          else (if p.ampduFactor == 0 then 4 else if p.ampduFactor == 1 then 9
                                else if p.ampduFactor == 2 then 19 else 39)
  {
    PowersOfTwo();
  }

  lemma PowersOfTwo()
    ensures Pow2(3) == 8 && Pow2(4) == 16 && Pow2(5) == 32 && Pow2(6) == 64
  {
    assert Pow2(1) == 2 && Pow2(2) == 4;
  }

  lemma NegotiatedIs(bufSize: nat, rxLimit: nat)
    ensures Negotiated(RecWindow(bufSize, rxLimit), bufSize, rxLimit)
  {
  }

  /** RXBAbitmap and the recipient slots, after BARecSessionAdd on a new entry. */
  lemma RecOpened(rec: seq<RecSession>, sta: seq<Station>, num: nat, i: nat, w: nat, t: nat)
    requires RecTable(rec, sta, num)
    requires 1 <= i < |rec| && rec[i].status == RecNone && w < |sta| && t < NUM_OF_TID && RecSlots(sta)[w][t] == 0
    ensures RecTable(rec[i := RecSession(Accept, w, t)],
                     sta[w := sta[w].(rec := sta[w].rec[t := i], rx := sta[w].rx + {t},
                                              decline := sta[w].decline - {t})], num + 1)
  {
    var row: seq<nat> := sta[w].rec[t := i];
    RecViewsAt(rec, i, RecSession(Accept, w, t));
    OriSlotsAt(sta, w, sta[w].(rec := row, rx := sta[w].rx + {t}, decline := sta[w].decline - {t}));
    LinkedBind(RecOwners(rec), RecSlots(sta), i, w, t);
    CountUpdate(RecLive(rec), i, true);
  }

  /** BARecSessionAdd on the table, for a four-bit TID: entry i is written, and the place that
      indexing the slot array by t reaches. */
  function RecWritten(rec: seq<RecSession>, i: nat, w: nat, t: nat): seq<RecSession>
    requires i < |rec|
  {
    rec[i := RecSession(Accept, w, t)]
  }

  function SlotWritten(s: Station, i: nat, t: nat): Station
    requires |s.rec| == NUM_OF_TID == |s.ori| && t < TID_SPACE
  {
    var u := s.(rx := s.rx + {t}, decline := s.decline - {t});
    if t < NUM_OF_TID then u.(rec := s.rec[t := i]) else u.(ori := s.ori[t - NUM_OF_TID := i])
  }

  /** The tables stay consistent exactly for TIDs the arrays have a place for: a new session with
      a larger one spoils both tables. */
  lemma NewSessionTid(ori: seq<OriEntry>, rec: seq<RecSession>, sta: seq<Station>, sent: seq<seq<nat>>, num: nat,
                      numDone: nat,
                      txLimit: nat, numRec: nat, i: nat, w: nat, t: nat)
    requires OriTable(ori, sta, sent, num, numDone, txLimit) && RecTable(rec, sta, numRec)
    requires 1 <= i < |rec| && rec[i].status == RecNone && w < |sta| && t < TID_SPACE
    requires |sta[w].rec| == NUM_OF_TID == |sta[w].ori| && RecAt(sta[w], t) == 0
    ensures var rec', sta' := RecWritten(rec, i, w, t), sta[w := SlotWritten(sta[w], i, t)];
            && (RecTable(rec', sta', numRec + 1) <==> t < NUM_OF_TID)
            && (OriTable(ori, sta', sent, num, numDone, txLimit) <==> t < NUM_OF_TID)
  {
    assert OriSlots(sta)[w] == sta[w].ori && RecSlots(sta)[w] == sta[w].rec;
    var rec', s' := RecWritten(rec, i, w, t), SlotWritten(sta[w], i, t);
    if t < NUM_OF_TID {
      RecOpened(rec, sta, numRec, i, w, t);
      OriUntouched(ori, sta, sent, num, numDone, txLimit, w, s');
    } else {
      var u := t - NUM_OF_TID;
      assert OriSlots(sta[w := s'])[w][u] == i;
      assert RecOwners(rec')[i] == Owner(true, w, t);
    }
  }

  /** An entry in use, reached through the slot of another array, is spoilt by a larger TID. */
  lemma OldSessionTid(rec: seq<RecSession>, sta: seq<Station>, numRec: nat, num: nat, w: nat, t: nat)
    requires RecTable(rec, sta, numRec) && w < |sta| && t < TID_SPACE
    requires |sta[w].rec| == NUM_OF_TID == |sta[w].ori|
    requires 1 <= RecAt(sta[w], t) < |rec| && (t < NUM_OF_TID ==> num == numRec)
    ensures var i := RecAt(sta[w], t);
            RecTable(RecWritten(rec, i, w, t), sta[w := SlotWritten(sta[w], i, t)], num) <==> t < NUM_OF_TID
  {
    var i, s' := RecAt(sta[w], t), SlotWritten(sta[w], RecAt(sta[w], t), t);
    assert RecSlots(sta)[w] == sta[w].rec;
    if t < NUM_OF_TID {
      assert RecOwners(rec)[i] == Owner(true, w, t);
      assert rec[i] == RecSession(Accept, w, t) && RecSlots(sta)[w][t] != 0;
      assert RecWritten(rec, i, w, t) == rec && s'.rec == sta[w].rec && s'.rx == sta[w].rx;
      RecUntouched(rec, sta, numRec, w, s');
    } else {
      assert RecOwners(RecWritten(rec, i, w, t))[i] == Owner(true, w, t);
    }
  }

  /** BATableFreeRecEntry alone, without the steps of the teardown before it: the bitmap keeps a
      bit without a session. */
  lemma FreedAlone(rec: seq<RecSession>, sta: seq<Station>, numRec: nat, i: nat)
    requires RecTable(rec, sta, numRec) && i < |rec| && rec[i].status != RecNone
    ensures rec[i].wcid < |sta| && rec[i].tid < |sta[rec[i].wcid].rec| && numRec >= 1
    ensures var w, t := rec[i].wcid, rec[i].tid;
            !RecMarked(rec[i := rec[i].(status := RecNone)], sta[w := sta[w].(rec := sta[w].rec[t := 0])])
  {
    RecClosed(rec, sta, numRec, i);
    var w, t := rec[i].wcid, rec[i].tid;
    assert RecOwners(rec)[i].live;
    assert RecSlots(sta)[w][t] == i;
    var row: seq<nat> := sta[w].rec[t := 0];
    assert RecSlots(sta[w := sta[w].(rec := row)])[w][t] == 0;
  }

  lemma RecViewsAt(rec: seq<RecSession>, i: nat, e: RecSession)
    requires i < |rec|
    ensures RecOwners(rec[i := e]) == RecOwners(rec)[i := Owner(e.status != RecNone, e.wcid, e.tid)]
    ensures RecLive(rec[i := e]) == RecLive(rec)[i := e.status != RecNone]
  {
  }

  /** A recipient session torn down. */
  lemma RecClosed(rec: seq<RecSession>, sta: seq<Station>, num: nat, i: nat)
    requires RecTable(rec, sta, num) && i < |rec| && rec[i].status != RecNone
    ensures rec[i].wcid < |sta| && rec[i].tid < |sta[rec[i].wcid].rec| && num >= 1
    ensures var w, t := rec[i].wcid, rec[i].tid;
            RecTable(rec[i := rec[i].(status := RecNone)],
                     sta[w := sta[w].(rec := sta[w].rec[t := 0], rx := sta[w].rx - {t})], num - 1)
  {
    var w, t := rec[i].wcid, rec[i].tid;
    assert RecOwners(rec)[i].live;
    assert RecSlots(sta)[w][t] == i;
    var row: seq<nat> := sta[w].rec[t := 0];
    RecViewsAt(rec, i, rec[i].(status := RecNone));
    OriSlotsAt(sta, w, sta[w].(rec := row, rx := sta[w].rx - {t}));
    LinkedFree(RecOwners(rec), RecSlots(sta), i);
    CountUpdate(RecLive(rec), i, false);
  }

  /** Changes to the other role's fields of one station do not matter. */
  lemma RecUntouched(rec: seq<RecSession>, sta: seq<Station>, num: nat, w: nat, s: Station)
    requires RecTable(rec, sta, num) && w < |sta| && s.rec == sta[w].rec && s.rx == sta[w].rx
    ensures RecTable(rec, sta[w := s], num)
  {
    OriSlotsAt(sta, w, s);
    assert RecSlots(sta)[w := sta[w].rec] == RecSlots(sta);
  }

  lemma OriUntouched(ori: seq<OriEntry>, sta: seq<Station>, sent: seq<seq<nat>>, num: nat, numDone: nat, txLimit: nat,
                     w: nat, s: Station)
    requires OriTable(ori, sta, sent, num, numDone, txLimit) && w < |sta| && s.ori == sta[w].ori && s.tx == sta[w].tx
    ensures OriTable(ori, sta[w := s], sent, num, numDone, txLimit)
  {
    OriSlotsAt(sta, w, s);
    assert OriSlots(sta)[w := sta[w].ori] == OriSlots(sta);
  }

  // ---------------------------------------------------------------- pure preservation lemmas

  lemma OriViewsAt(ori: seq<OriEntry>, i: nat, e: OriEntry)
    requires i < |ori|
    ensures OriOwners(ori[i := e]) == OriOwners(ori)[i := Owner(e.status != OriNone, e.wcid, e.tid)]
    ensures OriLive(ori[i := e]) == OriLive(ori)[i := e.status != OriNone]
    ensures OriDone(ori[i := e]) == OriDone(ori)[i := e.status == Done]
  {
  }

  lemma OriSlotsAt(sta: seq<Station>, w: nat, s: Station)
    requires w < |sta|
    ensures OriSlots(sta[w := s]) == OriSlots(sta)[w := s.ori]
    ensures RecSlots(sta[w := s]) == RecSlots(sta)[w := s.rec]
  {
  }

  /** BAOriSessionSetUp: entry i starts waiting for (w, t). */
  lemma OriOpened(ori: seq<OriEntry>, sta: seq<Station>, sent: seq<seq<nat>>, num: nat, numDone: nat, txLimit: nat,
                  i: nat, w: nat, t: nat)
    requires OriTable(ori, sta, sent, num, numDone, txLimit)
    requires 1 <= i < |ori| && ori[i].status == OriNone && w < |sta| && t < NUM_OF_TID && OriSlots(sta)[w][t] == 0
    ensures OriTable(ori[i := OriEntry(WaitRes, w, t, txLimit, 1, true)], sta[w := sta[w].(ori := sta[w].ori[t := i])],
                     sent[i := []], num + 1, numDone, txLimit)
  {
    hide Count, Tokens;
    var e := OriEntry(WaitRes, w, t, txLimit, 1, true);
    var row: seq<nat> := sta[w].ori[t := i];
    OriViewsAt(ori, i, e);
    OriSlotsAt(sta, w, sta[w].(ori := row));
    LinkedBind(OriOwners(ori), OriSlots(sta), i, w, t);
    CountUpdate(OriLive(ori), i, true);
    CountUpdate(OriDone(ori), i, false);
    MarksWaiting(ori, sta, i, w, t, e);
  }

  /** A waiting session has no bit. */
  lemma MarksWaiting(ori: seq<OriEntry>, sta: seq<Station>, i: nat, w: nat, t: nat, e: OriEntry)
    requires Linked(OriOwners(ori), OriSlots(sta)) && TxMarksDone(ori, sta)
    requires 1 <= i < |ori| && w < |sta| && t < |sta[w].ori| && t < NUM_OF_TID && OriSlots(sta)[w][t] == 0
    requires ori[i].status == OriNone && e.status == WaitRes
    requires var row: seq<nat> := sta[w].ori[t := i];
             Linked(OriOwners(ori[i := e]), OriSlots(sta[w := sta[w].(ori := row)]))
    ensures var row: seq<nat> := sta[w].ori[t := i];
            TxMarksDone(ori[i := e], sta[w := sta[w].(ori := row)])
  {
  }

  /** A change to entry i that keeps its owner and its place in the counts. */
  lemma OriTicked(ori: seq<OriEntry>, sta: seq<Station>, sent: seq<seq<nat>>, num: nat, numDone: nat, txLimit: nat,
                  i: nat)
    requires OriTable(ori, sta, sent, num, numDone, txLimit)
    requires i < |ori| && ori[i].status == WaitRes && ori[i].token < ORI_SESSION_MAX_RETRY
    ensures OriTable(ori[i := ori[i].(token := ori[i].token + 1)], sta,
                     sent[i := sent[i] + [ori[i].token]], num, numDone, txLimit)
  {
    OriViewsAt(ori, i, ori[i].(token := ori[i].token + 1));
    assert OriOwners(ori)[i := OriOwners(ori)[i]] == OriOwners(ori);
    assert OriLive(ori)[i := OriLive(ori)[i]] == OriLive(ori) && OriDone(ori)[i := OriDone(ori)[i]] == OriDone(ori);
    assert Tokens(ori[i].token - 1) + [ori[i].token] == Tokens(ori[i].token);
  }

  /** BAOriSessionAdd: the response arrived. */
  lemma OriConfirmed(ori: seq<OriEntry>, sta: seq<Station>, sent: seq<seq<nat>>, num: nat, numDone: nat, txLimit: nat,
                     i: nat, win: nat)
    requires OriTable(ori, sta, sent, num, numDone, txLimit)
    requires i < |ori| && ori[i].status == WaitRes && win <= txLimit
    ensures ori[i].wcid < |sta|
    ensures var w := ori[i].wcid;
            OriTable(ori[i := ori[i].(status := Done, winSize := win, armed := false)],
                     sta[w := sta[w].(tx := sta[w].tx + {ori[i].tid})], sent, num, numDone + 1, txLimit)
  {
    var w := ori[i].wcid;
    assert OriOwners(ori)[i].live;
    OriViewsAt(ori, i, ori[i].(status := Done, winSize := win, armed := false));
    OriSlotsAt(sta, w, sta[w].(tx := sta[w].tx + {ori[i].tid}));
    assert OriSlots(sta)[w := sta[w].ori] == OriSlots(sta);
    assert OriOwners(ori)[i := OriOwners(ori)[i]] == OriOwners(ori);
    assert OriLive(ori)[i := OriLive(ori)[i]] == OriLive(ori);
    CountUpdate(OriDone(ori), i, true);
  }

  /** BATableFreeOriEntry on a live entry. */
  lemma OriFreed(ori: seq<OriEntry>, sta: seq<Station>, sent: seq<seq<nat>>, num: nat, numDone: nat, txLimit: nat,
                 i: nat)
    requires OriTable(ori, sta, sent, num, numDone, txLimit)
    requires i < |ori| && ori[i].status != OriNone
    ensures ori[i].wcid < |sta| && ori[i].tid < |sta[ori[i].wcid].ori| && num >= 1
    ensures ori[i].status == Done ==> numDone >= 1
    ensures var w, t := ori[i].wcid, ori[i].tid;
            var done := ori[i].status == Done;
            OriTable(ori[i := ori[i].(status := OriNone, token := 0, armed := false)],
                     sta[w := sta[w].(ori := sta[w].ori[t := 0], tx := if done then sta[w].tx - {t} else sta[w].tx)],
                     sent, num - 1, if done then numDone - 1 else numDone, txLimit)
  {
    var w, t := ori[i].wcid, ori[i].tid;
    assert OriOwners(ori)[i].live;
    assert OriSlots(sta)[w][t] == i;
    var row: seq<nat> := sta[w].ori[t := 0];
    var s := sta[w].(ori := row, tx := if ori[i].status == Done then sta[w].tx - {t} else sta[w].tx);
    OriViewsAt(ori, i, ori[i].(status := OriNone, token := 0, armed := false));
    OriSlotsAt(sta, w, s);
    LinkedFree(OriOwners(ori), OriSlots(sta), i);
    CountUpdate(OriLive(ori), i, false);
    CountUpdate(OriDone(ori), i, false);
    OriFreedMarks(ori, sta, i, w, t, s);
  }

  lemma OriFreedMarks(ori: seq<OriEntry>, sta: seq<Station>, i: nat, w: nat, t: nat, s: Station)
    requires Linked(OriOwners(ori), OriSlots(sta)) && TxMarksDone(ori, sta)
    requires i < |ori| && ori[i].status != OriNone && ori[i].wcid == w < |sta|
             && ori[i].tid == t < NUM_OF_TID == |sta[w].ori|
    requires s.ori == sta[w].ori[t := 0] && s.tx == if ori[i].status == Done then sta[w].tx - {t} else sta[w].tx
    requires Linked(OriOwners(ori[i := ori[i].(status := OriNone, token := 0, armed := false)]), OriSlots(sta[w := s]))
    ensures TxMarksDone(ori[i := ori[i].(status := OriNone, token := 0, armed := false)], sta[w := s])
  {
    var ori' := ori[i := ori[i].(status := OriNone, token := 0, armed := false)];
    assert OriOwners(ori)[i].live;
    forall v, u {:trigger OriSlots(sta)[v][u]} | 0 <= v < |sta| && 0 <= u < NUM_OF_TID
      ensures u in sta[w := s][v].tx <==>
                OriSlots(sta[w := s])[v][u] != 0 && ori'[OriSlots(sta[w := s])[v][u]].status == Done
    {
      if v != w || u != t {
        assert OriSlots(sta[w := s])[v][u] == OriSlots(sta)[v][u];
        if OriSlots(sta)[v][u] != 0 {
          assert OriOwners(ori)[OriSlots(sta)[v][u]] == Owner(true, v, u);
        }
      }
    }
  }
}
