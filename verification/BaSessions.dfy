/** The table object: the driver's session methods, each with its whole effect on the table and
    the stations. Valid() is the consistency that every one of them keeps. */
module BaSessions {
  import opened BaLinks
  import opened BaTableSpec

  class BaTable {
    const ori: array<OriEntry>
    const rec: array<RecSession>
    const sta: array<Station>
    const chip: Chip
    const txLimit: nat          // CommonCfg.BACapability.field.TxBAWinLimit
    var numAsOriginator: nat
    var numAsRecipient: nat
    var numDoneOriginator: nat
    var requests: seq<Request>  // ADDBA requests handed to the MLME, in order
    var delBas: seq<DelBa>      // DELBA requests handed to the MLME, in order
    ghost var sent: seq<seq<nat>>  // tokens sent for the current session of each originator entry
    ghost var begun: seq<nat>   // how many requests there were when that session began

    ghost predicate OriValid()
      reads this, ori, sta
    {
      OriTable(ori[..], sta[..], sent, numAsOriginator, numDoneOriginator, txLimit)
    }

    ghost predicate RecValid()
      reads this, rec, sta
    {
      RecTable(rec[..], sta[..], numAsRecipient)
    }

    /** Valid() is OriValid(), RecValid() and that `sent` is part of the real log. */
    ghost predicate Valid()
      reads this, ori, rec, sta
    {
      OriValid() && RecValid() && RequestsOk(requests, sent, begun)
    }

    /** BATableInit, with no station holding a session. */
    constructor (nOri: nat, nRec: nat, peers: seq<Peer>, chip: Chip, txLimit: nat)
      requires nOri >= 1 && nRec >= 1
      ensures Valid() && ori.Length == nOri && rec.Length == nRec && sta.Length == |peers|
      ensures fresh(ori) && fresh(rec) && fresh(sta)
      ensures this.txLimit == txLimit && this.chip == chip && requests == [] && delBas == []
      ensures forall i :: 0 <= i < nRec ==> rec[i].status == RecNone
    {
      hide OriTable, RecTable;
      this.chip, this.txLimit := chip, txLimit;
      ori := new OriEntry[nOri](_ => OriEntry(OriNone, 0, 0, 0, 0, false));
      rec := new RecSession[nRec](_ => RecSession(RecNone, 0, 0));
      sta := new Station[|peers|](w requires 0 <= w < |peers| =>
        Station([0, 0, 0, 0, 0, 0, 0, 0], [0, 0, 0, 0, 0, 0, 0, 0], {}, {}, {}, peers[w]));
      numAsOriginator, numAsRecipient, numDoneOriginator := 0, 0, 0;
      requests, delBas := [], [];
      sent, begun := seq(nOri, _ => []), seq(nOri, _ => 0);
      new;
      NoneOpen(ori[..], rec[..], sta[..], sent, txLimit);
    }

    // -------------------------------------------------------------- originator

    /** BATableAllocOriEntry */
    method AllocOri() returns (ok: bool, idx: nat)
      requires OriValid() && ori.Length >= 1
      modifies ori, this`numAsOriginator
      ensures ok <==> old(numAsOriginator) < ori.Length - 1
      ensures !ok ==> ori[..] == old(ori[..]) && numAsOriginator == old(numAsOriginator)
      ensures ok ==> 1 <= idx < ori.Length && old(ori[idx]).status == OriNone
      ensures ok ==> forall i :: 1 <= i < idx ==> old(ori[i]).status != OriNone
      ensures ok ==> ori[..] == old(ori[..])[idx := old(ori[idx]).(status := OriUsed)]
                     && numAsOriginator == old(numAsOriginator) + 1
    {
      if numAsOriginator >= ori.Length - 1 {
        return false, 0;
      }
      FreeFlagExists(OriLive(ori[..]));
      ghost var j :| 1 <= j < |OriLive(ori[..])| && !OriLive(ori[..])[j];
      idx := 1;
      while ori[idx].status != OriNone
        invariant 1 <= idx <= j < ori.Length
        invariant forall i :: 1 <= i < idx ==> ori[i].status != OriNone
        decreases j - idx
      {
        assert idx != j;
        idx := idx + 1;
      }
      ok := true;
      numAsOriginator := numAsOriginator + 1;
      ori[idx] := ori[idx].(status := OriUsed);
    }

    /** What the slots of a station lead to. */
    lemma OriSlotsOf(w: nat)
      requires OriValid() && w < sta.Length
      ensures OriSlots(sta[..])[w] == sta[w].ori && |sta[w].ori| == NUM_OF_TID
      ensures ori.Length >= 1 && |sent| == ori.Length
      ensures forall t :: 0 <= t < NUM_OF_TID && sta[w].ori[t] != 0 ==>
                && sta[w].ori[t] < ori.Length
                && var e := ori[sta[w].ori[t]];
                e.status != OriNone && e.wcid == w && e.tid == t && e.winSize <= txLimit
    {
      var slots := OriSlots(sta[..]);
      assert slots[w] == sta[w].ori && |slots[w]| == NUM_OF_TID;
      forall t | 0 <= t < NUM_OF_TID && sta[w].ori[t] != 0
        ensures sta[w].ori[t] < ori.Length && OriOwners(ori[..])[sta[w].ori[t]] == Owner(true, w, t)
      {
        assert slots[w][t] == sta[w].ori[t];
      }
    }

    lemma SlotsAreOwn(w: nat)
      requires OriValid() && w < sta.Length
      ensures OwnSlots(sta[w], ori[..], w)
    {
      hide OriTable, OriSlots;
      OriSlotsOf(w);
    }

    lemma WaitingWindows()
      requires OriValid()
      ensures forall i :: 0 <= i < ori.Length && ori[i].status == WaitRes ==> ori[i].winSize == txLimit
    {
      assert forall i :: 0 <= i < ori.Length ==> OriEntryOk(ori[..][i], sent[i], txLimit);
    }

    /** BAOriSessionSetUp. `delay` is the time the set-up timer is armed with. */
    method SetUp(w: nat, t: nat, autoBa: bool, forced: bool, htOnly: bool, delayTime: nat)
      returns (started: bool, delay: nat)
      requires Valid() && w < sta.Length
      modifies this, ori, sta
      ensures Valid()
      ensures started <==> t < NUM_OF_TID && (autoBa || forced) && htOnly && OriSlots(old(sta[..]))[w][t] == 0
                           && old(numAsOriginator) < ori.Length - 1
      ensures !started ==>
                ori[..] == old(ori[..]) && sta[..] == old(sta[..])
                && numAsOriginator == old(numAsOriginator) && sent == old(sent)
      ensures started ==> delay == if t in old(sta[w]).decline && !forced then 3000 else delayTime
      ensures started ==>
                var i := OriSlots(sta[..])[w][t];
                && 1 <= i < ori.Length && old(ori[i]).status == OriNone
                && ori[..] == old(ori[..])[i := OriEntry(WaitRes, w, t, txLimit, 1, true)]
                && sta[..] == old(sta[..])[w := old(sta[w]).(ori := OriSlots(old(sta[..]))[w][t := i])]
                && sent == old(sent)[i := []] && numAsOriginator == old(numAsOriginator) + 1
      ensures requests == old(requests) && delBas == old(delBas) && rec[..] == old(rec[..])
      ensures numDoneOriginator == old(numDoneOriginator) && numAsRecipient == old(numAsRecipient)
    {
      hide OriTable, RecTable, OriSlots, RequestsOk, Linked;
      OriSlotsOf(w);
      started, delay := false, delayTime;
      if t >= NUM_OF_TID || (!autoBa && !forced) || !htOnly {
        return;
      }
      if t in sta[w].decline && !forced {
        delay := 3000;
      }
      var idx := sta[w].ori[t];
      if idx == 0 {
        ghost var o, s := ori[..], sta[..];
        var ok;
        ok, idx := AllocOri();
        if !ok {
          return;
        }
        OriOpened(o, s, sent, numAsOriginator - 1, numDoneOriginator, txLimit, idx, w, t);
        var row: seq<nat> := sta[w].ori[t := idx];
        sta[w] := sta[w].(ori := row);
        ori[idx] := OriEntry(WaitRes, w, t, txLimit, 1, true);
        RequestsBegin(requests, sent, begun, idx);
        sent, begun := sent[idx := []], begun[idx := |requests|];
        started := true;
        RecUntouched(rec[..], s, numAsRecipient, w, sta[w]);
        assert ori[..] == o[idx := OriEntry(WaitRes, w, t, txLimit, 1, true)];
        assert sta[..] == s[w := s[w].(ori := row)];
        OriSlotsOf(w);
      }
    }

    /** BAOriSessionAdd: a successful ADDBA response with the peer's buffer size (10 bits).
        Four-bit TIDs without a slot find no session. */
    method AddOri(w: nat, t: nat, bufSize: nat) returns (done: bool)
      requires Valid() && w < sta.Length && t < TID_SPACE
      modifies this, ori, sta
      ensures Valid()
      ensures OriAnswered(old(ori[..]), old(sta[..]), ori[..], sta[..], chip, w, t, bufSize)
      ensures done <==> Waiting(old(ori[..]), old(sta[..]), w, t)
      ensures done && old(sta[w]).peer.ampduFactor <= 3 ==>
                LargestWindow(ori[OriAt(old(sta[w]), t)].winSize, txLimit, bufSize, chip, old(sta[w]).peer)
      ensures numDoneOriginator == old(numDoneOriginator) + if done then 1 else 0
      ensures sent == old(sent) && numAsOriginator == old(numAsOriginator) && numAsRecipient == old(numAsRecipient)
      ensures requests == old(requests) && delBas == old(delBas) && rec[..] == old(rec[..])
    {
      hide OriTable, RecTable, OriSlots, RequestsOk, AmpduCap, Linked, LargestWindow;
      OriSlotsOf(w);
      WaitingWindows();
      var i := OriAt(sta[w], t);
      done := false;
      if i != 0 && ori[i].tid == t && ori[i].status == WaitRes {
        ghost var o, s := ori[..], sta[..];
        var peer := U8(bufSize);
        peer := if peer > 0 then peer - 1 else 0;
        var win := Min(ori[i].winSize, peer);
        var cap := AmpduCap(chip, sta[w].peer);
        if win > cap {
          win := cap;
        }
        if sta[w].peer.ampduFactor <= 3 {
          LargestIs(txLimit, bufSize, chip, sta[w].peer);
        }
        OriConfirmed(o, s, sent, numAsOriginator, numDoneOriginator, txLimit, i, win);
        ori[i] := ori[i].(status := Done, winSize := win, armed := false);
        numDoneOriginator := numDoneOriginator + 1;
        sta[w] := sta[w].(tx := sta[w].tx + {t});
        RecUntouched(rec[..], s, numAsRecipient, w, sta[w]);
        assert ori[..] == o[i := ori[i]] && sta[..] == s[w := sta[w]];
        done := true;
      }
    }

    /** BATableFreeOriEntry; index 0 and indices beyond the table do nothing. */
    method FreeOri(i: nat)
      requires Valid()
      modifies this, ori, sta
      ensures Valid()
      ensures i == 0 || i >= ori.Length || old(ori[i]).status == OriNone ==>
                ori[..] == old(ori[..]) && sta[..] == old(sta[..]) && numAsOriginator == old(numAsOriginator)
                && numDoneOriginator == old(numDoneOriginator)
      ensures 0 < i < ori.Length && old(ori[i]).status != OriNone ==>
                && OriReleased(old(ori[..]), old(sta[..]), ori[..], sta[..], i)
                && numAsOriginator == old(numAsOriginator) - 1
                && numDoneOriginator == old(numDoneOriginator) - (if old(ori[i]).status == Done then 1 else 0)
      ensures sent == old(sent) && numAsRecipient == old(numAsRecipient)
      ensures requests == old(requests) && delBas == old(delBas) && rec[..] == old(rec[..])
    {
      hide OriTable, RecTable, OriSlots, RequestsOk, Linked;
      if i == 0 || i >= ori.Length {
        return;
      }
      if ori[i].status != OriNone {
        ghost var o, s := ori[..], sta[..];
        OriFreed(o, s, sent, numAsOriginator, numDoneOriginator, txLimit, i);
        var w, t := ori[i].wcid, ori[i].tid;
        var row: seq<nat> := sta[w].ori[t := 0];
        sta[w] := sta[w].(ori := row);
        if ori[i].status == Done {
          numDoneOriginator := numDoneOriginator - 1;
          sta[w] := sta[w].(tx := sta[w].tx - {t});
        }
        numAsOriginator := numAsOriginator - 1;
        ori[i] := ori[i].(status := OriNone, token := 0, armed := false);
        RecUntouched(rec[..], s, numAsRecipient, w, sta[w]);
        assert ori[..] == o[i := ori[i]] && sta[..] == s[w := sta[w]];
      }
    }

    /** BAOriSessionTearDown. `memOk` is whether kmalloc found room for the DELBA message. */
    method TearDownOri(w: nat, t: nat, passive: bool, forceSend: bool, memOk: bool)
      requires Valid() && t < TID_SPACE
      modifies this, ori, sta
      ensures Valid()
      ensures w >= sta.Length ==> ori[..] == old(ori[..]) && sta[..] == old(sta[..]) && delBas == old(delBas)
      ensures w < sta.Length ==>
                var i := OriAt(old(sta[w]), t);
                && (i == 0 ==> ori[..] == old(ori[..]) && sta[..] == old(sta[..])
                               && delBas == old(delBas) + if forceSend && memOk then [DelBa(w, t, true)] else [])
                && (i != 0 ==>
                      && i < ori.Length
                      && var tell := !passive && old(ori[..])[i].status == Done;
                      && (tell && !memOk ==>
                            ori[..] == old(ori[..]) && sta[..] == old(sta[..]) && delBas == old(delBas))
                      && (!(tell && !memOk) ==> OriReleased(old(ori[..]), old(sta[..]), ori[..], sta[..], i)
                                                && delBas == old(delBas) + if tell then [DelBa(w, t, true)] else []))
      ensures sent == old(sent) && numAsRecipient == old(numAsRecipient) && requests == old(requests)
              && rec[..] == old(rec[..])
    {
      hide OriTable, RecTable, OriSlots, RequestsOk, Linked;
      if w >= sta.Length {
        return;
      }
      OriSlotsOf(w);
      var i := OriAt(sta[w], t);
      if i == 0 || i >= ori.Length {
        if forceSend && memOk {
          delBas := delBas + [DelBa(w, t, true)];
        }
        return;
      }
      if !passive && t == ori[i].tid && ori[i].status == Done {
        if !memOk {
          return;
        }
        delBas := delBas + [DelBa(w, t, true)];
      }
      FreeOri(i);
    }

    lemma ArmedWaits(i: nat)
      requires OriValid() && i < ori.Length && ori[i].armed
      ensures var e := ori[i];
              && e.status == WaitRes && e.wcid < sta.Length && e.tid < NUM_OF_TID == |sta[e.wcid].ori|
              && 1 <= i && sta[e.wcid].ori[e.tid] == i && numAsOriginator >= 1 && |sent| == ori.Length
    {
      var e := ori[i];
      assert OriOwners(ori[..])[i] == Owner(true, e.wcid, e.tid);
      assert OriSlots(sta[..])[e.wcid][e.tid] == i;
      OriFreed(ori[..], sta[..], sent, numAsOriginator, numDoneOriginator, txLimit, i);
    }

    /** BAOriSessionSetupTimeout, AP mode: the timer of entry i fired. */
    method SetupTimeout(i: nat)
      requires Valid() && i < ori.Length && ori[i].armed
      modifies this, ori, sta
      ensures Valid()
      ensures old(ori[i]).status == WaitRes
      ensures var e := old(ori[i]);
              if e.token < 8 then
                && ori[..] == old(ori[..])[i := e.(token := e.token + 1)] && sta[..] == old(sta[..])
                && requests == old(requests) + [Request(i, e.wcid, e.tid, e.token)]
                && sent == old(sent)[i := old(sent)[i] + [e.token]]
                && numAsOriginator == old(numAsOriginator)
              else
                && OriReleased(old(ori[..]), old(sta[..]), ori[..], sta[..], i)
                && requests == old(requests) && sent == old(sent)
                && numAsOriginator == old(numAsOriginator) - 1
      ensures delBas == old(delBas) && rec[..] == old(rec[..])
      ensures numAsRecipient == old(numAsRecipient) && numDoneOriginator == old(numDoneOriginator)
    {
      hide OriTable, RecTable, OriSlots;
      var e := ori[i];
      ArmedWaits(i);
      if e.status == WaitRes && e.token < ORI_SESSION_MAX_RETRY {
        ghost var o := ori[..];
        OriTicked(o, sta[..], sent, numAsOriginator, numDoneOriginator, txLimit, i);
        RequestSent(requests, sent, begun, Request(i, e.wcid, e.tid, e.token));
        requests := requests + [Request(i, e.wcid, e.tid, e.token)];
        sent := sent[i := sent[i] + [e.token]];
        ori[i] := e.(token := e.token + 1);
        assert ori[..] == o[i := ori[i]];
      } else {
        FreeOri(sta[e.wcid].ori[e.tid]);
      }
    }

    /** PeerAddBARspAction on a frame that passed its sanity check. */
    method PeerAddBaRsp(w: nat, t: nat, status: nat, bufSize: nat)
      requires Valid() && w < sta.Length && t < TID_SPACE
      modifies this, ori, sta
      ensures Valid() && sent == old(sent) && requests == old(requests) && delBas == old(delBas)
              && rec[..] == old(rec[..])
      ensures status == 0 ==> OriAnswered(old(ori[..]), old(sta[..]), ori[..], sta[..], chip, w, t, bufSize)
      ensures status == 0 && Waiting(old(ori[..]), old(sta[..]), w, t) && old(sta[w]).peer.ampduFactor <= 3 ==>
                LargestWindow(ori[OriAt(old(sta[w]), t)].winSize, txLimit, bufSize, chip, old(sta[w]).peer)
      ensures status != 0 ==>
                var i, mid := OriAt(old(sta[w]), t), sta[..][w := sta[w].(decline := old(sta[w]).decline)];
                && sta[w].decline == old(sta[w]).decline + (if status == 37 then {t} else {})
                && OriAt(sta[w], t) == 0
                && if i == 0 then ori[..] == old(ori[..]) && mid == old(sta[..])
                   else OriReleased(old(ori[..]), old(sta[..]), ori[..], mid, i)
    {
      hide OriTable, RecTable, OriSlots, RequestsOk, Linked, LargestWindow;
      OriSlotsOf(w);
      if status == 0 {
        var _ := AddOri(w, t, bufSize);
      } else {
        TearDownOri(w, t, true, false, true);
        if status == 37 {
          ghost var s := sta[..];
          sta[w] := sta[w].(decline := sta[w].decline + {t});
          RecUntouched(rec[..], s, numAsRecipient, w, sta[w]);
          OriUntouched(ori[..], s, sent, numAsOriginator, numDoneOriginator, txLimit, w, sta[w]);
          assert sta[..] == s[w := sta[w]];
        }
      }
    }

    // -------------------------------------------------------------- recipient

    /** What the recipient slots of a station lead to. */
    lemma RecSlotsOf(w: nat)
      requires RecValid() && w < sta.Length
      ensures RecSlots(sta[..])[w] == sta[w].rec && |sta[w].rec| == NUM_OF_TID && rec.Length >= 1
      ensures forall t :: 0 <= t < NUM_OF_TID && sta[w].rec[t] != 0 ==>
                sta[w].rec[t] < rec.Length && rec[sta[w].rec[t]] == RecSession(Accept, w, t) && t in sta[w].rx
    {
      var slots := RecSlots(sta[..]);
      assert slots[w] == sta[w].rec && |slots[w]| == NUM_OF_TID;
      forall t | 0 <= t < NUM_OF_TID && sta[w].rec[t] != 0
        ensures sta[w].rec[t] < rec.Length && RecOwners(rec[..])[sta[w].rec[t]] == Owner(true, w, t)
      {
        assert slots[w][t] == sta[w].rec[t];
      }
    }

    /** A session's entry is the one its slot names. */
    lemma RecEntryOf(i: nat)
      requires RecValid() && i < rec.Length && rec[i].status != RecNone
      ensures rec[i].wcid < sta.Length && rec[i].tid < NUM_OF_TID == |sta[rec[i].wcid].rec|
      ensures sta[rec[i].wcid].rec[rec[i].tid] == i
    {
      assert RecOwners(rec[..])[i].live;
      assert RecSlots(sta[..])[rec[i].wcid] == sta[rec[i].wcid].rec;
    }

    /** Entry 0 is never in use, and no entry is between the states. */
    lemma RecStatuses()
      requires RecValid()
      ensures rec.Length >= 1 && rec[0].status == RecNone
      ensures forall i :: 0 <= i < rec.Length ==> rec[i].status == RecNone || rec[i].status == Accept
    {
      assert !RecOwners(rec[..])[0].live;
      assert forall i :: 0 <= i < rec.Length ==> rec[..][i] == rec[i];
    }

    /** BATableAllocRecEntry */
    method AllocRec() returns (ok: bool, idx: nat)
      requires RecValid() && rec.Length >= 1
      modifies rec, this`numAsRecipient
      ensures ok <==> old(numAsRecipient) < rec.Length - 1
      ensures !ok ==> idx == 0 && rec[..] == old(rec[..]) && numAsRecipient == old(numAsRecipient)
      ensures ok ==> 1 <= idx < rec.Length && old(rec[idx]).status == RecNone
      ensures ok ==> forall i :: 1 <= i < idx ==> old(rec[i]).status != RecNone
      ensures ok ==> rec[..] == old(rec[..])[idx := old(rec[idx]).(status := RecUsed)]
                     && numAsRecipient == old(numAsRecipient) + 1
    {
      if numAsRecipient >= rec.Length - 1 {
        return false, 0;
      }
      FreeFlagExists(RecLive(rec[..]));
      ghost var j :| 1 <= j < |RecLive(rec[..])| && !RecLive(rec[..])[j];
      idx := 1;
      while rec[idx].status != RecNone
        invariant 1 <= idx <= j < rec.Length
        invariant forall i :: 1 <= i < idx ==> rec[i].status != RecNone
        decreases j - idx
      {
        assert idx != j;
        idx := idx + 1;
      }
      ok := true;
      numAsRecipient := numAsRecipient + 1;
      rec[idx] := rec[idx].(status := RecUsed);
    }

    /** The table part of BARecSessionAdd: an existing session is kept, else one is opened. */
    method OpenRec(w: nat, t: nat) returns (idx: nat)
      requires Valid() && w < sta.Length && t < NUM_OF_TID
      modifies rec, sta, this`numAsRecipient
      ensures Valid() && ori[..] == old(ori[..])
      ensures idx != 0 ==> RecSlots(sta[..])[w][t] == idx
      ensures var i := RecSlots(old(sta[..]))[w][t];
              if i != 0 then
                && idx == i && rec[..] == old(rec[..]) && numAsRecipient == old(numAsRecipient)
                && sta[..] == old(sta[..])[w := old(sta[w]).(decline := old(sta[w]).decline - {t})]
              else if old(numAsRecipient) >= rec.Length - 1 then
                idx == 0 && rec[..] == old(rec[..]) && sta[..] == old(sta[..]) && numAsRecipient == old(numAsRecipient)
              else
                && 1 <= idx < rec.Length && old(rec[idx]).status == RecNone
                && rec[..] == old(rec[..])[idx := RecSession(Accept, w, t)]
                && sta[..] == old(sta[..])[w := old(sta[w]).(rec := RecSlots(old(sta[..]))[w][t := idx],
                                                            rx := old(sta[w]).rx + {t},
                                                            decline := old(sta[w]).decline - {t})]
                && numAsRecipient == old(numAsRecipient) + 1
    {
      hide OriTable, RecTable, RecSlots, OriSlots, RequestsOk, Linked;
      RecSlotsOf(w);
      ghost var r, s, n := rec[..], sta[..], numAsRecipient;
      idx := sta[w].rec[t];
      if idx == 0 {
        var ok;
        ok, idx := AllocRec();
        if !ok {
          return;
        }
        RecOpened(r, s, n, idx, w, t);
      }
      rec[idx] := RecSession(Accept, w, t);
      var row: seq<nat> := sta[w].rec[t := idx];
      sta[w] := sta[w].(rec := row, rx := sta[w].rx + {t}, decline := sta[w].decline - {t});
      OriUntouched(ori[..], s, sent, numAsOriginator, numDoneOriginator, txLimit, w, sta[w]);
      assert sta[..] == s[w := sta[w]];
      if s[w].rec[t] != 0 {
        assert sta[w].rec == s[w].rec && sta[w].rx == s[w].rx && rec[..] == r;
        RecUntouched(r, s, n, w, sta[w]);
      } else {
        assert rec[..] == r[idx := RecSession(Accept, w, t)];
      }
      RecSlotsOf(w);
    }

    /** The table part of BARecSessionTearDown: the DELBA goes out, then the entry is freed. */
    method Close(i: nat, tell: seq<DelBa>)
      requires Valid() && 1 <= i < rec.Length && rec[i].status == Accept
      modifies rec, sta, this`numAsRecipient, this`delBas
      ensures Valid() && ori[..] == old(ori[..]) && delBas == old(delBas) + tell
      ensures RecReleased(old(rec[..]), old(sta[..]), rec[..], sta[..], i) && numAsRecipient == old(numAsRecipient) - 1
    {
      hide OriTable, RecTable, RequestsOk;
      delBas := delBas + tell;
      CloseRec(i);
    }

    /** The table part of BARecSessionAdd for a TID beyond the slot arrays: with a new entry both
        tables are spoilt, with an old one at least the recipients'. */
    method OpenRecBeyond(w: nat, t: nat) returns (idx: nat)
      requires Valid() && w < sta.Length && NUM_OF_TID <= t < TID_SPACE && ori.Length <= rec.Length
      modifies rec, sta, this`numAsRecipient
      ensures ori[..] == old(ori[..]) && idx < rec.Length
      ensures idx == 0 <==> RecAt(old(sta[w]), t) == 0 && old(numAsRecipient) >= rec.Length - 1
      ensures idx == 0 ==> Valid() && rec[..] == old(rec[..]) && sta[..] == old(sta[..])
      ensures idx != 0 ==>
                && |old(sta[w]).rec| == NUM_OF_TID == |old(sta[w]).ori|
                && rec[..] == RecWritten(old(rec[..]), idx, w, t)
                && sta[..] == old(sta[..])[w := SlotWritten(old(sta[w]), idx, t)]
                && if RecAt(old(sta[w]), t) != 0 then idx == RecAt(old(sta[w]), t) else old(rec[idx]).status == RecNone
      ensures idx != 0 ==> !RecValid() && (RecAt(old(sta[w]), t) == 0 ==> !OriValid())
    {
      hide OriTable, RecTable, RecMarked, RecSlots, OriSlots, RequestsOk, Linked;
      OriSlotsOf(w);
      RecSlotsOf(w);
      ghost var r, s, n := rec[..], sta[..], numAsRecipient;
      idx := RecAt(sta[w], t);
      if idx == 0 {
        var ok;
        ok, idx := AllocRec();
        if !ok {
          return;
        }
        NewSessionTid(ori[..], r, s, sent, numAsOriginator, numDoneOriginator, txLimit, n, idx, w, t);
      } else {
        OldSessionTid(r, s, n, n, w, t);
      }
      rec[idx] := RecSession(Accept, w, t);
      var row: seq<nat> := sta[w].ori[t - NUM_OF_TID := idx];
      sta[w] := sta[w].(ori := row, rx := sta[w].rx + {t}, decline := sta[w].decline - {t});
      assert rec[..] == RecWritten(r, idx, w, t) && sta[..] == s[w := SlotWritten(s[w], idx, t)];
    }

    /** BATableFreeRecEntry on its own, as BARecSessionTearDown calls it when the TID it was given
        is not the entry's. */
    method FreeRecAlone(i: nat)
      requires Valid() && i < rec.Length
      modifies rec, sta, this`numAsRecipient
      ensures ori[..] == old(ori[..])
      ensures old(rec[i]).status == RecNone ==> Valid() && rec[..] == old(rec[..]) && sta[..] == old(sta[..])
      ensures old(rec[i]).status != RecNone ==>
                var w, t := old(rec[i]).wcid, old(rec[i]).tid;
                && w < sta.Length && t < |old(sta[w]).rec|
                && rec[..] == old(rec[..])[i := old(rec[i]).(status := RecNone)]
                && sta[..] == old(sta[..])[w := old(sta[w]).(rec := old(sta[w]).rec[t := 0])]
                && !RecValid()
    {
      ghost var r, s, n := rec[..], sta[..], numAsRecipient;
      if rec[i].status != RecNone {
        FreedAlone(r, s, n, i);
        var w, t := rec[i].wcid, rec[i].tid;
        var row: seq<nat> := sta[w].rec[t := 0];
        sta[w] := sta[w].(rec := row);
        numAsRecipient := numAsRecipient - 1;
        rec[i] := rec[i].(status := RecNone);
        assert rec[..] == r[i := rec[i]] && sta[..] == s[w := sta[w]];
      }
    }

    /** BATableFreeRecEntry after BARecSessionTearDown cleared the bitmap bit. */
    method CloseRec(i: nat)
      requires Valid() && 1 <= i < rec.Length && rec[i].status == Accept
      modifies rec, sta, this`numAsRecipient
      ensures Valid() && ori[..] == old(ori[..])
      ensures RecReleased(old(rec[..]), old(sta[..]), rec[..], sta[..], i) && numAsRecipient == old(numAsRecipient) - 1
    {
      ghost var r, s := rec[..], sta[..];
      RecClosed(r, s, numAsRecipient, i);
      var w, t := rec[i].wcid, rec[i].tid;
      var row: seq<nat> := sta[w].rec[t := 0];
      sta[w] := sta[w].(rec := row, rx := sta[w].rx - {t});
      numAsRecipient := numAsRecipient - 1;
      rec[i] := rec[i].(status := RecNone);
      OriUntouched(ori[..], s, sent, numAsOriginator, numDoneOriginator, txLimit, w, sta[w]);
      assert rec[..] == r[i := rec[i]] && sta[..] == s[w := sta[w]];
    }
  }

  ghost predicate RecReleased(r: seq<RecSession>, s: seq<Station>, r': seq<RecSession>, s': seq<Station>, i: nat)
  {
    && i < |r| && r[i].wcid < |s| && r[i].tid < |s[r[i].wcid].rec|
    && var w, t := r[i].wcid, r[i].tid;
    && r' == r[i := r[i].(status := RecNone)]
    && s' == s[w := s[w].(rec := s[w].rec[t := 0], rx := s[w].rx - {t})]
  }

  /** The session of (w, t) has its request out. */
  predicate Waiting(o: seq<OriEntry>, s: seq<Station>, w: nat, t: nat) {
    w < |s| && t < |s[w].ori| && 0 < s[w].ori[t] < |o| && o[s[w].ori[t]].status == WaitRes
  }

  /** The response completes a waiting session, with the least of the three window limits; it
      changes nothing else, and nothing at all without a waiting session. */
  ghost predicate OriAnswered(o: seq<OriEntry>, s: seq<Station>, o': seq<OriEntry>, s': seq<Station>,
                              chip: Chip, w: nat, t: nat, bufSize: nat) {
    if Waiting(o, s, w, t) then
      var i := s[w].ori[t];
      var win := Min(o[i].winSize, Min(PeerLimit(bufSize), AmpduCap(chip, s[w].peer)));
      o' == o[i := o[i].(status := Done, winSize := win, armed := false)] && s' == s[w := s[w].(tx := s[w].tx + {t})]
    else o' == o && s' == s
  }

  /** Entry i is free, its slot and its bitmap bit are clear, and nothing else differs. */
  ghost predicate OriReleased(o: seq<OriEntry>, s: seq<Station>, o': seq<OriEntry>, s': seq<Station>, i: nat)
  {
    && i < |o| && o[i].wcid < |s| && o[i].tid < |s[o[i].wcid].ori|
    && var w, t := o[i].wcid, o[i].tid;
    && o' == o[i := o[i].(status := OriNone, token := 0, armed := false)]
    && s' == s[w := s[w].(ori := s[w].ori[t := 0], tx := if o[i].status == Done then s[w].tx - {t} else s[w].tx)]
  }

  /** Tables with no live entry and no slot in use are consistent. */
  lemma NoneOpen(ori: seq<OriEntry>, rec: seq<RecSession>, sta: seq<Station>, sent: seq<seq<nat>>, txLimit: nat)
    requires |ori| >= 1 && |rec| >= 1 && |sent| == |ori|
    requires forall i :: 0 <= i < |ori| ==> ori[i].status == OriNone && !ori[i].armed
    requires forall i :: 0 <= i < |rec| ==> rec[i].status == RecNone
    requires forall w :: 0 <= w < |sta| ==>
               sta[w].ori == [0, 0, 0, 0, 0, 0, 0, 0] && sta[w].rec == [0, 0, 0, 0, 0, 0, 0, 0] && sta[w].tx == {}
                 && sta[w].rx == {}
    ensures OriTable(ori, sta, sent, 0, 0, txLimit) && RecTable(rec, sta, 0)
  {
    NoneSet(OriLive(ori));
    NoneSet(OriDone(ori));
    NoneSet(RecLive(rec));
    forall w, t {:trigger OriSlots(sta)[w][t]} | 0 <= w < |sta| && 0 <= t < NUM_OF_TID
      ensures OriSlots(sta)[w][t] == 0 && RecSlots(sta)[w][t] == 0
    {
    }
  }

  /** What tearing down the TIDs below n has made of the station `s` and the entries `o`: `u` and
      `ori`. The originator role may be one TID ahead. */
  ghost predicate TornDown(u: Station, ori: seq<OriEntry>, nOri: nat, nRec: nat, s: Station, o: seq<OriEntry>,
                           memOk: bool) {
    && |s.ori| == |u.ori| == NUM_OF_TID == |s.rec| == |u.rec| && |o| == |ori| && nRec <= nOri <= NUM_OF_TID
    && (forall t :: nOri <= t < NUM_OF_TID ==> u.ori[t] == s.ori[t])
    && (forall t :: nRec <= t < NUM_OF_TID ==> u.rec[t] == s.rec[t])
    && (forall t :: nOri <= t < NUM_OF_TID && 0 < s.ori[t] < |o| ==> ori[s.ori[t]] == o[s.ori[t]])
    && (memOk ==> forall t :: 0 <= t < nOri ==> u.ori[t] == 0)
    && (memOk ==> forall t :: 0 <= t < nRec ==> u.rec[t] == 0)
  }

  lemma TornIs(u: Station, ori: seq<OriEntry>, nOri: nat, nRec: nat, s: Station, o: seq<OriEntry>, memOk: bool)
    requires TornDown(u, ori, nOri, nRec, s, o, memOk)
    ensures |s.ori| == |u.ori| == NUM_OF_TID == |s.rec| == |u.rec| && |o| == |ori|
    ensures nOri < NUM_OF_TID ==>
              u.ori[nOri] == s.ori[nOri] && (0 < s.ori[nOri] < |o| ==> ori[s.ori[nOri]] == o[s.ori[nOri]])
    ensures nRec < NUM_OF_TID ==> u.rec[nRec] == s.rec[nRec]
  {
  }

  /** The slots of station w lead to their own entries. */
  predicate OwnSlots(u: Station, ori: seq<OriEntry>, w: nat) {
    forall t :: 0 <= t < |u.ori| && u.ori[t] != 0 ==>
      u.ori[t] < |ori| && ori[u.ori[t]].wcid == w && ori[u.ori[t]].tid == t
  }

  /** The originator half of one TID. */
  lemma OriTidTorn(ori: seq<OriEntry>, sta: seq<Station>, ori': seq<OriEntry>, sta': seq<Station>, w: nat, t: nat,
                   s: Station, o: seq<OriEntry>, memOk: bool)
    requires w < |sta| == |sta'| && |ori| == |ori'| && t < NUM_OF_TID
             && TornDown(sta[w], ori, t, t, s, o, memOk)
    requires OwnSlots(sta[w], ori, w)
    requires var i := sta[w].ori[t];
             if i == 0 || (ori[i].status == Done && !memOk) then ori' == ori && sta' == sta
             else OriReleased(ori, sta, ori', sta', i)
    ensures TornDown(sta'[w], ori', t + 1, t, s, o, memOk)
    ensures forall v :: 0 <= v < |sta| && v != w ==> sta'[v] == sta[v]
  {
    var i := sta[w].ori[t];
    if i != 0 && !(ori[i].status == Done && !memOk) {
      assert ori[i].wcid == w && ori[i].tid == t;
      forall u | t + 1 <= u < NUM_OF_TID && 0 < s.ori[u] < |o| ensures ori'[s.ori[u]] == o[s.ori[u]] {
        assert sta[w].ori[u] == s.ori[u] && ori[s.ori[u]].tid == u;
      }
    }
  }

  /** The recipient half. */
  lemma RecTidTorn(rec: seq<RecSession>, sta: seq<Station>, rec': seq<RecSession>, sta': seq<Station>,
                   ori: seq<OriEntry>, w: nat, t: nat, s: Station, o: seq<OriEntry>, memOk: bool)
    requires w < |sta| == |sta'| && t < NUM_OF_TID && TornDown(sta[w], ori, t + 1, t, s, o, memOk)
    requires var k := sta[w].rec[t];
             if k == 0 || !memOk then rec' == rec && sta' == sta
             else k < |rec| && rec[k].wcid == w && rec[k].tid == t
                  && RecReleased(rec, sta, rec', sta', k)
    ensures TornDown(sta'[w], ori, t + 1, t + 1, s, o, memOk)
    ensures forall v :: 0 <= v < |sta| && v != w ==> sta'[v] == sta[v]
    ensures |rec'| == |rec| && forall k :: 0 <= k < |rec| ==> rec'[k].wcid == rec[k].wcid
  {
  }

  lemma {:induction false} NoneSet(s: seq<bool>)
    requires forall i :: 0 <= i < |s| ==> !s[i]
    ensures Count(s) == 0
  {
    if s != [] {
      NoneSet(s[..|s| - 1]);
    }
  }
}
