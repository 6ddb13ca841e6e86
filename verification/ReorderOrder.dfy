/** The order in which the integer machine of ReorderModel announces packets. */
module ReorderOrder {
  import opened SeqNum
  import opened ReorderSpec
  import opened ReorderModel

  /** b may be announced after a: numbers grow within a stretch between two resets. A number
      may come again only if it is the start of the stretch's last BlockAckReq, or if the
      second packet bypassed the list. */
  predicate MayFollow(a: Announcement, b: Announcement) {
    || a.epoch < b.epoch
    || (a.epoch == b.epoch && a.num < b.num)
    || (a.epoch == b.epoch && a.num == b.num && (b.bypass || b.bar == Some(b.num)))
  }

  /** Each announcement is labelled with an integer that its packet's number is the image of. */
  ghost predicate Ordered(out: seq<Announcement>) {
    && (forall i :: 0 <= i < |out| ==> Mask(out[i].num) == out[i].pkt.seqno)
    && (forall i, j :: 0 <= i < j < |out| ==> MayFollow(out[i], out[j]))
  }

  ghost predicate Stamped(q: map<int, Packet>) {
    forall k :: k in q ==> q[k].seqno == Mask(k)
  }

  /** Nothing announced in the current stretch has a number above n. */
  ghost predicate Below(m: Machine, n: int) {
    forall i :: 0 <= i < |m.out| ==> m.out[i].epoch < m.epoch || (m.out[i].epoch == m.epoch && m.out[i].num <= n)
  }

  ghost predicate Past(m: Machine) {
    forall i :: 0 <= i < |m.out| ==> m.out[i].epoch < m.epoch
  }

  /** Everything announced is at or before `last`; only a BlockAckReq steps back by one. */
  ghost predicate InOrderSoFar(m: Machine) {
    && Ordered(m.out)
    && (!m.active ==> Past(m))
    && (m.active ==> Below(m, m.last) || (m.bar == Some(m.last + 1) && Below(m, m.last + 1)))
  }

  ghost predicate Gap(m: Machine) {
    Stamped(m.q) && forall k :: k in m.q ==> k >= m.last + 2
  }

  lemma OrderAnnounced(m: Machine, n: int, p: Packet, bypass: bool)
    requires Ordered(m.out) && p.seqno == Mask(n)
    requires Below(m, n - 1) || (Below(m, n) && (bypass || m.bar == Some(n)))
    ensures Ordered(Announced(m, n, p, bypass).out) && Below(Announced(m, n, p, bypass), n)
  {
  }

  lemma {:induction false} OrderEmit(m: Machine, lo: int, n: int)
    requires Ordered(m.out) && Stamped(m.q) && Below(m, lo - 1)
    ensures var m' := EmitRange(m, lo, n);
            && Ordered(m'.out) && Below(m', if n >= lo then n else lo - 1) && SameBut(m, m') && Stamped(m'.q)
    decreases n - lo
  {
    hide Ordered;
    if lo <= n {
      if lo in m.q {
        var m1 := Announced(m, lo, m.q[lo], false).(q := m.q - {lo});
        OrderAnnounced(m, lo, m.q[lo], false);
        OrderEmit(m1, lo + 1, n);
      } else {
        OrderEmit(m, lo + 1, n);
      }
    }
  }

  /** Emitting a queue that leaves a gap after `last` never repeats a number. */
  lemma OrderEmitTo(m: Machine, n: int)
    requires InOrderSoFar(m) && m.active && Gap(m) && n >= m.last + 1
    ensures var m' := EmitTo(m, n); Ordered(m'.out) && Below(m', n) && SameBut(m, m') && Stamped(m'.q)
  {
    hide Ordered;
    assert EmitRange(m, m.last + 1, n) == EmitRange(m, m.last + 2, n);
    OrderEmit(m, m.last + 2, n);
  }

  lemma {:induction false} OrderAdvance(m: Machine)
    requires Ordered(m.out) && Stamped(m.q) && Below(m, m.last) && m.active
    ensures InOrderSoFar(Advance(m)) && Advance(m).active
    decreases |m.q|
  {
    hide Ordered;
    var n := m.last + 1;
    if n in m.q {
      OrderAnnounced(m, n, m.q[n], false);
      OrderAdvance(Announced(m, n, m.q[n], false).(q := m.q - {n}, last := n));
    }
  }

  lemma OrderRestart(m: Machine)
    requires InOrderSoFar(m) && Gap(m) && 1 <= m.win && (!m.active ==> m.q == map[])
    ensures InOrderSoFar(Restart(m))
  {
    hide Ordered, EmitRange;
    if m.active {
      OrderEmitTo(m, m.last + m.win);
    } else {
      EmitNothing(m, m.last + 1, m.last + m.win);
    }
  }

  lemma OrderExpire(m: Machine, f: Flush)
    requires InOrderSoFar(m) && Gap(m) && 1 <= m.win && (!m.active ==> m.q == map[] && f == FlushNone)
    ensures InOrderSoFar(Expire(m, f))
  {
    hide Ordered, EmitRange;
    match f
    case FlushNone =>
    case FlushOne =>
      OrderEmitTo(m, m.last + 1);
      OrderAdvance(EmitTo(m, m.last + 1).(last := m.last + 1));
    case FlushAll => OrderRestart(m);
  }

  lemma OrderStore(m: Machine, n: int, p: Packet, granted: bool)
    requires InOrderSoFar(m) && m.active && n >= m.last + 1 && p.seqno == Mask(n) && Stamped(m.q)
    requires Below(m, m.last) || Gap(m)
    ensures InOrderSoFar(Store(m, n, p, granted)) && Store(m, n, p, granted).active
    ensures Below(m, m.last) ==> Below(Store(m, n, p, granted), Store(m, n, p, granted).last)
    ensures Stamped(Store(m, n, p, granted).q)
  {
    hide Ordered, EmitRange;
    if !granted {
      if Below(m, m.last) {
        OrderEmit(m, m.last + 1, n);
      } else {
        OrderEmitTo(m, n);
      }
      OrderAnnounced(EmitTo(m, n).(last := n), n, p, true);
    }
  }

  lemma OrderAccept(m: Machine, p: Packet, granted: bool)
    requires InOrderSoFar(m) && Gap(m) && 1 <= m.win
    ensures InOrderSoFar(Accept(m, p, granted))
  {
    hide Ordered, EmitRange, Offset, Mask, Advance, EmitTo, Store;
    if !m.active {
      MaskSmall(p.seqno);
      OrderAnnounced(m.(active := true, last := p.seqno), p.seqno, p, false);
    } else {
      var d := Offset(p.seqno, Mask(m.last));
      var n := m.last + d;
      Unwrap(p.seqno, m.last);
      if d == 1 {
        OrderAnnounced(m, n, p, false);
        OrderAdvance(Announced(m, n, p, false).(last := n));
      } else if 2 <= d <= m.win {
        OrderStore(m, n, p, granted);
      } else if 2 <= d < 2048 {
        OrderEmitTo(m, n - m.win);
        var m1 := EmitTo(m, n - m.win).(last := n - m.win);
        OrderStore(m1, n, p, granted);
        OrderAdvance(Store(m1, n, p, granted));
      }
    }
  }

  lemma OrderMoveTo(m: Machine, start: Seq12)
    requires InOrderSoFar(m) && Gap(m)
    ensures InOrderSoFar(MoveTo(m, start))
  {
    hide Ordered, EmitRange, Offset, Mask, EmitTo;
    if m.active {
      var d := Offset(start, Mask(m.last));
      if 1 <= d <= 2048 {
        OrderEmitTo(m, m.last + d);
      }
    }
  }
}
