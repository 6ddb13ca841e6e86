/** The PMKID cache of one BSS (ap/ap_wpa.c): a fixed array of slots that behaves as a bounded
    map from station address to key. */
module PmkidCache {
  import opened Basics

  type Mac = n: nat | n < 0x1_0000_0000_0000

  datatype Key = Key(pmkid: nat, pmk: nat)
  datatype Slot = Slot(valid: bool, refreshTime: nat, mac: Mac, key: Key)
  datatype Found = NotFound | Found(key: Key)

  /** The slot that RTMPSearchPMKIDCache stops at, or -1. */
  function Find(s: seq<Slot>, mac: Mac): (i: int)
    ensures -1 <= i < |s|
    ensures i >= 0 ==> s[i].valid && s[i].mac == mac
    ensures forall k :: 0 <= k < (if i >= 0 then i else |s|) ==> !(s[k].valid && s[k].mac == mac)
  {
    if s == [] then -1
    else if s[0].valid && s[0].mac == mac then 0
    else
      var r := Find(s[1..], mac);
      assert forall k :: 1 <= k < |s| ==> s[k] == s[1..][k - 1];
      if r < 0 then -1 else r + 1
  }

  /** The cache as a map. */
  function Lookup(s: seq<Slot>, mac: Mac): Found {
    var i := Find(s, mac);
    if i < 0 then NotFound else Found(s[i].key)
  }

  ghost predicate Full(s: seq<Slot>) {
    forall i :: 0 <= i < |s| ==> s[i].valid
  }

  /** At most one valid slot per address. */
  ghost predicate Unique(s: seq<Slot>) {
    forall i, j :: 0 <= i < j < |s| && s[i].valid && s[j].valid ==> s[i].mac != s[j].mac
  }

  lemma LookupIs(s: seq<Slot>, i: nat)
    requires Unique(s) && i < |s| && s[i].valid
    ensures Find(s, s[i].mac) == i && Lookup(s, s[i].mac) == Found(s[i].key)
  {
    var j := Find(s, s[i].mac);
  }

  /** Rewriting slot i with an address no other valid slot has: that address gets the key, the
      slot's former address (if it was in use) is gone, and every other address is as before. */
  lemma LookupAfter(s: seq<Slot>, i: nat, x: Slot, m: Mac)
    requires Unique(s) && i < |s|
    requires x.valid ==> forall j :: 0 <= j < |s| && j != i && s[j].valid ==> s[j].mac != x.mac
    ensures Unique(s[i := x])
    ensures x.valid && m == x.mac ==> Lookup(s[i := x], m) == Found(x.key)
    ensures !(x.valid && m == x.mac) && s[i].valid && m == s[i].mac ==> Lookup(s[i := x], m) == NotFound
    ensures !(x.valid && m == x.mac) && !(s[i].valid && m == s[i].mac) ==> Lookup(s[i := x], m) == Lookup(s, m)
  {
    var s' := s[i := x];
    assert Unique(s');
    var j, k := Find(s, m), Find(s', m);
    if x.valid && m == x.mac {
      LookupIs(s', i);
    } else if j >= 0 && j != i {
      assert s'[j] == s[j];
      LookupIs(s', j);
    }
  }

  class Cache {
    const slots: array<Slot>

    ghost predicate Valid()
      reads slots
    {
      slots.Length >= 1 && Unique(slots[..])
    }

    constructor (n: nat)
      requires n >= 1
      ensures Valid() && slots.Length == n && fresh(slots) && forall m :: Lookup(slots[..], m) == NotFound
    {
      slots := new Slot[n](_ => Slot(false, 0, 0, Key(0, 0)));
    }

    /** RTMPSearchPMKIDCache */
    method Search(mac: Mac) returns (i: int)
      ensures -1 <= i < slots.Length
      ensures i >= 0 ==> slots[i].valid && slots[i].mac == mac && Lookup(slots[..], mac) == Found(slots[i].key)
      ensures i < 0 <==> Lookup(slots[..], mac) == NotFound
      ensures i < 0 ==> forall k :: 0 <= k < slots.Length && slots[k].valid ==> slots[k].mac != mac
    {
      i := 0;
      while i < slots.Length && !(slots[i].valid && slots[i].mac == mac)
        invariant 0 <= i <= slots.Length
        invariant forall k :: 0 <= k < i ==> !(slots[k].valid && slots[k].mac == mac)
      {
        i := i + 1;
      }
      ghost var f := Find(slots[..], mac);
      if i == slots.Length {
        i := -1;
      }
    }

    /** RTMPAddPMKIDCache; `idx` is the slot it writes. */
    method Add(mac: Mac, key: Key, now: nat) returns (ghost idx: nat)
      requires Valid()
      modifies slots
      ensures Valid() && Lookup(slots[..], mac) == Found(key)
      ensures idx < slots.Length && slots[..] == old(slots[..])[idx := Slot(true, now, mac, key)]
      ensures Lookup(old(slots[..]), mac) != NotFound ==> idx == Find(old(slots[..]), mac)
      ensures Lookup(old(slots[..]), mac) == NotFound && !Full(old(slots[..])) ==>
                !old(slots[idx]).valid && forall k :: 0 <= k < idx ==> old(slots[k]).valid
      ensures !Full(old(slots[..])) || Lookup(old(slots[..]), mac) != NotFound ==>
                forall m: Mac :: m != mac ==> Lookup(slots[..], m) == Lookup(old(slots[..]), m)
      ensures Full(old(slots[..])) && Lookup(old(slots[..]), mac) == NotFound ==>
                && Newest(old(slots[..]), idx)
                && var v := old(slots[idx]).mac;
                v != mac && Lookup(old(slots[..]), v) != NotFound && Lookup(slots[..], v) == NotFound
                && (forall m: Mac :: m != mac && m != v ==> Lookup(slots[..], m) == Lookup(old(slots[..]), m))
    {
      ghost var s := slots[..];
      var i := Search(mac);
      if i != -1 {
        slots[i] := slots[i].(refreshTime := now, key := key);
        idx := i;
        assert slots[..] == s[i := slots[i]];
        LookupIs(s, i);
        LookupAfterAll(s, i, slots[i]);
        return;
      }
      i := 0;
      while i < slots.Length && slots[i].valid
        invariant 0 <= i <= slots.Length
        invariant forall k :: 0 <= k < i ==> slots[k].valid
      {
        i := i + 1;
      }
      if i == slots.Length {
        i := Choose();
        LookupIs(s, i);
      }
      idx := i;
      slots[i] := Slot(true, now, mac, key);
      assert slots[..] == s[i := slots[i]];
      LookupAfterAll(s, i, slots[i]);
    }

    /** The victim when the cache is full. */
    method Choose() returns (idx: nat)
      requires slots.Length >= 1 && Full(slots[..])
      ensures idx < slots.Length && Newest(slots[..], idx)
    {
      var timestamp, i := 0, 0;
      idx := 0;
      while i < slots.Length
        invariant 0 <= i <= slots.Length && idx < slots.Length
        invariant i == 0 ==> timestamp == 0 && idx == 0
        invariant i > 0 ==> idx < i && timestamp == slots[idx].refreshTime
        invariant i > 0 && idx == 0 ==> i == 1 || timestamp > 0
        invariant i > 0 && timestamp == 0 ==> slots[0].refreshTime == 0 && idx <= 1 && (idx == 0 ==> i == 1)
        invariant i > 0 && timestamp > 0 ==>
                    && (forall k :: 0 <= k < i ==> slots[k].refreshTime <= timestamp)
                    && (forall k :: 0 <= k < idx ==> slots[k].refreshTime < timestamp)
                    && (slots[0].refreshTime > 0 || (slots.Length > 1 && slots[1].refreshTime > 0))
      {
        if slots[i].valid {
          if (timestamp == 0 && idx == 0) || (timestamp != 0 && timestamp < slots[i].refreshTime) {
            timestamp := slots[i].refreshTime;
            idx := i;
          }
        }
        i := i + 1;
      }
    }

    lemma LookupAfterAll(s: seq<Slot>, i: nat, x: Slot)
      requires Unique(s) && i < |s|
      requires x.valid ==> forall j :: 0 <= j < |s| && j != i && s[j].valid ==> s[j].mac != x.mac
      ensures Unique(s[i := x])
      ensures x.valid ==> Lookup(s[i := x], x.mac) == Found(x.key)
      ensures s[i].valid && !(x.valid && s[i].mac == x.mac) ==> Lookup(s[i := x], s[i].mac) == NotFound
      ensures forall m: Mac :: !(x.valid && m == x.mac) && !(s[i].valid && m == s[i].mac) ==>
                Lookup(s[i := x], m) == Lookup(s, m)
    {
      LookupAfter(s, i, x, x.mac);
      LookupAfter(s, i, x, s[i].mac);
      forall m: Mac | !(x.valid && m == x.mac) && !(s[i].valid && m == s[i].mac)
        ensures Lookup(s[i := x], m) == Lookup(s, m)
      {
        LookupAfter(s, i, x, m);
      }
    }

    /** RTMPDeletePMKIDCache */
    method Delete(i: nat)
      requires Valid() && i < slots.Length
      modifies slots
      ensures Valid() && slots[..] == old(slots[..])[i := old(slots[i]).(valid := false)]
      ensures old(slots[i]).valid ==> Lookup(slots[..], old(slots[i]).mac) == NotFound
      ensures forall m: Mac :: !(old(slots[i]).valid && m == old(slots[i]).mac) ==>
                Lookup(slots[..], m) == Lookup(old(slots[..]), m)
    {
      ghost var s := slots[..];
      if slots[i].valid {
        slots[i] := slots[i].(valid := false);
      }
      assert slots[..] == s[i := s[i].(valid := false)];
      LookupAfterAll(s, i, s[i].(valid := false));
    }

    /** The inner loop of RTMPMaintainPMKIDCache: exactly the expired entries disappear. The clock is
        read anew for every slot. */
    method Maintain(clock: seq<nat>, period: nat)
      requires Valid() && |clock| == slots.Length
      modifies slots
      ensures Valid() && Maintained(old(slots[..]), slots[..], clock, period)
      ensures Aged(old(slots[..]), slots[..], clock, period)
    {
      var j := 0;
      while j < slots.Length
        invariant 0 <= j <= slots.Length && Valid()
        invariant forall i :: 0 <= i < j ==> slots[i] == Expired(old(slots[i]), clock[i], period)
        invariant forall i :: j <= i < slots.Length ==> slots[i] == old(slots[i])
      {
        if slots[j].valid && TimeAfter(clock[j], slots[j].refreshTime + period) {
          Delete(j);
        }
        j := j + 1;
      }
      AgedIs(old(slots[..]), slots[..], clock, period);
    }
  }

  /** The same in elapsed time: a slot in use stays so exactly if no more ticks than the period have
      gone by since its refresh, and nothing else about a slot changes. */
  ghost predicate Aged(before: seq<Slot>, after: seq<Slot>, clock: seq<nat>, period: nat) {
    && |before| == |after| == |clock|
    && forall i :: 0 <= i < |before| ==>
         && after[i] == before[i].(valid := after[i].valid)
         && (!before[i].valid ==> !after[i].valid)
         && var elapsed := (clock[i] - before[i].refreshTime) % 0x1_0000_0000_0000_0000;
         (before[i].valid && period < 0x4000_0000_0000_0000 && elapsed <= 0x8000_0000_0000_0000 ==>
           (after[i].valid <==> elapsed <= period))
  }

  lemma AgedIs(before: seq<Slot>, after: seq<Slot>, clock: seq<nat>, period: nat)
    requires Maintained(before, after, clock, period)
    ensures Aged(before, after, clock, period)
  {
    hide TimeAfter;
    forall i | 0 <= i < |before| && period < 0x4000_0000_0000_0000
                 && (clock[i] - before[i].refreshTime) % 0x1_0000_0000_0000_0000 <= 0x8000_0000_0000_0000
      ensures TimeAfter(clock[i], before[i].refreshTime + period) <==>
              (clock[i] - before[i].refreshTime) % 0x1_0000_0000_0000_0000 > period
    {
      AfterMeans(clock[i], before[i].refreshTime, period);
    }
  }

  /** A slot after its turn. */
  function Expired(s: Slot, now: nat, period: nat): Slot {
    s.(valid := s.valid && !TimeAfter(now, s.refreshTime + period))
  }

  ghost predicate Maintained(before: seq<Slot>, after: seq<Slot>, clock: seq<nat>, period: nat) {
    && |before| == |after| == |clock|
    && forall i :: 0 <= i < |before| ==> after[i] == Expired(before[i], clock[i], period)
  }

  /** RTMPMaintainPMKIDCache: every BSS with its own period. */
  method MaintainAll(bss: seq<Cache>, periods: seq<nat>, clocks: seq<seq<nat>>)
    requires |bss| == |periods| == |clocks|
    requires forall b :: 0 <= b < |bss| ==> bss[b].Valid() && |clocks[b]| == bss[b].slots.Length
    requires forall b, d :: 0 <= b < d < |bss| ==> bss[b].slots != bss[d].slots
    modifies set b | 0 <= b < |bss| :: bss[b].slots
    ensures forall b :: 0 <= b < |bss| ==>
              && bss[b].Valid() && Maintained(old(bss[b].slots[..]), bss[b].slots[..], clocks[b], periods[b])
              && Aged(old(bss[b].slots[..]), bss[b].slots[..], clocks[b], periods[b])
  {
    hide Maintained, Unique, Aged;
    var i := 0;
    while i < |bss|
      invariant 0 <= i <= |bss|
      invariant forall b :: 0 <= b < |bss| ==> bss[b].Valid()
      invariant forall b :: 0 <= b < i ==>
                  && Maintained(old(bss[b].slots[..]), bss[b].slots[..], clocks[b], periods[b])
                  && Aged(old(bss[b].slots[..]), bss[b].slots[..], clocks[b], periods[b])
      invariant forall b :: i <= b < |bss| ==> bss[b].slots[..] == old(bss[b].slots[..])
    {
      bss[i].Maintain(clocks[i], periods[i]);
      i := i + 1;
    }
  }

  /** Slot v is the first of those refreshed last.  Refresh times of zero confuse the loop: if
      slot 0 has one, slot 1 stands in for it, and if that has one too it is taken outright. */
  ghost predicate Newest(s: seq<Slot>, v: nat)
    requires |s| >= 1
  {
    && v < |s|
    && var first := if s[0].refreshTime > 0 || |s| == 1 then 0 else 1;
    if s[first].refreshTime == 0 then v == first
    else
      && (forall k :: 0 <= k < |s| ==> s[k].refreshTime <= s[v].refreshTime)
      && (forall k :: 0 <= k < v ==> s[k].refreshTime < s[v].refreshTime)
  }
}
