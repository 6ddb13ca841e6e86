/** The cross-linking of a Block Ack table and the per-station slot arrays, for either role:
    entry i belongs to (wcid, tid), and slot (wcid, tid) holds i; slot value 0 means none. */
module BaLinks {

  const NUM_OF_TID := 8

  /** What the linking depends on in a table entry. */
  datatype Owner = Owner(live: bool, wcid: nat, tid: nat)

  ghost predicate Shape(own: seq<Owner>, slots: seq<seq<nat>>) {
    && |own| >= 1 && !own[0].live
    && forall w :: 0 <= w < |slots| ==> |slots[w]| == NUM_OF_TID
  }

  /** A non-zero slot points to a live entry that points back. */
  ghost predicate SlotsPoint(own: seq<Owner>, slots: seq<seq<nat>>)
    requires Shape(own, slots)
  {
    forall w, t :: 0 <= w < |slots| && 0 <= t < NUM_OF_TID && slots[w][t] != 0 ==>
      slots[w][t] < |own| && own[slots[w][t]] == Owner(true, w, t)
  }

  /** A live entry is pointed to by its own slot. */
  ghost predicate EntriesPoint(own: seq<Owner>, slots: seq<seq<nat>>)
    requires Shape(own, slots)
  {
    forall i :: 0 <= i < |own| && own[i].live ==>
      own[i].wcid < |slots| && own[i].tid < NUM_OF_TID && slots[own[i].wcid][own[i].tid] == i
  }

  ghost predicate Linked(own: seq<Owner>, slots: seq<seq<nat>>) {
    Shape(own, slots) && SlotsPoint(own, slots) && EntriesPoint(own, slots)
  }

  function SetSlot(slots: seq<seq<nat>>, w: nat, t: nat, i: nat): seq<seq<nat>>
    requires w < |slots| && t < |slots[w]|
  {
    var row: seq<nat> := slots[w][t := i];
    slots[w := row]
  }

  /** Two live entries never share an owner. */
  lemma OneEntryPerOwner(own: seq<Owner>, slots: seq<seq<nat>>, i: nat, j: nat)
    requires Linked(own, slots) && i < |own| && j < |own| && own[i].live && own[j].live
    ensures i != j ==> (own[i].wcid, own[i].tid) != (own[j].wcid, own[j].tid)
  {
  }

  /** Binding a dead entry to an empty slot. */
  lemma LinkedBind(own: seq<Owner>, slots: seq<seq<nat>>, i: nat, w: nat, t: nat)
    requires Linked(own, slots) && 1 <= i < |own| && !own[i].live
    requires w < |slots| && t < NUM_OF_TID && slots[w][t] == 0
    ensures Linked(own[i := Owner(true, w, t)], SetSlot(slots, w, t, i))
  {
  }

  /** Freeing a live entry clears exactly its own slot. */
  lemma LinkedFree(own: seq<Owner>, slots: seq<seq<nat>>, i: nat)
    requires Linked(own, slots) && i < |own| && own[i].live
    ensures Linked(own[i := own[i].(live := false)], SetSlot(slots, own[i].wcid, own[i].tid, 0))
  {
    var own', slots' := own[i := own[i].(live := false)], SetSlot(slots, own[i].wcid, own[i].tid, 0);
    assert Shape(own', slots');
    forall w, t | 0 <= w < |slots'| && 0 <= t < NUM_OF_TID && slots'[w][t] != 0
      ensures slots'[w][t] < |own'| && own'[slots'[w][t]] == Owner(true, w, t)
    {
      assert slots'[w][t] == slots[w][t];
    }
  }

  // ---------------------------------------------------------------- counting

  /** How many of the flags are set. */
  function Count(s: seq<bool>): (n: nat)
    ensures n <= |s|
  {
    if s == [] then 0 else (if s[|s| - 1] then 1 else 0) + Count(s[..|s| - 1])
  }

  lemma {:induction false} CountUpdate(s: seq<bool>, i: nat, b: bool)
    requires i < |s|
    ensures Count(s[i := b]) == Count(s) + (if b then 1 else 0) - (if s[i] then 1 else 0)
  {
    var n := |s| - 1;
    if i < n {
      CountUpdate(s[..n], i, b);
      assert s[i := b][..n] == s[..n][i := b];
    } else {
      assert s[i := b][..n] == s[..n];
    }
  }

  /** The pigeonhole behind the allocators: with slot 0 reserved and fewer than |s| - 1 flags
      set, some later flag is clear. */
  lemma {:induction false} CountAllSet(s: seq<bool>, k: nat)
    requires 1 <= k <= |s| && forall i :: 1 <= i < k ==> s[i]
    ensures Count(s[..k]) >= k - 1
  {
    assert s[..k][..k - 1] == s[..k - 1];
    if k > 1 {
      CountAllSet(s, k - 1);
    }
  }

  lemma FreeFlagExists(s: seq<bool>)
    requires |s| >= 1 && Count(s) < |s| - 1
    ensures exists i :: 1 <= i < |s| && !s[i]
  {
    assert s[..|s|] == s;
    if forall i :: 1 <= i < |s| ==> s[i] {
      CountAllSet(s, |s|);
    }
  }

  // ---------------------------------------------------------------- the bijection

  ghost function LiveEntries(own: seq<Owner>): set<nat> {
    set i | 0 <= i < |own| && own[i].live :: i
  }

  ghost function SlotsOf(own: seq<Owner>, s: set<nat>): set<(nat, nat)>
    requires forall i :: i in s ==> i < |own|
  {
    set i | i in s :: (own[i].wcid, own[i].tid)
  }

  ghost function UsedSlots(slots: seq<seq<nat>>): set<(nat, nat)>
    requires forall w :: 0 <= w < |slots| ==> |slots[w]| == NUM_OF_TID
  {
    set w: nat, t: nat | w < |slots| && t < NUM_OF_TID && slots[w][t] != 0 :: (w, t)
  }

  lemma {:induction false} DifferentSlots(own: seq<Owner>, slots: seq<seq<nat>>, s: set<nat>)
    requires Linked(own, slots) && s <= LiveEntries(own)
    ensures |SlotsOf(own, s)| == |s|
  {
    if s != {} {
      var i :| i in s;
      var rest := s - {i};
      DifferentSlots(own, slots, rest);
      var mine := (own[i].wcid, own[i].tid);
      forall j | j in rest ensures (own[j].wcid, own[j].tid) != mine {
        OneEntryPerOwner(own, slots, i, j);
      }
      assert SlotsOf(own, s) == SlotsOf(own, rest) + {mine};
    }
  }

  function Flags(own: seq<Owner>): seq<bool> {
    seq(|own|, i requires 0 <= i < |own| => own[i].live)
  }

  lemma {:induction false} CountLive(own: seq<Owner>)
    ensures Count(Flags(own)) == |LiveEntries(own)|
  {
    if own != [] {
      var n := |own| - 1;
      CountLive(own[..n]);
      assert Flags(own)[..n] == Flags(own[..n]);
      assert LiveEntries(own) == LiveEntries(own[..n]) + if own[n].live then {n} else {};
    }
  }

  /** Live entries and used slots correspond one to one, and the counter counts either. */
  lemma Bijection(own: seq<Owner>, slots: seq<seq<nat>>)
    requires Linked(own, slots)
    ensures UsedSlots(slots) == SlotsOf(own, LiveEntries(own))
    ensures |UsedSlots(slots)| == |LiveEntries(own)| == Count(Flags(own))
  {
    forall w: nat, t: nat | (w, t) in UsedSlots(slots) ensures (w, t) in SlotsOf(own, LiveEntries(own)) {
      assert slots[w][t] in LiveEntries(own);
    }
    DifferentSlots(own, slots, LiveEntries(own));
    CountLive(own);
  }
}
