/** The 20/40 BSS intolerant channel report that BuildIntolerantChannelRep (common/action.c) makes
    of the trigger event table, against a parser of the element of IEEE Std 802.11-2012,
    section 8.4.2.60. */
module IntolerantReport {

  import opened Basics

  const MAX_TRIGGER_EVENT := 64
  const IE_2040_BSS_INTOLERANT_REPORT := 73
  const REG_CLASSES: seq<u8> := [0, 11, 12, 32, 33, 54, 55]

  datatype Event = Event(valid: bool, regClass: u8, channel: nat)
  datatype Parsed = Malformed | Pairs(list: seq<(u8, u8)>)

  /** A receiver's list of (regulatory class, channel) pairs. */
  function Parse(s: seq<u8>): Parsed {
    if s == [] then Pairs([])
    else if |s| < 3 || s[0] != 73 || s[1] == 0 || 2 + s[1] as int > |s| then Malformed
    else
      var end := 2 + s[1] as int;
      var r := Parse(s[end..]);
      if r.Malformed? then Malformed else Pairs(Tagged(s[2], s[3..end]) + r.list)
  }

  function Tagged(c: u8, chs: seq<u8>): (r: seq<(u8, u8)>)
    ensures |r| == |chs| && forall i :: 0 <= i < |chs| ==> r[i] == (c, chs[i])
  {
    seq(|chs|, i requires 0 <= i < |chs| => (c, chs[i]))
  }

  function Low8(n: nat): u8 { n % 256 }

  predicate Tells(e: Event, c: u8, ch: u8) { e.valid && e.regClass == c && e.channel % 256 == ch }

  /** The channels of class c, each once, in the order of their first event. */
  function Channels(es: seq<Event>, c: u8): (r: seq<u8>)
    ensures |r| <= |es|
  {
    if es == [] then []
    else
      var n := |es| - 1;
      var r := Channels(es[..n], c);
      if es[n].valid && es[n].regClass == c && Low8(es[n].channel) !in r then r + [Low8(es[n].channel)] else r
  }

  function Element(c: u8, chs: seq<u8>): (r: seq<u8>)
    requires |chs| < 255
    ensures |r| == if chs == [] then 0 else 3 + |chs|
  {
    if chs == [] then [] else [IE_2040_BSS_INTOLERANT_REPORT, 1 + |chs|, c] + chs
  }

  function Report(es: seq<Event>, cs: seq<u8>): seq<u8>
    requires |es| <= MAX_TRIGGER_EVENT
  {
    if cs == [] then []
    else Report(es, cs[..|cs| - 1]) + Element(cs[|cs| - 1], Channels(es, cs[|cs| - 1]))
  }

  function Told(es: seq<Event>, cs: seq<u8>): seq<(u8, u8)> {
    if cs == [] then []
    else Told(es, cs[..|cs| - 1]) + Tagged(cs[|cs| - 1], Channels(es, cs[|cs| - 1]))
  }

  lemma {:induction false} ChannelsAre(es: seq<Event>, c: u8)
    ensures Distinct(Channels(es, c))
    ensures forall ch: u8 :: ch in Channels(es, c) <==> exists i :: 0 <= i < |es| && Tells(es[i], c, ch)
  {
    if es != [] {
      var n := |es| - 1;
      ChannelsAre(es[..n], c);
      forall ch: u8
        ensures ch in Channels(es, c) <==> exists i :: 0 <= i < |es| && Tells(es[i], c, ch)
      {
        var before := Channels(es[..n], c);
        if ch in before {
          var i :| 0 <= i < |es[..n]| && Tells(es[..n][i], c, ch);
          assert Tells(es[i], c, ch);
        }
        if i :| 0 <= i < |es| && Tells(es[i], c, ch) {
          if i < n { assert Tells(es[..n][i], c, ch); }
        }
      }
    }
  }

  predicate Starts(s: seq<u8>) {
    |s| >= 3 && s[0] == 73 && s[1] != 0 && 2 + s[1] as int <= |s|
  }

  lemma ParseFirst(s: seq<u8>)
    requires s != []
    ensures Parse(s).Pairs? ==> Starts(s)
    ensures Starts(s) ==>
              var end := 2 + s[1] as int;
              var r := Parse(s[end..]);
              Parse(s) == if r.Malformed? then Malformed else Pairs(Tagged(s[2], s[3..end]) + r.list)
  {
    hide Tagged;
  }

  lemma {:induction false} ParseAppend(s: seq<u8>, t: seq<u8>)
    requires Parse(s).Pairs? && Parse(t).Pairs?
    ensures Parse(s + t) == Pairs(Parse(s).list + Parse(t).list)
    decreases |s|
  {
    if s == [] {
      assert s + t == t;
    } else {
      AppendAfter(s, t);
    }
  }

  lemma {:induction false} AppendAfter(s: seq<u8>, t: seq<u8>)
    requires s != [] && Parse(s).Pairs? && Parse(t).Pairs?
    ensures Parse(s + t) == Pairs(Parse(s).list + Parse(t).list)
    decreases |s|, 0
  {
    hide Parse, Tagged;
    var st := s + t;
    ParseFirst(s);
    ParseFirst(st);
    var end := 2 + s[1] as int;
    assert st[..end] == s[..end] && st[end..] == s[end..] + t;
    assert st[3..end] == s[3..end];
    ParseAppend(s[end..], t);
    var a, b, c := Tagged(s[2], s[3..end]), Parse(s[end..]).list, Parse(t).list;
    assert a + b + c == a + (b + c);
  }

  lemma ParseElement(c: u8, chs: seq<u8>)
    requires |chs| < 255
    ensures Parse(Element(c, chs)) == Pairs(Tagged(c, chs))
  {
    if chs != [] {
      var e := Element(c, chs);
      assert e[3..] == chs && e[|e|..] == [];
      assert Parse(e[|e|..]) == Pairs([]);
      assert Tagged(c, chs) + [] == Tagged(c, chs);
    }
  }

  lemma {:induction false} ParseReport(es: seq<Event>, cs: seq<u8>)
    requires |es| <= MAX_TRIGGER_EVENT
    ensures Parse(Report(es, cs)) == Pairs(Told(es, cs))
  {
    if cs != [] {
      var n := |cs| - 1;
      ParseReport(es, cs[..n]);
      ParseElement(cs[n], Channels(es, cs[n]));
      ParseAppend(Report(es, cs[..n]), Element(cs[n], Channels(es, cs[n])));
    }
  }

  lemma {:induction false} ToldAre(es: seq<Event>, cs: seq<u8>)
    requires Distinct(cs)
    ensures Distinct(Told(es, cs))
    ensures forall c: u8, ch: u8 ::
              (c, ch) in Told(es, cs) <==> c in cs && exists i :: 0 <= i < |es| && Tells(es[i], c, ch)
  {
    if cs != [] {
      var n := |cs| - 1;
      var c, before := cs[n], Told(es, cs[..n]);
      ToldAre(es, cs[..n]);
      ChannelsAre(es, c);
      var now := Tagged(c, Channels(es, c));
      assert c !in cs[..n];
      forall i, j | 0 <= i < |before| && 0 <= j < |now| ensures before[i] != now[j] {
        assert (before[i].0, before[i].1) in before;
      }
      forall d: u8, ch: u8
        ensures (d, ch) in Told(es, cs) <==> d in cs && exists i :: 0 <= i < |es| && Tells(es[i], d, ch)
      {
        assert (d, ch) in now <==> d == c && ch in Channels(es, c) by {
          if ch in Channels(es, c) {
            var k :| 0 <= k < |Channels(es, c)| && Channels(es, c)[k] == ch;
            assert now[k] == (c, ch);
          }
        }
        assert d in cs <==> d in cs[..n] || d == c;
      }
    }
  }

  /** The round trip: a receiver of the report learns exactly the pairs of the valid events whose
      class is listed, each once. */
  lemma RoundTrip(es: seq<Event>)
    requires |es| <= MAX_TRIGGER_EVENT
    ensures var r := Parse(Report(es, REG_CLASSES));
            && r.Pairs? && Distinct(r.list)
            && forall c: u8, ch: u8 ::
                 (c, ch) in r.list <==>
                   c in [0, 11, 12, 32, 33, 54, 55] && exists i :: 0 <= i < |es| && Tells(es[i], c, ch)
  {
    hide Parse, Report, Told, Tells;
    var cs := REG_CLASSES;
    assert Distinct(cs);
    ParseReport(es, cs);
    ToldAre(es, cs);
  }

  /** How many events have one of the classes. */
  function Having(es: seq<Event>, cs: seq<u8>): (n: nat)
    ensures n <= |es|
  {
    if es == [] then 0
    else Having(es[..|es| - 1], cs) + if es[|es| - 1].regClass in cs then 1 else 0
  }

  lemma {:induction false} HavingSplit(es: seq<Event>, cs: seq<u8>, c: u8)
    requires c !in cs
    ensures Having(es, cs + [c]) >= Having(es, cs) + |Channels(es, c)|
  {
    if es != [] {
      HavingSplit(es[..|es| - 1], cs, c);
    }
  }

  /** Room for 3 octets a class and one an event is enough. */
  lemma {:induction false} ReportFits(es: seq<Event>, cs: seq<u8>)
    requires |es| <= MAX_TRIGGER_EVENT && Distinct(cs)
    ensures |Report(es, cs)| <= 3 * |cs| + Having(es, cs)
  {
    if cs != [] {
      var n := |cs| - 1;
      ReportFits(es, cs[..n]);
      assert cs[n] !in cs[..n] && cs[..n] + [cs[n]] == cs;
      HavingSplit(es, cs[..n], cs[n]);
    }
  }

  /** The table once the classes cs are reported. */
  function Spent(es: seq<Event>, cs: seq<u8>): (r: seq<Event>)
    ensures |r| == |es|
    ensures forall i :: 0 <= i < |es| ==> r[i] == es[i].(valid := es[i].valid && es[i].regClass !in cs)
  {
    seq(|es|, i requires 0 <= i < |es| => es[i].(valid := es[i].valid && es[i].regClass !in cs))
  }

  lemma {:induction false} SpentKeeps(es: seq<Event>, cs: seq<u8>, c: u8)
    requires c !in cs
    ensures Channels(Spent(es, cs), c) == Channels(es, c)
  {
    if es != [] {
      var n := |es| - 1;
      SpentKeeps(es[..n], cs, c);
      assert Spent(es, cs)[..n] == Spent(es[..n], cs);
    }
  }

  lemma ChannelsNone(c: u8)
    ensures Channels([], c) == []
  {
  }

  lemma ChannelsNext(es: seq<Event>, i: nat, c: u8)
    requires i < |es|
    ensures var r := Channels(es[..i], c);
            Channels(es[..i + 1], c) ==
              if es[i].valid && es[i].regClass == c && Low8(es[i].channel) !in r then r + [Low8(es[i].channel)] else r
  {
    assert es[..i + 1][..i] == es[..i];
  }

  class TriggerEventTab {
    const eventA: array<Event>
    var eventANo: nat

    ghost predicate Valid()
      reads this
    {
      eventA.Length == MAX_TRIGGER_EVENT && eventANo <= MAX_TRIGGER_EVENT
    }

    constructor ()
      ensures Valid() && fresh(eventA) && eventANo == 0
    {
      eventA := new Event[MAX_TRIGGER_EVENT](_ => Event(false, 0, 0));
      eventANo := 0;
    }

    /** The two inner loops: the channels of class c, whose events are marked as reported. */
    method Collect(c: u8, list: array<u8>) returns (idx: nat)
      requires Valid() && list.Length == MAX_TRIGGER_EVENT
      modifies eventA, list
      ensures idx <= MAX_TRIGGER_EVENT && list[..idx] == Channels(old(eventA[..eventANo]), c)
      ensures eventA[..eventANo] == Spent(old(eventA[..eventANo]), [c])
      ensures eventA[eventANo..] == old(eventA[eventANo..])
    {
      hide Channels, Low8;
      ghost var es := eventA[..eventANo];
      ChannelsNone(c);
      idx := 0;
      var i := 0;
      while i < eventANo
        invariant 0 <= i <= eventANo && idx <= i
        invariant list[..idx] == Channels(es[..i], c)
        invariant forall k :: 0 <= k < i ==> eventA[k] == es[k].(valid := es[k].valid && es[k].regClass !in [c])
        invariant forall k :: i <= k < MAX_TRIGGER_EVENT ==> eventA[k] == old(eventA[k])
      {
        ChannelsNext(es, i, c);
        assert es[i] == eventA[i];
        if eventA[i].valid {
          if eventA[i].regClass == c {
            var j := 0;
            while j < idx && list[j] != Low8(eventA[i].channel)
              invariant 0 <= j <= idx
              invariant forall k :: 0 <= k < j ==> list[k] != Low8(eventA[i].channel)
            {
              j := j + 1;
            }
            if j == idx {
              list[idx] := Low8(eventA[i].channel);
              idx := idx + 1;
              assert list[..idx] == list[..idx - 1] + [list[idx - 1]];
            } else {
              assert list[..idx][j] == Low8(eventA[i].channel);
            }
            eventA[i] := eventA[i].(valid := false);
          }
        }
        i := i + 1;
      }
      assert es[..i] == es;
    }

    /** One turn of the outer loop: class c, when the classes cs are done. */
    method Turn(dest: array<u8>, ghost start: nat, at: nat, c: u8, list: array<u8>, ghost es: seq<Event>,
                ghost cs: seq<u8>)
      returns (idx: nat)
      requires Valid() && list.Length == MAX_TRIGGER_EVENT && list != dest && c !in cs
      requires |es| == eventANo && eventA[..eventANo] == Spent(es, cs)
      requires start <= at <= dest.Length && dest[start..at] == Report(es, cs)
      requires at + 3 + |Channels(es, c)| <= dest.Length
      modifies eventA, dest, list
      ensures idx == |Channels(es, c)| && eventA[..eventANo] == Spent(es, cs + [c])
      ensures eventA[eventANo..] == old(eventA[eventANo..])
      ensures var end := if idx > 0 then at + 3 + idx else at;
              && dest[start..end] == Report(es, cs + [c]) && dest[..start] == old(dest[..start])
              && forall i :: end <= i < dest.Length ==> dest[i] == old(dest[i])
    {
      hide Channels, Spent, Element, Report, Having;
      SpentKeeps(es, cs, c);
      SpentTwice(es, cs, c);
      ReportSnoc(es, cs, c);
      idx := Collect(c, list);
      if idx > 0 {
        AppendElement(dest, start, at, c, list, idx);
      }
    }

    /** BuildIntolerantChannelRep, writing from offset `at` on. */
    method Build(dest: array<u8>, at: nat) returns (frameLen: nat)
      requires Valid()
      requires at + 3 * |REG_CLASSES| + eventANo <= dest.Length
      modifies eventA, dest
      ensures at + frameLen <= dest.Length
      ensures dest[at..at + frameLen] == Report(old(eventA[..eventANo]), REG_CLASSES)
      ensures dest[..at] == old(dest[..at]) && dest[at + frameLen..] == old(dest[at + frameLen..])
      ensures eventA[..eventANo] == Spent(old(eventA[..eventANo]), REG_CLASSES)
      ensures eventA[eventANo..] == old(eventA[eventANo..])
    {
      hide Channels, Spent, Element, Report, Having, Distinct;
      ghost var es := eventA[..eventANo];
      var list := new u8[MAX_TRIGGER_EVENT](_ => 0);
      var readOffset, k := 0, 0;
      frameLen := 0;
      SpentNone(es);
      ReportNone(es);
      while k < |REG_CLASSES|
        invariant 0 <= k <= |REG_CLASSES| && frameLen == readOffset && at + frameLen <= dest.Length
        invariant dest[at..at + frameLen] == Report(es, REG_CLASSES[..k])
        invariant dest[..at] == old(dest[..at]) && forall i :: at + frameLen <= i < dest.Length ==>
                    dest[i] == old(dest[i])
        invariant eventA[..eventANo] == Spent(es, REG_CLASSES[..k]) && eventA[eventANo..] == old(eventA[eventANo..])
      {
        ghost var cs := REG_CLASSES[..k];
        var c := REG_CLASSES[k];
        NextClass(k);
        Room(es, cs, c);
        assert |dest[at..at + frameLen]| == frameLen;
        var idx := Turn(dest, at, at + readOffset, c, list, es, cs);
        if idx > 0 {
          frameLen := frameLen + 3 + idx;
          readOffset := readOffset + 3 + idx;
        }
        k := k + 1;
      }
      assert REG_CLASSES[..k] == REG_CLASSES;
    }
  }

  lemma NextClass(k: nat)
    requires k < |REG_CLASSES|
    ensures REG_CLASSES[..k + 1] == REG_CLASSES[..k] + [REG_CLASSES[k]]
    ensures Distinct(REG_CLASSES[..k + 1])
  {
  }

  /** There is room for one more class. */
  lemma Room(es: seq<Event>, cs: seq<u8>, c: u8)
    requires |es| <= MAX_TRIGGER_EVENT && Distinct(cs + [c])
    ensures c !in cs && |Report(es, cs)| + 3 + |Channels(es, c)| <= 3 * (|cs| + 1) + |es|
  {
    hide Channels, Having, Report;
    var all := cs + [c];
    assert all[|cs|] == c && forall i :: 0 <= i < |cs| ==> all[i] == cs[i];
    ReportFits(es, cs);
    HavingSplit(es, cs, c);
  }

  lemma SpentTwice(es: seq<Event>, cs: seq<u8>, c: u8)
    ensures Spent(Spent(es, cs), [c]) == Spent(es, cs + [c])
  {
  }

  lemma SpentNone(es: seq<Event>)
    ensures Spent(es, []) == es
  {
  }

  lemma ReportNone(es: seq<Event>)
    requires |es| <= MAX_TRIGGER_EVENT
    ensures Report(es, []) == []
  {
  }

  lemma ReportSnoc(es: seq<Event>, cs: seq<u8>, c: u8)
    requires |es| <= MAX_TRIGGER_EVENT
    ensures Report(es, cs + [c]) == Report(es, cs) + Element(c, Channels(es, c))
    ensures Channels(es, c) == [] ==> Report(es, cs + [c]) == Report(es, cs)
  {
    assert (cs + [c])[..|cs|] == cs;
  }

  method AppendElement(dest: array<u8>, ghost start: nat, at: nat, c: u8, list: array<u8>, idx: nat)
    requires 0 < idx < 255 && idx <= list.Length && list != dest
    requires start <= at && at + 3 + idx <= dest.Length
    modifies dest
    ensures dest[..start] == old(dest[..start])
    ensures dest[start..at + 3 + idx] == old(dest[start..at]) + Element(c, list[..idx])
    ensures forall i :: at + 3 + idx <= i < dest.Length ==> dest[i] == old(dest[i])
  {
    hide Element;
    WriteElement(dest, at, c, list, idx);
    assert dest[start..at] == old(dest[start..at]);
    assert dest[start..at + 3 + idx] == dest[start..at] + dest[at..at + 3 + idx];
  }

  method WriteElement(dest: array<u8>, at: nat, c: u8, list: array<u8>, idx: nat)
    requires 0 < idx < 255 && idx <= list.Length && list != dest
    requires at + 3 + idx <= dest.Length
    modifies dest
    ensures dest[at..at + 3 + idx] == Element(c, list[..idx])
    ensures forall i :: 0 <= i < at || at + 3 + idx <= i < dest.Length ==> dest[i] == old(dest[i])
  {
    dest[at] := IE_2040_BSS_INTOLERANT_REPORT;
    dest[at + 1] := 1 + idx;
    dest[at + 2] := c;
    forall i | 0 <= i < idx {
      dest[at + 3 + i] := list[i];
    }
  }
}
