/** The busy-channel alarm of ap/ap_qload.c as a state machine over its events. */
module QloadAlarm {
  import opened Basics

  const QBSS_LOAD_ALARM_DURATION := 100
  const U32 := 0x1_0000_0000

  /** The alarm fields of the adapter; `limit` is QloadBusyTimeThreshold in microseconds, `wide`
      says that the channel is 40 MHz wide. */
  datatype Alarm = Alarm(
    enabled: bool, suspended: bool, wide: bool, percent: nat, needed: nat, busyNum: nat, duration: nat,
    number: nat, flag: bool, limit: nat, upTimeLast: nat, periodLast: nat)

  datatype Event =
    | Update(upTime: nat, busySec: nat, busyPri: nat)
    | Clear
    | Resume
    | Reset
    | SetTime(percent: nat)
    | SetNumber(needed: nat)
    | Bandwidth(wide: bool)

  /** OS_HZ and the configured beacon period in milliseconds. */
  datatype Config = Config(hz: nat, beacon: nat) {
    predicate Valid() { hz > 0 }
  }

  function Limit(period: nat, percent: nat): nat { (period * percent) % U32 / 100 * 1024 % U32 }

  /** Milliseconds between two up times. */
  function Period(c: Config, from: nat, to: nat): nat
    requires c.Valid() && from <= to
  {
    ((to - from) % U32 * 1000) % U32 / c.hz
  }

  /** The state once the period since the last update is known. */
  function Measured(c: Config, s: Alarm, upTime: nat): (r: Alarm)
    requires c.Valid()
    ensures r == s.(upTimeLast := upTime, periodLast := r.periodLast, limit := r.limit)
  {
    if upTime > 0 && s.upTimeLast > 0 && upTime > s.upTimeLast then
      var period := Period(c, s.upTimeLast, upTime);
      s.(upTimeLast := upTime, periodLast := period,
         limit := if period != s.periodLast then Limit(period, s.percent) else s.limit)
    else s.(upTimeLast := upTime)
  }

  /** The update is looked at. */
  predicate Effective(s: Alarm, e: Event) { e.Update? && s.enabled && !s.suspended }

  /** It finds one of the channels in use busy beyond the threshold. */
  predicate Over(c: Config, s: Alarm, e: Event)
    requires c.Valid()
  {
    Effective(s, e) && s.percent > 0 &&
    var limit := Measured(c, s, e.upTime).limit;
    limit != 0 && ((s.wide && e.busySec >= limit) || e.busyPri >= limit)
  }

  /** It raises an alarm. */
  predicate Raises(c: Config, s: Alarm, e: Event)
    requires c.Valid()
  {
    Over(c, s, e) && s.duration == 0 && (s.busyNum + 1) % 256 >= s.needed
  }

  function Tick(c: Config, s: Alarm, e: Event): Alarm
    requires c.Valid() && e.Update?
  {
    if !Effective(s, e) then s
    else
      var t := Measured(c, s, e.upTime);
      if s.percent == 0 then t.(busyNum := 0, duration := 0, flag := false)
      else
        var raise := Raises(c, s, e);
        var n := if !Over(c, s, e) then 0 else if s.duration == 0 then (s.busyNum + 1) % 256 else s.busyNum;
        var d := if raise then 2 else if s.duration > 0 then s.duration + 1 else 0;
        var u := if d >= QBSS_LOAD_ALARM_DURATION then t.(busyNum := 0, duration := 0)
                 else t.(busyNum := n, duration := d);
        if raise then u.(number := s.number + 1, suspended := !s.wide, wide := false, flag := s.flag || s.wide) else u
  }

  function Restarted(c: Config, s: Alarm): Alarm {
    s.(flag := false, duration := 0, number := 0, suspended := false, limit := Limit(c.beacon, s.percent))
  }

  function Step(c: Config, s: Alarm, e: Event): Alarm
    requires c.Valid()
  {
    match e
    case Update(_, _, _) => Tick(c, s, e)
    case Clear => s.(flag := false, busyNum := 0)
    case Resume => s.(suspended := false)
    case Reset => Restarted(c, s)
    case SetTime(p) => Restarted(c, s.(percent := p % 256)).(periodLast := c.beacon)
    case SetNumber(n) => s.(needed := n % 256)
    case Bandwidth(w) => s.(wide := w)
  }

  function Run(c: Config, s: Alarm, es: seq<Event>): Alarm
    requires c.Valid()
  {
    if es == [] then s else Step(c, Run(c, s, es[..|es| - 1]), es[|es| - 1])
  }

  /** How many of the latest updates looked at, without a gap, were over the threshold. */
  function Streak(c: Config, s: Alarm, es: seq<Event>): nat
    requires c.Valid()
  {
    if es == [] then 0
    else
      var n := |es| - 1;
      var before := Run(c, s, es[..n]);
      if !Effective(before, es[n]) then Streak(c, s, es[..n])
      else if Over(c, before, es[n]) then Streak(c, s, es[..n]) + 1
      else 0
  }

  /** How many updates were looked at. */
  function Count(c: Config, s: Alarm, es: seq<Event>): nat
    requires c.Valid()
  {
    if es == [] then 0
    else
      var n := |es| - 1;
      Count(c, s, es[..n]) + if Effective(Run(c, s, es[..n]), es[n]) then 1 else 0
  }

  predicate Undisturbed(es: seq<Event>) {
    forall i :: 0 <= i < |es| ==> !es[i].Reset? && !es[i].SetTime?
  }

  function AtLeastOne(n: nat): nat { if n == 0 then 1 else n }

  lemma StreakStep(c: Config, s: Alarm, e: Event, streak: nat)
    requires c.Valid() && s.busyNum <= streak
    ensures Step(c, s, e).busyNum <= if !Effective(s, e) then streak else if Over(c, s, e) then streak + 1 else 0
  {
    hide Limit, Measured;
  }

  lemma {:induction false} StreakCounts(c: Config, s: Alarm, es: seq<Event>)
    requires c.Valid() && s.busyNum == 0
    ensures Run(c, s, es).busyNum <= Streak(c, s, es)
  {
    hide Step, Over;
    if es != [] {
      var n := |es| - 1;
      StreakCounts(c, s, es[..n]);
      StreakStep(c, Run(c, s, es[..n]), es[n], Streak(c, s, es[..n]));
    }
  }

  /** Every alarm ends a run of at least as many updates over the threshold as were asked for,
      whatever resets, clears and changes of the thresholds come before it. */
  lemma AlarmEndsStreak(c: Config, s: Alarm, es: seq<Event>, e: Event)
    requires c.Valid() && s.busyNum == 0 && Raises(c, Run(c, s, es), e)
    ensures Streak(c, s, es + [e]) >= AtLeastOne(Run(c, s, es).needed)
  {
    hide Limit, Measured, Step;
    StreakCounts(c, s, es);
    assert (es + [e])[..|es|] == es;
  }

  /** Where the hold-off stands k updates after the alarm. */
  ghost predicate Holding(s: Alarm, k: nat) {
    s.percent > 0 && if k < 98 then s.duration == 2 + k else s.duration == 0 && s.busyNum <= k - 98
  }

  lemma HoldStep(c: Config, s: Alarm, e: Event, k: nat)
    requires c.Valid() && Holding(s, k) && !e.Reset? && !e.SetTime? && !Raises(c, s, e)
    ensures Holding(Step(c, s, e), k + if Effective(s, e) then 1 else 0)
  {
    hide Limit, Measured, Over;
  }

  lemma AlarmHolds(c: Config, s: Alarm, e: Event)
    requires c.Valid() && Raises(c, s, e)
    ensures Holding(Step(c, s, e), 0) && Step(c, s, e).needed == s.needed
  {
    hide Limit, Measured;
  }

  lemma {:induction false} HoldsOff(c: Config, s: Alarm, es: seq<Event>)
    requires c.Valid() && Undisturbed(es) && Holding(s, 0)
    requires forall i :: 0 <= i < |es| ==> !Raises(c, Run(c, s, es[..i]), es[i])
    ensures Holding(Run(c, s, es), Count(c, s, es))
  {
    hide Step, Raises, Holding, Effective;
    if es != [] {
      var n := |es| - 1;
      forall i | 0 <= i < n ensures !Raises(c, Run(c, s, es[..n][..i]), es[..n][i]) {
        assert es[..n][..i] == es[..i];
      }
      HoldsOff(c, s, es[..n]);
      HoldStep(c, Run(c, s, es[..n]), es[n], Count(c, s, es[..n]));
    }
  }

  /** Two alarms in a row, raised by `first` and `last`, with no reset between them are at least 98
      and the asked-for number of updates apart. */
  lemma AlarmsAreSpaced(c: Config, s: Alarm, first: Event, es: seq<Event>, last: Event)
    requires c.Valid() && Undisturbed(es) && Raises(c, s, first)
    requires var t := Step(c, s, first);
             && (forall i :: 0 <= i < |es| ==> !Raises(c, Run(c, t, es[..i]), es[i]))
             && Raises(c, Run(c, t, es), last)
    ensures var t := Step(c, s, first);
            Count(c, t, es + [last]) >= 98 + AtLeastOne(Run(c, t, es).needed)
  {
    hide Step, Measured, Limit;
    var t := Step(c, s, first);
    AlarmHolds(c, s, first);
    HoldsOff(c, t, es);
    assert (es + [last])[..|es|] == es;
  }

  /** Under unbroken load the bound is met: from an alarm on, every update is looked at and over
      the threshold; then the next alarm is raised by exactly that update. */
  lemma {:induction false} SustainedLoad(c: Config, s: Alarm, es: seq<Event>)
    requires c.Valid() && s.needed < 256 && Holding(s, 0) && es != []
    requires forall i :: 0 <= i < |es| ==> Over(c, Run(c, s, es[..i]), es[i])
    requires |es| <= 98 + AtLeastOne(s.needed)
    ensures var n := |es| - 1;
            Raises(c, Run(c, s, es[..n]), es[n]) <==> |es| == 98 + AtLeastOne(s.needed)
  {
    hide Step, Measured, Limit, Run;
    var n := |es| - 1;
    LoadedAfter(c, s, es[..n], es);
    assert Over(c, Run(c, s, es[..n]), es[n]);
  }

  lemma LoadedStep(c: Config, s: Alarm, e: Event, k: nat)
    requires c.Valid() && s.needed < 256 && Over(c, s, e) && k + 1 < 98 + AtLeastOne(s.needed)
    requires if k < 98 then s.duration == 2 + k else s.duration == 0 && s.busyNum == k - 98
    ensures var t := Step(c, s, e);
            && t.needed == s.needed
            && if k + 1 < 98 then t.duration == 2 + k + 1 else t.duration == 0 && t.busyNum == k + 1 - 98
  {
    hide Measured, Limit;
  }

  lemma {:induction false} LoadedAfter(c: Config, s: Alarm, before: seq<Event>, es: seq<Event>)
    requires c.Valid() && s.needed < 256 && Holding(s, 0) && before <= es
    requires forall i :: 0 <= i < |es| ==> Over(c, Run(c, s, es[..i]), es[i])
    requires |before| < 98 + AtLeastOne(s.needed)
    ensures var t := Run(c, s, before);
            && t.needed == s.needed
            && if |before| < 98 then t.duration == 2 + |before| else t.duration == 0 && t.busyNum == |before| - 98
    decreases |before|
  {
    hide Step, Over;
    if before != [] {
      var n := |before| - 1;
      LoadedAfter(c, s, before[..n], es);
      assert before[..n] == es[..n] && before[n] == es[n];
      LoadedStep(c, Run(c, s, before[..n]), before[n], n);
    }
  }

  /** A reset ends the hold-off but keeps the count, so the next update over the threshold raises
      another alarm at once, unless the count is at its eight-bit limit. */
  lemma ResetRearms(c: Config, s: Alarm, first: Event, next: Event)
    requires c.Valid() && s.percent > 0 && Raises(c, s, first)
    requires Over(c, Step(c, Step(c, s, first), Reset), next)
    ensures Raises(c, Step(c, Step(c, s, first), Reset), next) <==> ((s.busyNum + 1) % 256 < 255 || s.needed == 0)
  {
    hide Limit, Measured, Over, Step;
    var t, n := Step(c, Step(c, s, first), Reset), (s.busyNum + 1) % 256;
    CountKept(c, s, first);
    CountOn(n, s.needed);
    assert t.busyNum == n && t.duration == 0;
    assert Over(c, t, next);
    assert Raises(c, t, next) <==> (n + 1) % 256 >= t.needed;
  }

  lemma CountKept(c: Config, s: Alarm, e: Event)
    requires c.Valid() && Raises(c, s, e)
    ensures var t := Step(c, Step(c, s, e), Reset);
            t.busyNum == (s.busyNum + 1) % 256 && t.needed == s.needed && t.duration == 0
  {
    hide Limit, Measured;
  }

  lemma CountOn(n: nat, needed: nat)
    requires needed <= n < 256
    ensures (n + 1) % 256 >= needed <==> (n < 255 || needed == 0)
  {
    assert (n + 1) % 256 == if n < 255 then n + 1 else 0;
  }

  // ---------------------------------------------------------------- what an update looks at

  /** The threshold is the share of the period in microseconds, in steps of 1024, exactly as long as
      nothing exceeds 32 bits. */
  lemma LimitExactly(period: nat, percent: nat)
    ensures 100 * Limit(period, percent) <= 1024 * (period * percent) < 100 * (Limit(period, percent) + 1024)
            <==> period * percent < 419430400
  {
    LimitOf(period * percent);
  }

  lemma LimitOf(x: nat)
    ensures var limit := x % U32 / 100 * 1024 % U32;
            100 * limit <= 1024 * x < 100 * (limit + 1024) <==> x < 419430400
  {
    var y := x % U32;
    var q := y / 100;
    assert 100 * q <= y < 100 * q + 100;
    if x < 419430400 {
      DivIs(x, U32, 0, x);
      DivIs(1024 * q, U32, 0, 1024 * q);
    } else if x < U32 {
      DivIs(x, U32, 0, x);
    }
  }

  /** The period is the elapsed time in milliseconds, rounded down, exactly as long as the product with
      1000 fits 32 bits. */
  lemma PeriodExactly(c: Config, from: nat, to: nat)
    requires c.Valid() && c.hz <= 0x1_0000_0000 && from <= to
    ensures var p := Period(c, from, to);
            c.hz * p <= 1000 * (to - from) < c.hz * p + c.hz <==> 1000 * (to - from) < 0x1_0000_0000
  {
    var n := to - from;
    var x := (n % U32 * 1000) % U32;
    var p := x / c.hz;
    assert c.hz * p <= x < c.hz * p + c.hz by { QuotientOf(x, c.hz); }
    if 1000 * n < U32 {
      DivIs(n, U32, 0, n);
      DivIs(1000 * n, U32, 0, 1000 * n);
    } else {
      assert x <= 1000 * n - U32 by { Wrapped(n); }
    }
  }

  lemma QuotientOf(x: nat, a: nat)
    requires a > 0
    ensures a * (x / a) <= x < a * (x / a) + a
  {
  }

  lemma Wrapped(n: nat)
    requires 1000 * n >= 0x1_0000_0000
    ensures (n % U32 * 1000) % U32 <= 1000 * n - U32
  {
    var m := n % U32;
    assert n == U32 * (n / U32) + m;
    if n < U32 {
      DivIs(n, U32, 0, n);
    }
  }

  /** When an update finds the channel busy: looked at, with a threshold set, it compares the busy times
      with the share of the time since the last one. */
  lemma BusyExactly(c: Config, s: Alarm, upTime: nat, busySec: nat, busyPri: nat, p: nat)
    requires c.Valid() && c.hz <= 0x1_0000_0000 && 0 < s.upTimeLast < upTime
    requires 1000 * (upTime - s.upTimeLast) < 0x1_0000_0000 && p * s.percent < 419430400
    requires c.hz * p <= 1000 * (upTime - s.upTimeLast) < c.hz * p + c.hz && p != s.periodLast
    ensures var limit := p * s.percent / 100 * 1024;
            Over(c, s, Update(upTime, busySec, busyPri)) <==>
              s.enabled && !s.suspended && limit > 0 && (busyPri >= limit || (s.wide && busySec >= limit))
    ensures Step(c, s, Update(upTime, busySec, busyPri)).upTimeLast ==
              if s.enabled && !s.suspended then upTime else s.upTimeLast
  {
    PeriodExactly(c, s.upTimeLast, upTime);
    var x := 1000 * (upTime - s.upTimeLast);
    SameQuotient(x, c.hz, p, Period(c, s.upTimeLast, upTime));
    LimitNoWrap(p * s.percent);
  }

  lemma SameQuotient(x: nat, a: nat, p: nat, q: nat)
    requires a > 0 && a * p <= x < a * p + a && a * q <= x < a * q + a
    ensures p == q
  {
    MulSign(a, p - q);
    MulSign(a, q - p);
    assert a * p - a * q == a * (p - q);
  }

  lemma LimitNoWrap(x: nat)
    requires x < 419430400
    ensures x % U32 / 100 * 1024 % U32 == x / 100 * 1024
    ensures x == 0 ==> x / 100 * 1024 == 0
  {
    DivIs(x, U32, 0, x);
    DivIs(x / 100 * 1024, U32, 0, x / 100 * 1024);
  }

  /** An update that finds the same period as the last one, or no earlier one, keeps the threshold. */
  lemma BusyAsBefore(c: Config, s: Alarm, upTime: nat, busySec: nat, busyPri: nat)
    requires c.Valid()
    requires upTime == 0 || s.upTimeLast == 0 || upTime <= s.upTimeLast
             || Period(c, s.upTimeLast, upTime) == s.periodLast
    ensures Over(c, s, Update(upTime, busySec, busyPri)) <==>
            s.enabled && !s.suspended && s.percent > 0 && s.limit > 0
            && (busyPri >= s.limit || (s.wide && busySec >= s.limit))
  {
  }

  /** What an update that is looked at makes of the counters, depending on whether the channel was busy. */
  ghost predicate Judged(s: Alarm, over: bool, t: Alarm) {
    var raised := over && s.duration == 0 && (s.busyNum + 1) % 256 >= s.needed;
    && t.percent == s.percent && t.needed == s.needed && t.enabled == s.enabled
    && t.number == s.number + (if raised then 1 else 0)
    && (raised && s.wide ==> !t.wide && !t.suspended && t.flag)
    && (raised && !s.wide ==> !t.wide && t.suspended && t.flag == s.flag)
    && (!raised ==> t.wide == s.wide && t.suspended == s.suspended && t.flag == (s.flag && s.percent > 0))
    && (raised ==> t.duration == 2)
    && (!raised ==>
          t.duration == if s.percent == 0 || s.duration == 0 || s.duration + 1 >= 100 then 0 else s.duration + 1)
    && t.busyNum == if s.percent == 0 || !over || s.duration + 1 >= 100 then 0
                    else if s.duration == 0 then (s.busyNum + 1) % 256 else s.busyNum
  }

  lemma UpdateJudges(c: Config, s: Alarm, upTime: nat, busySec: nat, busyPri: nat)
    requires c.Valid() && s.enabled && !s.suspended
    ensures var e := Update(upTime, busySec, busyPri); Judged(s, Over(c, s, e), Step(c, s, e))
  {
    hide Measured, Limit;
  }

  /** A disabled or suspended monitor looks at nothing; the other events, field by field. */
  lemma OtherEvents(c: Config, s: Alarm, e: Event)
    requires c.Valid()
    ensures var t := Step(c, s, e);
            match e
            case Update(_, _, _) => (s.enabled && !s.suspended) || t == s
            case Clear => t == s.(flag := false, busyNum := 0)
            case Resume => t == s.(suspended := false)
            case Reset => t == s.(flag := false, duration := 0, number := 0, suspended := false, limit := t.limit)
            case SetTime(p) =>
              t == s.(flag := false, duration := 0, number := 0, suspended := false, limit := t.limit,
                      percent := t.percent, periodLast := c.beacon) && (p < 256 ==> t.percent == p)
            case SetNumber(n) => t == s.(needed := t.needed) && (n < 256 ==> t.needed == n)
            case Bandwidth(w) => t == s.(wide := w)
    ensures e.Reset? && c.beacon * s.percent < 419430400 ==>
            Step(c, s, e).limit == c.beacon * s.percent / 100 * 1024
  {
    hide Measured, Over, Raises;
    if e.Reset? && c.beacon * s.percent < 419430400 {
      LimitNoWrap(c.beacon * s.percent);
    }
  }

  class Monitor {
    var flgQloadEnable: bool
    var suspended: bool
    var wide: bool
    var percent: nat
    var needed: nat
    var busyNum: nat
    var duration: nat
    var number: nat
    var flgQloadAlarm: bool
    var busyTimeThreshold: nat
    var upTimeLast: nat
    var periodLast: nat
    const config: Config

    ghost predicate Valid()
      reads this
    {
      config.Valid() && duration < QBSS_LOAD_ALARM_DURATION && busyNum < 256
    }

    function State(): Alarm
      reads this
    {
      Alarm(flgQloadEnable, suspended, wide, percent, needed, busyNum, duration, number, flgQloadAlarm,
            busyTimeThreshold, upTimeLast, periodLast)
    }

    /** QBSS_LoadInit */
    constructor (c: Config, wmm: bool, wide: bool)
      requires c.Valid()
      ensures Valid() && config == c && State().busyNum == 0
      ensures State() == Restarted(c, Alarm(wmm, false, wide, 0, 10, 0, 0, 0, false, 0, 0, 0))
    {
      config := c;
      flgQloadEnable, suspended, this.wide := wmm, false, wide;
      percent, needed, busyNum, duration, number, flgQloadAlarm := 0, 10, 0, 0, 0, false;
      upTimeLast, periodLast := 0, 0;
      busyTimeThreshold := 0;
      new;
      LoadAlarmReset();
    }

    method BusyTimeThresholdReset(period: nat)
      modifies `busyTimeThreshold
      ensures busyTimeThreshold == Limit(period, percent)
    {
      busyTimeThreshold := (period * percent) % U32;
      busyTimeThreshold := busyTimeThreshold / 100;
      busyTimeThreshold := busyTimeThreshold * 1024 % U32;
    }

    /** QBSS_LoadAlarmReset */
    method LoadAlarmReset()
      requires Valid()
      modifies this
      ensures Valid() && State() == Step(config, old(State()), Reset)
    {
      flgQloadAlarm := false;
      duration := 0;
      number := 0;
      suspended := false;
      BusyTimeThresholdReset(config.beacon);
    }

    /** QBSS_LoadAlarmResume */
    method LoadAlarmResume()
      requires Valid()
      modifies `suspended
      ensures Valid() && State() == Step(config, old(State()), Resume)
    {
      suspended := false;
    }

    /** QBSS_LoadStatusClear */
    method LoadStatusClear()
      requires Valid()
      modifies this
      ensures Valid() && State() == Step(config, old(State()), Clear)
    {
      flgQloadAlarm := false;
      busyNum := 0;
    }

    /** Set_QloadAlarmTimeThreshold_Proc */
    method SetTimeThreshold(p: nat)
      requires Valid()
      modifies this
      ensures Valid() && State() == Step(config, old(State()), SetTime(p))
    {
      percent := p % 256;
      LoadAlarmReset();
      periodLast := config.beacon;
    }

    /** Set_QloadAlarmNumThreshold_Proc */
    method SetNumThreshold(n: nat)
      requires Valid()
      modifies `needed
      ensures Valid() && State() == Step(config, old(State()), SetNumber(n))
    {
      needed := n % 256;
    }

    /** QBSS_LoadAlarm */
    method LoadAlarm()
      requires Valid()
      modifies this
      ensures Valid()
      ensures var s := old(State());
              State() == s.(number := s.number + 1, suspended := !s.wide, wide := false, flag := s.flag || s.wide)
    {
      suspended := true;
      number := number + 1;
      if wide {
        wide := false;
        flgQloadAlarm := true;
        LoadAlarmResume();
      }
    }

    method Measure(upTime: nat)
      requires Valid()
      modifies `busyTimeThreshold, `periodLast, `upTimeLast
      ensures State() == Measured(config, old(State()), upTime)
    {
      if upTime > 0 && upTimeLast > 0 && upTime > upTimeLast {
        var timePeriod := Period(config, upTimeLast, upTime);
        if timePeriod != periodLast {
          BusyTimeThresholdReset(timePeriod);
        }
        periodLast := timePeriod;
      }
      upTimeLast := upTime;
    }

    /** QBSS_LoadUpdate */
    method LoadUpdate(upTime: nat, busySec: nat, busyPri: nat)
      requires Valid()
      modifies this
      ensures Valid() && State() == Step(config, old(State()), Update(upTime, busySec, busyPri))
    {
      hide Measured, Limit, Period;
      var over, needAlarm := false, false;
      if !flgQloadEnable || suspended {
        return;
      }
      Measure(upTime);
      if wide {
        if !suspended && percent > 0 {
          if busyTimeThreshold != 0 && busySec >= busyTimeThreshold {
            over := true;
          }
        }
      }
      if !suspended && percent > 0 {
        if busyTimeThreshold != 0 && busyPri >= busyTimeThreshold {
          over := true;
        }
      }
      assert over == Over(config, old(State()), Update(upTime, busySec, busyPri));
      if !suspended && percent > 0 {
        if over {
          if duration == 0 {
            busyNum := (busyNum + 1) % 256;
            if busyNum >= needed {
              needAlarm := true;
              duration := duration + 1;
            }
          }
        } else {
          busyNum := 0;
        }
        if duration > 0 {
          duration := duration + 1;
          if duration >= QBSS_LOAD_ALARM_DURATION {
            duration := 0;
            busyNum := 0;
          }
        }
        if needAlarm {
          LoadAlarm();
        }
      } else {
        busyNum := 0;
        duration := 0;
        flgQloadAlarm := false;
      }
    }
  }
}
