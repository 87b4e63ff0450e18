/** The rate-limited runner: pkg/util/async/bounded_frequency_runner.go.

    Time is real-valued and passes only while `Loop` waits or while the function runs. The
    limiter is an exact token bucket, kept in units of time: one token is worth `minInterval`. */
module FrequencyRunner {
  import opened ProxyTypes

  /** `k` times `x`. */
  function Times(k: nat, x: real): real {
    if k == 0 then 0.0 else Times(k - 1, x) + x
  }

  lemma {:induction false} TimesIsProduct(k: nat, x: real)
    ensures Times(k, x) == k as real * x
  {
    if k > 0 {
      TimesIsProduct(k - 1, x);
      assert k as real == (k - 1) as real + 1.0;
      assert ((k - 1) as real + 1.0) * x == (k - 1) as real * x + x;
    }
  }

  function Min(a: real, b: real): real {
    if a <= b then a else b
  }

  predicate Ordered(times: seq<real>) {
    forall i, j :: 0 <= i <= j < |times| ==> times[i] <= times[j]
  }

  /** The starts from `i` to `j` fit into the burst plus the time they span. */
  ghost predicate StretchFits(starts: seq<real>, minInterval: real, cap: real, i: nat, j: nat)
    requires i <= j < |starts|
  {
    Times(j - i + 1, minInterval) <= cap + (starts[j] - starts[i])
  }

  /** So does any stretch of consecutive starts. */
  ghost predicate RateBounded(starts: seq<real>, minInterval: real, cap: real) {
    forall i: nat, j: nat :: i <= j < |starts| ==> StretchFits(starts, minInterval, cap, i, j)
  }

  /** How many of the times lie between `lo` and `hi`. */
  ghost function CountIn(times: seq<real>, lo: real, hi: real): nat {
    if times == [] then 0
    else CountIn(times[..|times| - 1], lo, hi) + (if lo <= times[|times| - 1] <= hi then 1 else 0)
  }

  /** Counted times lie in one stretch: if there are any, it ends at a last one and starts no
      later than the count says. */
  lemma {:induction false} CountedStretch(times: seq<real>, lo: real, hi: real) returns (i: nat, j: nat)
    requires Ordered(times) && CountIn(times, lo, hi) > 0
    ensures i <= j < |times| && lo <= times[i] && times[j] <= hi
    ensures CountIn(times, lo, hi) <= j - i + 1
  {
    var init := times[..|times| - 1];
    var last := |times| - 1;
    if CountIn(init, lo, hi) == 0 {
      i, j := last, last;
    } else {
      var j0;
      i, j0 := CountedStretch(init, lo, hi);
      j := if lo <= times[last] <= hi then last else j0;
    }
  }

  lemma {:induction false} TimesMonotone(a: nat, b: nat, x: real)
    requires a <= b && x >= 0.0
    ensures Times(a, x) <= Times(b, x)
  {
    if a < b {
      TimesMonotone(a, b - 1, x);
    }
  }

  lemma WindowCost(starts: seq<real>, minInterval: real, cap: real, lo: real, hi: real)
    requires minInterval > 0.0 && lo <= hi && cap >= 0.0
    requires Ordered(starts) && RateBounded(starts, minInterval, cap)
    ensures Times(CountIn(starts, lo, hi), minInterval) <= cap + (hi - lo)
  {
    if CountIn(starts, lo, hi) > 0 {
      var i, j := CountedStretch(starts, lo, hi);
      TimesMonotone(CountIn(starts, lo, hi), j - i + 1, minInterval);
      assert StretchFits(starts, minInterval, cap, i, j);
    }
  }

  /** In every window of length `hi - lo` at most `burst + (hi - lo) / minInterval` runs start. */
  lemma {:induction false} WindowBound(starts: seq<real>, minInterval: real, burst: nat, lo: real, hi: real)
    requires minInterval > 0.0 && lo <= hi
    requires Ordered(starts) && RateBounded(starts, minInterval, Times(burst, minInterval))
    ensures CountIn(starts, lo, hi) as real <= burst as real + (hi - lo) / minInterval
  {
    TimesMonotone(0, burst, minInterval);
    WindowCost(starts, minInterval, Times(burst, minInterval), lo, hi);
    Divided(CountIn(starts, lo, hi), burst, hi - lo, minInterval);
  }

  lemma Divided(n: nat, b: nat, d: real, x: real)
    requires x > 0.0 && Times(n, x) <= Times(b, x) + d
    ensures n as real <= b as real + d / x
  {
    TimesIsProduct(n, x);
    TimesIsProduct(b, x);
    Cancelled(n as real, b as real, d, x);
  }

  lemma Cancelled(n: real, b: real, d: real, x: real)
    requires x > 0.0 && n * x <= b * x + d
    ensures n <= b + d / x
  {
    var w := d / x;
    assert w * x == d;
    assert (n - b - w) * x <= 0.0;
  }

  lemma {:induction false} CapCoversOne(k: nat, x: real)
    requires k >= 1 && x >= 0.0
    ensures Times(k, x) >= x
  {
    if k > 1 {
      CapCoversOne(k - 1, x);
    }
  }

  lemma {:induction false} TimesZero(k: nat)
    ensures Times(k, 0.0) == 0.0
  {
    if k > 0 {
      TimesZero(k - 1);
    }
  }

  /** A request that was refused at `at` and must be served by `due`. */
  datatype Throttle = Throttle(at: real, due: real)

  ghost predicate Served(t: Throttle, starts: seq<real>) {
    exists i :: 0 <= i < |starts| && t.at <= starts[i] <= t.due
  }

  /** Run `i + 1` starts after run `i` ends, and no more than `maxInterval` after. */
  ghost predicate GapFits(starts: seq<real>, ends: seq<real>, maxInterval: real, i: int)
    requires 0 <= i < |starts| - 1 && |starts| == |ends|
  {
    ends[i] <= starts[i + 1] <= ends[i] + maxInterval
  }

  /** Runs follow one another, the first within `maxInterval` of the start of the loop and each
      next within `maxInterval` of the end of the one before. */
  ghost predicate WellTimed(starts: seq<real>, ends: seq<real>, looping: real, maxInterval: real) {
    && |starts| == |ends| && Ordered(starts)
    && (forall i :: 0 <= i < |starts| ==> starts[i] <= ends[i])
    && (forall i :: 0 <= i < |starts| - 1 ==> GapFits(starts, ends, maxInterval, i))
    && (starts != [] ==> starts[0] <= looping + maxInterval)
  }

  /** What the starts from `i` on leave of the burst and the time since. */
  ghost function LeftFrom(starts: seq<real>, refilled: real, minInterval: real, cap: real, i: nat): real
    requires i < |starts|
  {
    cap - Times(|starts| - i, minInterval) + (refilled - starts[i])
  }

  ghost predicate CreditFits(starts: seq<real>, credit: real, refilled: real, minInterval: real, cap: real) {
    forall i: nat :: i < |starts| ==> credit <= LeftFrom(starts, refilled, minInterval, cap, i)
  }

  ghost predicate CreditTight(starts: seq<real>, credit: real, refilled: real, minInterval: real, cap: real) {
    credit == cap || exists i: nat :: i < |starts| && credit == LeftFrom(starts, refilled, minInterval, cap, i)
  }

  /** The credit is the least that any stretch of starts up to now leaves, and at most the burst. */
  ghost predicate CreditIs(starts: seq<real>, credit: real, refilled: real, minInterval: real, cap: real) {
    CreditFits(starts, credit, refilled, minInterval, cap) && CreditTight(starts, credit, refilled, minInterval, cap)
  }

  /** Every refused request has been served in time, or will be by the armed timer. */
  ghost predicate AllAnswered(throttles: seq<Throttle>, starts: seq<real>, possible: real, now: real,
                              timer: Option<real>)
  {
    forall t :: t in throttles ==>
                  || Served(t, starts)
                  || (starts != [] && t.due == possible && t.at <= now <= t.due && (timer.Some? ==> timer.value <= t.due))
  }

  lemma WellTimedGrows(starts: seq<real>, ends: seq<real>, looping: real, maxInterval: real, at: real, end: real)
    requires WellTimed(starts, ends, looping, maxInterval) && at <= end
    requires starts != [] ==> ends[|ends| - 1] <= at <= ends[|ends| - 1] + maxInterval
    requires starts == [] ==> at <= looping + maxInterval
    ensures WellTimed(starts + [at], ends + [end], looping, maxInterval)
  {
    var n := |starts|;
    forall i | 0 <= i < n
      ensures starts[i] <= at
    {
      assert starts[i] <= starts[n - 1] <= ends[n - 1];
    }
    forall i | 0 <= i < n
      ensures GapFits(starts + [at], ends + [end], maxInterval, i)
    {
      if i < n - 1 {
        assert GapFits(starts, ends, maxInterval, i);
      }
    }
  }

  /** With the credit of a refilled bucket, one more start keeps the rate bound if and only if there
      is a token. */
  lemma TokenIff(starts: seq<real>, credit: real, at: real, minInterval: real, cap: real)
    requires RateBounded(starts, minInterval, cap) && CreditIs(starts, credit, at, minInterval, cap)
    requires cap >= minInterval
    ensures RateBounded(starts + [at], minInterval, cap) <==> credit >= minInterval
  {
    var more, n := starts + [at], |starts|;
    assert Times(1, minInterval) == minInterval;
    if credit >= minInterval {
      forall i: nat, j: nat | i <= j < |more|
        ensures StretchFits(more, minInterval, cap, i, j)
      {
        if j < n {
          assert StretchFits(starts, minInterval, cap, i, j);
        } else if i < n {
          assert credit <= LeftFrom(starts, at, minInterval, cap, i);
        }
      }
    } else if i: nat :| i < n && credit == LeftFrom(starts, at, minInterval, cap, i) {
      assert !StretchFits(more, minInterval, cap, i, n);
    }
  }

  /** Filling the bucket up to time `at`. */
  lemma CreditRefills(starts: seq<real>, credit: real, refilled: real, minInterval: real, cap: real, at: real)
    requires CreditIs(starts, credit, refilled, minInterval, cap) && credit <= cap && refilled <= at
    ensures CreditIs(starts, Min(cap, credit + (at - refilled)), at, minInterval, cap)
  {
    var full := Min(cap, credit + (at - refilled));
    forall i: nat | i < |starts|
      ensures full <= LeftFrom(starts, at, minInterval, cap, i)
    {
      assert credit <= LeftFrom(starts, refilled, minInterval, cap, i);
    }
    if i: nat :| i < |starts| && credit == LeftFrom(starts, refilled, minInterval, cap, i) {
      assert credit + (at - refilled) == LeftFrom(starts, at, minInterval, cap, i);
    }
  }

  /** Taking a token from a refilled bucket. */
  lemma CreditAfterRun(starts: seq<real>, full: real, minInterval: real, cap: real, at: real)
    requires CreditIs(starts, full, at, minInterval, cap) && full <= cap
    ensures CreditIs(starts + [at], full - minInterval, at, minInterval, cap)
  {
    var more, left, n := starts + [at], full - minInterval, |starts|;
    assert LeftFrom(more, at, minInterval, cap, n) == cap - minInterval by {
      assert Times(1, minInterval) == minInterval;
    }
    forall i: nat | i < n
      ensures LeftFrom(more, at, minInterval, cap, i) == LeftFrom(starts, at, minInterval, cap, i) - minInterval
    {
      assert Times(|more| - i, minInterval) == Times(|starts| - i, minInterval) + minInterval;
    }
    forall i: nat | i < |more|
      ensures left <= LeftFrom(more, at, minInterval, cap, i)
    {
      if i < n {
        assert full <= LeftFrom(starts, at, minInterval, cap, i);
      }
    }
    if i: nat :| i < n && full == LeftFrom(starts, at, minInterval, cap, i) {
      assert left == LeftFrom(more, at, minInterval, cap, i);
    }
  }

  /** Without a minimum interval any ordered starts keep the bound. */
  lemma NoIntervalNoBound(starts: seq<real>, cap: real)
    requires Ordered(starts) && cap >= 0.0
    ensures RateBounded(starts, 0.0, cap)
  {
    forall i: nat, j: nat | i <= j < |starts|
      ensures StretchFits(starts, 0.0, cap, i, j)
    {
      TimesZero(j - i + 1);
    }
  }

  /** Requests stay answered while time passes, at most until the timer fires. */
  lemma WaitAnswers(throttles: seq<Throttle>, starts: seq<real>, possible: real, now: real, now': real,
                    timer: Option<real>)
    requires AllAnswered(throttles, starts, possible, now, timer) && now <= now'
    requires timer.Some? && now' <= timer.value
    ensures AllAnswered(throttles, starts, possible, now', timer)
    ensures AllAnswered(throttles, starts, possible, now', None)
  {
  }

  /** A run serves every request that was still waiting. */
  lemma RunAnswers(throttles: seq<Throttle>, starts: seq<real>, possible: real, timer: Option<real>, at: real,
                   possible': real, now': real, timer': Option<real>)
    requires AllAnswered(throttles, starts, possible, at, timer)
    ensures AllAnswered(throttles, starts + [at], possible', now', timer')
  {
    forall t | t in throttles
      ensures Served(t, starts + [at])
    {
      if Served(t, starts) {
        var i :| 0 <= i < |starts| && t.at <= starts[i] <= t.due;
        assert (starts + [at])[i] == starts[i];
      } else {
        assert (starts + [at])[|starts|] == at;
      }
    }
  }

  predicate Fires(timer: Option<real>, now: real) {
    timer.Some? && timer.value <= now
  }

  /** What the environment does to a runner next. */
  datatype Move =
    | Wait(time: real)
    | Ask
    | Tick(time: real, asked: bool)
    | Request(time: real, asked: bool)

  datatype Settings = Settings(minInterval: real, maxInterval: real, cap: real)

  /** All that the runner does shows in this. */
  datatype Snapshot = Snapshot(
    now: real, lastRun: real, timer: Option<real>, tick: bool, run: bool,
    starts: seq<real>, ends: seq<real>, throttles: seq<Throttle>)

  /** A run from now until `end`, during which the timer may fire and a request may arrive. */
  function Ran(c: Settings, s: Snapshot, end: real, asked: bool): Snapshot {
    Snapshot(end, end, Some(end + c.maxInterval), s.tick || Fires(s.timer, end), s.run || asked,
             s.starts + [s.now], s.ends + [end], s.throttles)
  }

  /** The timer is set for `minInterval` after the last run. */
  function Refused(c: Settings, s: Snapshot): Snapshot {
    var due := s.lastRun + c.minInterval;
    s.(timer := Some(due), throttles := s.throttles + [Throttle(s.now, due)])
  }

  /** One attempt: a run of length `time` if the rate bound allows a start now. */
  ghost function Attempted(c: Settings, s: Snapshot, time: real, asked: bool): Snapshot {
    if RateBounded(s.starts + [s.now], c.minInterval, c.cap) then Ran(c, s, s.now + time, asked) else Refused(c, s)
  }

  lemma AttemptedBy(c: Settings, s: Snapshot, time: real, asked: bool)
    ensures RateBounded(s.starts + [s.now], c.minInterval, c.cap) ==> Attempted(c, s, time, asked) == Ran(c, s, s.now + time, asked)
    ensures !RateBounded(s.starts + [s.now], c.minInterval, c.cap) ==> Attempted(c, s, time, asked) == Refused(c, s)
  {
  }

  /** Time passes while there is nothing to take, at most until the timer fires. */
  predicate CanWait(s: Snapshot, time: real) {
    !s.tick && !s.run && time >= 0.0 && (s.timer.Some? ==> s.now + time <= s.timer.value)
  }

  function Waited(s: Snapshot, time: real): Snapshot {
    var now := s.now + time;
    if Fires(s.timer, now) then s.(now := now, timer := None, tick := true) else s.(now := now)
  }

  /** What a move does; one that is not possible at its turn is skipped. */
  ghost function Moved(c: Settings, s: Snapshot, m: Move): Snapshot {
    match m
    case Wait(time) => if CanWait(s, time) then Waited(s, time) else s
    case Ask => s.(run := true)
    case Tick(time, asked) => if s.tick && time >= 0.0 then Attempted(c, s.(tick := false), time, asked) else s
    case Request(time, asked) => if s.run && time >= 0.0 then Attempted(c, s.(run := false), time, asked) else s
  }

  ghost function Played(c: Settings, s: Snapshot, schedule: seq<Move>): Snapshot {
    if schedule == [] then s
    else Moved(c, Played(c, s, schedule[..|schedule| - 1]), schedule[|schedule| - 1])
  }

  class BoundedFrequencyRunner {
    const minInterval: real
    const maxInterval: real
    const burstRuns: nat
    var now: real
    var lastRun: real
    /** The deadline of the armed timer. */
    var timer: Option<real>
    /** A tick sits in the timer's channel, perhaps from before the timer was re-armed. */
    var tick: bool
    /** A request sits in the one-slot channel. */
    var run: bool
    var credit: real
    var refilled: real
    ghost var looping: real
    ghost var starts: seq<real>
    ghost var ends: seq<real>
    ghost var throttles: seq<Throttle>

    function Cap(): real {
      Times(burstRuns, minInterval)
    }

    ghost function Constants(): Settings {
      Settings(minInterval, maxInterval, Cap())
    }

    ghost function Snap(): Snapshot
      reads `now, `lastRun, `timer, `tick, `run, `starts, `ends, `throttles
    {
      Snapshot(now, lastRun, timer, tick, run, starts, ends, throttles)
    }

    ghost predicate Parameters() {
      0.0 <= minInterval <= maxInterval && burstRuns >= 1 && Cap() >= minInterval
    }

    ghost predicate HasRun()
      reads `starts
    {
      starts != []
    }

    /** The latest time by which the next run must start. */
    ghost function Deadline(): real
      reads `starts, `lastRun, `looping
    {
      (if HasRun() then lastRun else looping) + maxInterval
    }

    /** The limiter: besides its upper bound, the credit is at least what has accrued since the
        last start. */
    ghost predicate Limited()
      reads `credit, `refilled, `now, `starts
    {
      && 0.0 <= credit <= Cap() && refilled <= now
      && (!HasRun() ==> credit == Cap())
      && (HasRun() ==> starts[|starts| - 1] <= refilled)
      && (HasRun() ==> credit >= Min(Cap(), refilled - starts[|starts| - 1]))
      && CreditIs(starts, credit, refilled, minInterval, Cap())
    }

    /** What has happened so far. */
    ghost predicate Recorded()
      reads `starts, `ends, `looping, `lastRun, `now
    {
      && WellTimed(starts, ends, looping, maxInterval)
      && (HasRun() ==> ends[|ends| - 1] == lastRun <= now)
      && (minInterval > 0.0 ==> RateBounded(starts, minInterval, Cap()))
    }

    /** The timer is armed, or an attempt made now is accepted. */
    ghost predicate Due()
      reads `timer, `now, `starts, `lastRun, `looping
    {
      && (timer.Some? ==> now <= timer.value <= Deadline())
      && (timer.Some? && HasRun() ==> lastRun + minInterval <= timer.value)
      && (timer.None? ==> now <= Deadline() && (HasRun() ==> lastRun + minInterval <= now))
    }

    /** While `Loop` waits, the timer is armed or its tick is there to be taken. */
    ghost predicate Armed()
      reads `timer, `now, `starts, `lastRun, `looping, `tick
    {
      Due() && (timer.None? ==> tick)
    }

    ghost predicate Answered()
      reads `throttles, `starts, `lastRun, `now, `timer
    {
      AllAnswered(throttles, starts, lastRun + minInterval, now, timer)
    }

    ghost predicate Valid()
      reads this
    {
      Parameters() && Limited() && Recorded() && Armed() && Answered()
    }

    /** `construct`, followed by the start of `Loop`. The source panics when the intervals are the
        wrong way round. */
    constructor (minInterval: real, maxInterval: real, burstRuns: nat, now: real)
      requires 0.0 <= minInterval <= maxInterval && burstRuns >= 1
      ensures Valid() && looping == now
      ensures Snap() == Snapshot(now, 0.0, Some(now + maxInterval), false, false, [], [], [])
      ensures this.minInterval == minInterval && this.maxInterval == maxInterval && this.burstRuns == burstRuns
    {
      this.minInterval, this.maxInterval, this.burstRuns := minInterval, maxInterval, burstRuns;
      this.now, lastRun, refilled := now, 0.0, now;
      credit := Times(burstRuns, minInterval);
      timer, tick, run := Some(now + maxInterval), false, false;
      looping, starts, ends, throttles := now, [], [], [];
      new;
      FreshIsValid();
    }

    lemma FreshIsValid()
      requires 0.0 <= minInterval <= maxInterval && burstRuns >= 1
      requires starts == [] && ends == [] && throttles == []
      requires credit == Cap() && refilled == now == looping && timer == Some(now + maxInterval)
      ensures Valid()
    {
      CapCoversOne(burstRuns, minInterval);
      assert Limited();
      assert Recorded();
      assert Armed();
      assert Answered();
    }

    /** The bucket has a token if and only if a start now keeps the rate bound. */
    ghost predicate MayStart()
      reads `starts, `now
    {
      RateBounded(starts + [now], minInterval, Cap())
    }

    /** The limiter's attempt: refills the bucket and takes one token if there is one. */
    method TryAccept() returns (ok: bool)
      requires Parameters() && Limited() && Recorded()
      modifies `credit, `refilled
      ensures ok <==> MayStart()
      ensures ok ==> refilled == now && 0.0 <= credit <= Cap()
      ensures ok ==> CreditIs(starts + [now], credit, now, minInterval, Cap())
      ensures !ok ==> Limited() && HasRun() && now < lastRun + minInterval && minInterval > 0.0
    {
      if minInterval == 0.0 {
        FreeStart();
        refilled := now;
        return true;
      }
      CreditRefills(starts, credit, refilled, minInterval, Cap(), now);
      credit := Min(Cap(), credit + (now - refilled));
      refilled := now;
      TokenIff(starts, credit, now, minInterval, Cap());
      if credit < minInterval {
        return false;
      }
      CreditAfterRun(starts, credit, minInterval, Cap(), now);
      credit := credit - minInterval;
      return true;
    }

    /** The accepted branch: the function runs until `end`, and meanwhile the timer may fire and a
        request may arrive; then the timer is armed for the next periodic run. */
    method RunFunction(end: real, asked: bool)
      requires Parameters() && refilled == now <= end && 0.0 <= credit <= Cap()
      requires Fit(starts + [now], ends + [end], now, end)
      modifies `now, `timer, `tick, `run, `lastRun, `starts, `ends
      ensures Valid() && Snap() == Ran(Constants(), old(Snap()), end, asked)
    {
      FinishRun(end, asked);
      JustRan(old(now));
    }

    method FinishRun(end: real, asked: bool)
      modifies `now, `timer, `tick, `run, `lastRun, `starts, `ends
      ensures Snap() == Ran(Constants(), old(Snap()), end, asked)
    {
      starts, ends := starts + [now], ends + [end];
      now, tick, run := end, tick || Fires(timer, end), run || asked;
      lastRun := now;
      timer := Some(now + maxInterval);
    }

    /** The times fit when the last run started at `at` and ended at `end`. */
    ghost predicate Fit(starts: seq<real>, ends: seq<real>, at: real, end: real)
      reads `credit, `looping, `throttles
    {
      && WellTimed(starts, ends, looping, maxInterval)
      && (minInterval > 0.0 ==> RateBounded(starts, minInterval, Cap()))
      && CreditIs(starts, credit, at, minInterval, Cap())
      && AllAnswered(throttles, starts, end + minInterval, end, Some(end + maxInterval))
    }

    lemma RunFits(end: real)
      requires Parameters() && Recorded() && Due() && Answered() && now <= end
      requires refilled == now && 0.0 <= credit <= Cap()
      requires MayStart() && CreditIs(starts + [now], credit, now, minInterval, Cap())
      ensures Fit(starts + [now], ends + [end], now, end)
    {
      assert now <= Deadline();
      WellTimedGrows(starts, ends, looping, maxInterval, now, end);
      RunAnswers(throttles, starts, lastRun + minInterval, timer, now, end + minInterval, end, Some(end + maxInterval));
    }

    lemma JustRan(at: real)
      requires Parameters() && HasRun() && |starts| == |ends| && 0.0 <= credit <= Cap()
      requires starts[|starts| - 1] == refilled == at <= now == lastRun == ends[|ends| - 1]
      requires Fit(starts, ends, at, now) && timer == Some(now + maxInterval)
      ensures Valid()
    {
      assert Limited();
      assert Recorded();
      assert Armed();
    }

    method RunAccepted(end: real, asked: bool)
      requires Parameters() && Recorded() && Due() && Answered() && now <= end
      requires refilled == now && 0.0 <= credit <= Cap()
      requires MayStart() && CreditIs(starts + [now], credit, now, minInterval, Cap())
      modifies `now, `timer, `tick, `run, `lastRun, `starts, `ends
      ensures Valid() && Snap() == Ran(Constants(), old(Snap()), end, asked)
    {
      RunFits(end);
      RunFunction(end, asked);
    }

    /** The refused branch: sets the timer for the next possible time, unless the periodic run
        comes no later anyway. */
    method Reschedule()
      requires Parameters() && Limited() && Recorded() && Due() && Answered()
      requires HasRun() && now < lastRun + minInterval
      modifies `timer, `throttles
      ensures Valid() && Snap() == Refused(Constants(), old(Snap()))
    {
      var elapsed := now - lastRun;
      var nextPossible := minInterval - elapsed;
      var nextScheduled := maxInterval - elapsed;
      assert nextPossible > 0.0;
      if nextPossible < nextScheduled {
        timer := Some(now + nextPossible);
      }
      throttles := throttles + [Throttle(now, lastRun + minInterval)];
      assert Armed();
    }

    /** Runs the function if the limiter accepts, and otherwise sets the timer for the next
        possible time. */
    method TryRun(time: real, asked: bool) returns (ran: bool)
      requires Parameters() && Limited() && Recorded() && Due() && Answered() && time >= 0.0
      modifies this
      ensures Valid() && looping == old(looping)
      ensures Snap() == Attempted(Constants(), old(Snap()), time, asked)
      ensures ran <==> old(MayStart())
      ensures !ran ==> HasRun() && now < lastRun + minInterval
    {
      ghost var s := Snap();
      AttemptedBy(Constants(), s, time, asked);
      ran := TryAccept();
      assert Snap() == s;
      if ran {
        RunAccepted(now + time, asked);
      } else {
        Reschedule();
      }
    }

    /** Without a minimum interval the bucket neither fills nor empties, and any start is allowed. */
    lemma FreeStart()
      requires Parameters() && Limited() && Recorded() && minInterval == 0.0
      ensures MayStart() && CreditIs(starts + [now], credit, now, minInterval, Cap())
    {
      var more := starts + [now];
      TimesZero(burstRuns);
      assert credit == Cap();
      assert Ordered(more) by {
        assert forall i :: 0 <= i < |starts| ==> starts[i] <= starts[|starts| - 1];
      }
      NoIntervalNoBound(more, Cap());
      forall i: nat | i < |more|
        ensures credit <= LeftFrom(more, now, minInterval, Cap(), i)
      {
        TimesZero(|more| - i);
      }
    }

    /** Asks for a run; a second request while one is queued is dropped. */
    method Run()
      requires Valid()
      modifies `run
      ensures Valid() && Snap() == old(Snap()).(run := true)
    {
      run := true;
    }

    /** Time passes while `Loop` waits with nothing to take, at most until the timer fires. */
    method Elapse(time: real)
      requires Valid() && CanWait(Snap(), time)
      modifies `now, `timer, `tick
      ensures Valid() && Snap() == Waited(old(Snap()), time)
    {
      WaitAnswers(throttles, starts, lastRun + minInterval, now, now + time, timer);
      Advance(time);
      assert Limited();
      assert Recorded();
    }

    method Advance(time: real)
      modifies `now, `timer, `tick
      ensures Snap() == Waited(old(Snap()), time)
    {
      now := now + time;
      if Fires(timer, now) {
        timer, tick := None, true;
      }
    }

    /** Uses up the tick for one attempt. */
    method TakeTick(time: real, asked: bool) returns (ran: bool)
      requires Valid() && tick && time >= 0.0
      modifies this
      ensures Valid() && looping == old(looping) && (ran <==> old(MayStart()))
      ensures Snap() == Attempted(Constants(), old(Snap()).(tick := false), time, asked)
      ensures !ran ==> HasRun() && now < lastRun + minInterval
    {
      tick := false;
      ran := TryRun(time, asked);
    }

    /** Uses up the request for one attempt. */
    method TakeRequest(time: real, asked: bool) returns (ran: bool)
      requires Valid() && run && time >= 0.0
      modifies this
      ensures Valid() && looping == old(looping) && (ran <==> old(MayStart()))
      ensures Snap() == Attempted(Constants(), old(Snap()).(run := false), time, asked)
      ensures !ran ==> HasRun() && now < lastRun + minInterval
    {
      run := false;
      ran := TryRun(time, asked);
    }

    /** A waiting loop never gets stuck: a tick or a request is there to be taken, or the timer is
        armed and time can pass until it fires. */
    lemma NeverStuck()
      requires Valid()
      ensures tick || run || (timer.Some? && now <= timer.value <= Deadline())
    {
    }
  }

  method MakeMove(bfr: BoundedFrequencyRunner, m: Move)
    requires bfr.Valid()
    modifies bfr
    ensures bfr.Valid() && bfr.looping == old(bfr.looping)
    ensures bfr.Snap() == Moved(bfr.Constants(), old(bfr.Snap()), m)
  {
    match m {
      case Wait(time) =>
        if !bfr.tick && !bfr.run && time >= 0.0 && (bfr.timer.Some? ==> bfr.now + time <= bfr.timer.value) {
          bfr.Elapse(time);
        }
      case Ask =>
        bfr.Run();
      case Tick(time, asked) =>
        if bfr.tick && time >= 0.0 {
          var _ := bfr.TakeTick(time, asked);
        }
      case Request(time, asked) =>
        if bfr.run && time >= 0.0 {
          var _ := bfr.TakeRequest(time, asked);
        }
    }
  }

  /** The loop, under every schedule of requests, ticks, stale ticks and waiting: it plays the
      schedule and stays valid. */
  method Loop(bfr: BoundedFrequencyRunner, schedule: seq<Move>)
    requires bfr.Valid()
    modifies bfr
    ensures bfr.Valid() && bfr.looping == old(bfr.looping)
    ensures bfr.Snap() == Played(bfr.Constants(), old(bfr.Snap()), schedule)
  {
    for i := 0 to |schedule|
      invariant bfr.Valid() && bfr.looping == old(bfr.looping)
      invariant bfr.Snap() == Played(bfr.Constants(), old(bfr.Snap()), schedule[..i])
    {
      assert schedule[..i + 1][..i] == schedule[..i];
      MakeMove(bfr, schedule[i]);
    }
    assert schedule[..|schedule|] == schedule;
  }

  /** What has been recorded stays. */
  lemma {:induction false} HistoryGrows(c: Settings, s: Snapshot, schedule: seq<Move>)
    ensures var e := Played(c, s, schedule);
            s.starts <= e.starts && s.ends <= e.ends && s.throttles <= e.throttles
  {
    if schedule != [] {
      HistoryGrows(c, s, schedule[..|schedule| - 1]);
    }
  }

  // ---------------------------------------------------------------- nothing is lost

  /** An attempt made in state `b` and leading to `e`: one start, or one refusal, at that time. */
  ghost predicate AttemptMade(b: Snapshot, e: Snapshot) {
    || (e.starts == b.starts + [b.now] && e.throttles == b.throttles)
    || (e.starts == b.starts && |e.throttles| == |b.throttles| + 1 && b.throttles <= e.throttles
        && e.throttles[|b.throttles|].at == b.now)
  }

  /** Move `n` of the schedule takes what `request` says from its channel and makes an attempt. */
  ghost predicate AttemptsAt(c: Settings, s: Snapshot, schedule: seq<Move>, n: nat, request: bool)
    requires n < |schedule|
  {
    var b, e := Played(c, s, schedule[..n]), Played(c, s, schedule[..n + 1]);
    && (if request then schedule[n].Request? && b.run else schedule[n].Tick? && b.tick)
    && AttemptMade(b, e)
  }

  /** A request leaves the channel only for an attempt, and so does a tick. */
  lemma MoveKeeps(c: Settings, s: Snapshot, m: Move)
    ensures var e := Moved(c, s, m);
            && (s.run && !e.run ==> m.Request? && AttemptMade(s, e))
            && (s.tick && !e.tick ==> m.Tick? && AttemptMade(s, e))
            && s.now <= e.now
  {
  }

  lemma {:induction false} PlayedOneMore(c: Settings, s: Snapshot, schedule: seq<Move>, n: nat)
    requires n < |schedule|
    ensures Played(c, s, schedule[..n + 1]) == Moved(c, Played(c, s, schedule[..n]), schedule[n])
  {
    var upTo := schedule[..n + 1];
    assert upTo[..|upTo| - 1] == schedule[..n] && upTo[|upTo| - 1] == schedule[n];
  }

  /** Time does not go back. */
  lemma {:induction false} TimePasses(c: Settings, s: Snapshot, schedule: seq<Move>, a: nat, b: nat)
    requires a <= b <= |schedule|
    ensures Played(c, s, schedule[..a]).now <= Played(c, s, schedule[..b]).now
    decreases b - a
  {
    if a < b {
      TimePasses(c, s, schedule, a, b - 1);
      PlayedOneMore(c, s, schedule, b - 1);
      MoveKeeps(c, Played(c, s, schedule[..b - 1]), schedule[b - 1]);
    }
  }

  /** What sits in a channel after `a` moves is still there after `b`, or a move in between took it
      and made an attempt. */
  lemma {:induction false} NothingIsLost(c: Settings, s: Snapshot, schedule: seq<Move>, a: nat, b: nat, request: bool)
    requires a <= b <= |schedule|
    requires var x := Played(c, s, schedule[..a]); if request then x.run else x.tick
    ensures var y := Played(c, s, schedule[..b]);
            || (if request then y.run else y.tick)
            || exists n: nat :: a <= n < b && AttemptsAt(c, s, schedule, n, request)
    decreases b - a
  {
    if a < b {
      NothingIsLost(c, s, schedule, a, b - 1, request);
      var x := Played(c, s, schedule[..b - 1]);
      PlayedOneMore(c, s, schedule, b - 1);
      MoveKeeps(c, x, schedule[b - 1]);
      if (if request then x.run else x.tick) && !(if request then Moved(c, x, schedule[b - 1]).run else Moved(c, x, schedule[b - 1]).tick) {
        assert AttemptsAt(c, s, schedule, b - 1, request);
      }
    }
  }

  /** Every request is still queued at the end, or a later move makes an attempt for it, no earlier
      than it was made. */
  lemma {:induction false} RequestIsAnswered(c: Settings, s: Snapshot, schedule: seq<Move>, a: nat)
    requires a < |schedule| && schedule[a] == Ask
    ensures || Played(c, s, schedule).run
            || exists n: nat :: a < n < |schedule| && AttemptsAt(c, s, schedule, n, true)
                                && Played(c, s, schedule[..a]).now <= Played(c, s, schedule[..n]).now
  {
    PlayedOneMore(c, s, schedule, a);
    NothingIsLost(c, s, schedule, a + 1, |schedule|, true);
    assert schedule[..|schedule|] == schedule;
    if n: nat :| a + 1 <= n < |schedule| && AttemptsAt(c, s, schedule, n, true) {
      TimePasses(c, s, schedule, a, n);
    }
  }

  /** A queued request stays queued as long as no move takes requests. */
  lemma RequestStays(c: Settings, s: Snapshot, schedule: seq<Move>)
    requires s.run && forall n :: 0 <= n < |schedule| ==> !schedule[n].Request?
    ensures Played(c, s, schedule).run
  {
    assert schedule[..0] == [] && schedule[..|schedule|] == schedule;
    NothingIsLost(c, s, schedule, 0, |schedule|, true);
  }

  /** A move that takes a request or a tick makes an attempt: a start now, if and only if that keeps
      the rate bound, for a run of the given length; otherwise a refusal. */
  lemma TakingAttempts(c: Settings, s: Snapshot, time: real, asked: bool)
    requires time >= 0.0
    ensures s.run ==> AttemptMade(s, Moved(c, s, Request(time, asked)))
    ensures s.tick ==> AttemptMade(s, Moved(c, s, Tick(time, asked)))
    ensures forall e | (s.run && e == Moved(c, s, Request(time, asked))) || (s.tick && e == Moved(c, s, Tick(time, asked))) ::
              && (e.starts == s.starts + [s.now] <==> RateBounded(s.starts + [s.now], c.minInterval, c.cap))
              && (e.starts != s.starts ==> e.ends == s.ends + [s.now + time] && e.now == e.lastRun == s.now + time)
    ensures s.run ==>
              var e := Moved(c, s, Request(time, asked)); e.run <==> asked && e.starts != s.starts
    ensures s.tick ==>
              var e := Moved(c, s, Tick(time, asked));
              e.tick <==> e.starts != s.starts && s.timer.Some? && s.timer.value <= s.now + time
  {
  }

  /** A request that arrives while the function runs is queued. */
  lemma RequestDuringRun(c: Settings, s: Snapshot, time: real)
    requires RateBounded(s.starts + [s.now], c.minInterval, c.cap)
    ensures Attempted(c, s, time, true).run
  {
  }

  /** A timer that comes due during a move leaves its tick. */
  lemma DueTimerTicks(c: Settings, s: Snapshot, m: Move)
    requires s.timer.Some? && s.now < s.timer.value <= Moved(c, s, m).now
    ensures Moved(c, s, m).tick
  {
  }

  /** An armed timer is followed, if nothing else happens, by a run at exactly its deadline. */
  method AwaitTimer(bfr: BoundedFrequencyRunner)
    requires bfr.Valid() && bfr.timer.Some? && !bfr.tick && !bfr.run
    modifies bfr
    ensures bfr.Valid() && bfr.starts == old(bfr.starts) + [old(bfr.timer.value)]
    ensures !bfr.tick && !bfr.run && bfr.timer == Some(old(bfr.timer.value) + bfr.maxInterval)
  {
    var deadline := bfr.timer.value;
    bfr.Elapse(deadline - bfr.now);
    assert bfr.tick && bfr.now == deadline;
    AttemptedBy(bfr.Constants(), bfr.Snap().(tick := false), 0.0, false);
    var ran := bfr.TakeTick(0.0, false);
  }

  /** What a valid state says about the past, in the terms of the documentation. */
  lemma Guarantees(bfr: BoundedFrequencyRunner)
    requires bfr.Valid()
    ensures bfr.timer.Some? || bfr.tick
    ensures bfr.now <= bfr.Deadline()
    ensures forall i :: 0 <= i < |bfr.starts| - 1 ==> GapFits(bfr.starts, bfr.ends, bfr.maxInterval, i)
    ensures bfr.minInterval > 0.0 ==>
              forall lo, hi :: lo <= hi ==>
                                 CountIn(bfr.starts, lo, hi) as real <= bfr.burstRuns as real + (hi - lo) / bfr.minInterval
    ensures bfr.burstRuns == 1 && bfr.minInterval > 0.0 ==>
              forall i :: 0 < i < |bfr.starts| ==> bfr.starts[i] >= bfr.starts[i - 1] + bfr.minInterval
    ensures forall t :: t in bfr.throttles && t.due < bfr.now ==> Served(t, bfr.starts)
  {
    if bfr.minInterval > 0.0 {
      forall lo, hi | lo <= hi
        ensures CountIn(bfr.starts, lo, hi) as real <= bfr.burstRuns as real + (hi - lo) / bfr.minInterval
      {
        WindowBound(bfr.starts, bfr.minInterval, bfr.burstRuns, lo, hi);
      }
      if bfr.burstRuns == 1 {
        forall i | 0 < i < |bfr.starts|
          ensures bfr.starts[i] >= bfr.starts[i - 1] + bfr.minInterval
        {
          PairIsSpaced(bfr.starts, bfr.minInterval, i);
        }
      }
    }
  }

  lemma PairIsSpaced(starts: seq<real>, minInterval: real, i: nat)
    requires 0 < i < |starts| && RateBounded(starts, minInterval, Times(1, minInterval))
    ensures starts[i] >= starts[i - 1] + minInterval
  {
    assert StretchFits(starts, minInterval, Times(1, minInterval), i - 1, i);
    assert Times(2, minInterval) == Times(1, minInterval) + minInterval;
  }

  // ---------------------------------------------------------------- from completion to the next start

  /** With burst 1 an attempt is accepted if and only if `minInterval` has passed since the last
      start. */
  lemma BurstOneAcceptsIff(starts: seq<real>, minInterval: real, at: real)
    requires RateBounded(starts, minInterval, Times(1, minInterval))
    ensures RateBounded(starts + [at], minInterval, Times(1, minInterval)) <==>
            starts == [] || at >= starts[|starts| - 1] + minInterval
  {
    var more, n := starts + [at], |starts|;
    if RateBounded(more, minInterval, Times(1, minInterval)) && n > 0 {
      assert StretchFits(more, minInterval, Times(1, minInterval), n - 1, n);
      assert Times(2, minInterval) == Times(1, minInterval) + minInterval;
    }
    if starts == [] || at >= starts[n - 1] + minInterval {
      forall i: nat, j: nat | i <= j < |more|
        ensures StretchFits(more, minInterval, Times(1, minInterval), i, j)
      {
        if j < n {
          assert StretchFits(starts, minInterval, Times(1, minInterval), i, j);
        } else if i < n {
          assert StretchFits(starts, minInterval, Times(1, minInterval), i, n - 1);
          assert Times(n - i + 1, minInterval) == Times(n - i, minInterval) + minInterval;
        }
      }
    }
  }

  ghost predicate Accepted(starts: seq<real>, minInterval: real, at: real) {
    RateBounded(starts + [at], minInterval, Times(1, minInterval))
  }

  /** With burst 1, whatever is accepted after a run has ended keeps `minInterval` from its completion
      if and only if the run took no time. */
  lemma CompletionSpacingIff(starts: seq<real>, minInterval: real, end: real)
    requires RateBounded(starts, minInterval, Times(1, minInterval)) && minInterval > 0.0
    requires starts != [] && starts[|starts| - 1] <= end
    ensures (forall at :: end <= at && Accepted(starts, minInterval, at) ==> end + minInterval <= at) <==>
            end == starts[|starts| - 1]
  {
    var start := starts[|starts| - 1];
    var first := if end <= start + minInterval then start + minInterval else end;
    BurstOneAcceptsIff(starts, minInterval, first);
    assert Accepted(starts, minInterval, first);
    forall at | end <= at && Accepted(starts, minInterval, at)
      ensures start + minInterval <= at
    {
      BurstOneAcceptsIff(starts, minInterval, at);
    }
  }

  /** A run as long as `minInterval` may be followed by the next with no gap at all. */
  method RunBackToBack() returns (bfr: BoundedFrequencyRunner)
    ensures fresh(bfr) && bfr.Valid() && bfr.minInterval == 1.0 && bfr.burstRuns == 1
    ensures bfr.starts == [0.0, 1.0] && |bfr.ends| == 2 && bfr.ends[0] == 1.0
  {
    bfr := new BoundedFrequencyRunner(1.0, 5.0, 1, 0.0);
    bfr.Run();
    BurstOneAcceptsIff([], 1.0, 0.0);
    assert [] + [0.0] == [0.0];
    var ran := bfr.TakeRequest(1.0, true);
    BurstOneAcceptsIff([0.0], 1.0, 1.0);
    assert bfr.starts == [0.0];
    ran := bfr.TakeRequest(1.0, false);
  }
}
