/** The countdown engine as values: one stage-advance step, repeated steps, and
    what one animation frame does to the countdown and its time baseline. */
module Countdown {

  import opened Wrappers
  import opened StageTable

  /** What the light shows: a stage and the seconds left in it. */
  datatype Light = Light(stage: Stage, secs: nat)

  /** The light as first shown: the first stage with its full duration. */
  const Initial: Light := Light(Order[0], Default.duration[Order[0]])

  /** The table gives the fallback stage a duration, so that falling back
      always yields a number of seconds. */
  predicate HasFallback(tbl: Table) {
    Order[0] in tbl.duration
  }

  /** The seconds left are within the duration of the stage shown. */
  predicate InRange(tbl: Table, c: Light) {
    c.stage in tbl.duration && c.secs <= tbl.duration[c.stage]
  }

  /** The stage a transition moves to: the table's successor, or the first
      stage when the table has none. */
  function Successor(tbl: Table, s: Stage): Stage
  {
    if s in tbl.next then tbl.next[s] else Order[0]
  }

  /** The step reports a configuration error: a transition whose stage has no
      duration in the table. */
  predicate Diagnoses(tbl: Table, c: Light) {
    c.secs == 0 && Successor(tbl, c.stage) !in tbl.duration
  }

  /** One stage-advance step: count down one second, or, at zero, move to the
      next stage with its full duration, falling back to the first stage when
      the table lacks the entry needed. */
  function Advance(tbl: Table, c: Light): (r: Light)
    requires HasFallback(tbl)
    // counting down keeps the stage
    ensures c.secs > 0 ==> r.stage == c.stage && r.secs == c.secs - 1
    // a transition always lands on a stage the table times, at its full duration
    ensures c.secs == 0 ==> r.stage in tbl.duration && r.secs == tbl.duration[r.stage]
    ensures c.secs == 0 && c.stage in tbl.next && tbl.next[c.stage] in tbl.duration
         ==> r == Light(tbl.next[c.stage], tbl.duration[tbl.next[c.stage]])
    // a missing transition or a missing duration falls back to the first stage
    ensures c.secs == 0 && c.stage !in tbl.next ==> r.stage == Order[0]
    ensures Diagnoses(tbl, c) ==> r == Light(Order[0], tbl.duration[Order[0]])
    // the seconds left never exceed the stage's duration
    ensures InRange(tbl, c) ==> InRange(tbl, r)
  {
    if c.secs == 0 then
      var nextStage := Successor(tbl, c.stage);
      if nextStage in tbl.duration then Light(nextStage, tbl.duration[nextStage])
      else Light(Order[0], tbl.duration[Order[0]])
    else
      Light(c.stage, c.secs - 1)
  }

  /** `n` stage-advance steps in a row; any number of them keeps the seconds
      left within the stage's duration. */
  function Steps(tbl: Table, c: Light, n: nat): (r: Light)
    requires HasFallback(tbl)
    ensures InRange(tbl, c) ==> InRange(tbl, r)
    decreases n
  {
    if n == 0 then c else Steps(tbl, Advance(tbl, c), n - 1)
  }

  /** A table that defines every stage never reports an error. */
  lemma WellFormedNeverDiagnoses(tbl: Table, c: Light)
    requires WellFormed(tbl)
    ensures !Diagnoses(tbl, c)
  {
  }

  /** With the default table a transition moves to `Next` and loads `Duration`. */
  lemma AdvanceDefault(c: Light)
    ensures c.secs == 0 ==> Advance(Default, c) == Light(Next(c.stage), Duration(Next(c.stage)))
    ensures c.secs > 0 ==> Advance(Default, c) == Light(c.stage, c.secs - 1)
  {
    DefaultWellFormed();
  }

  /** Steps compose: `a` steps then `b` steps are `a + b` steps. */
  lemma {:induction false} StepsAdd(tbl: Table, c: Light, a: nat, b: nat)
    requires HasFallback(tbl)
    ensures Steps(tbl, Steps(tbl, c, a), b) == Steps(tbl, c, a + b)
    decreases a
  {
    if a > 0 {
      StepsAdd(tbl, Advance(tbl, c), a - 1, b);
    }
  }

  /** Within a stage, each step takes exactly one second off. */
  lemma {:induction false} CountsDown(tbl: Table, c: Light, j: nat)
    requires HasFallback(tbl)
    requires j <= c.secs
    ensures Steps(tbl, c, j) == Light(c.stage, c.secs - j)
    decreases j
  {
    if j > 0 {
      CountsDown(tbl, Advance(tbl, c), j - 1);
    }
  }

  /** A stage showing `k` seconds left is left after exactly `k + 1` steps
      (zero is shown too), for the table's successor at its full duration. */
  lemma {:induction false} StageLasts(tbl: Table, c: Light)
    requires WellFormed(tbl)
    ensures HasFallback(tbl)
    ensures Steps(tbl, c, c.secs) == Light(c.stage, 0)
    ensures Steps(tbl, c, c.secs + 1)
         == Light(tbl.next[c.stage], tbl.duration[tbl.next[c.stage]])
  {
    CountsDown(tbl, c, c.secs);
    StepsAdd(tbl, c, c.secs, 1);
  }

  /** With the default table a full cycle from the start of any stage takes
      (5 + 1) + (4 + 1) + (2 + 1) = 14 steps and returns to where it began. */
  lemma DefaultPeriod(s: Stage)
    ensures Steps(Default, Light(s, Duration(s)), 14) == Light(s, Duration(s))
  {
    DefaultWellFormed();
    var c0 := Light(s, Duration(s));
    var c1 := Light(Next(s), Duration(Next(s)));
    var c2 := Light(Next(Next(s)), Duration(Next(Next(s))));
    StageLasts(Default, c0);
    StageLasts(Default, c1);
    StageLasts(Default, c2);
    CycleOfThree(s);
    StepsAdd(Default, c0, Duration(s) + 1, Duration(Next(s)) + 1);
    StepsAdd(Default, c0, Duration(s) + Duration(Next(s)) + 2, Duration(Next(Next(s))) + 1);
    assert Duration(s) + Duration(Next(s)) + Duration(Next(Next(s))) == 11 by {
      DefaultTable();
    }
  }

  /** From the initial light, red is still shown (at zero) after five steps and
      green, at four seconds, appears on the sixth. */
  lemma FirstTransition()
    ensures Initial == Light(Red, 5)
    ensures Steps(Default, Initial, 5) == Light(Red, 0)
    ensures Steps(Default, Initial, 6) == Light(Green, 4)
  {
    DefaultWellFormed();
    StageLasts(Default, Initial);
  }

  /** Whole seconds from `last` to `now` (milliseconds), rounded down as
      `Math.floor` does, for a negative gap as well. */
  function WholeSeconds(last: int, now: int): (r: int)
    ensures r * 1000 <= now - last < r * 1000 + 1000
    ensures r >= 1 <==> now - last >= 1000
  {
    (now - last) / 1000
  }

  /** The countdown with its time baseline: the time the countdown is measured
      from, set by a start press, by the first frame if none is set, and by
      every frame that advances it. */
  datatype Timer = Timer(light: Light, lastTick: Option<int>)

  /** What one animation frame at time `now` does: the first frame only records
      the baseline; a later frame applies at most one step, and only when a
      whole second has passed since the baseline, which then moves to `now`. */
  function TickStep(tbl: Table, s: Timer, now: int): (r: Timer)
    requires HasFallback(tbl)
    ensures r.light == s.light || r.light == Advance(tbl, s.light)
    ensures r.lastTick.Some?
    ensures s.lastTick.None? ==> r == Timer(s.light, Some(now))
  {
    var last := if s.lastTick.None? then now else s.lastTick.value;
    if WholeSeconds(last, now) >= 1 then Timer(Advance(tbl, s.light), Some(now))
    else Timer(s.light, Some(last))
  }

  /** A frame advances the countdown if and only if at least 1000 ms passed
      since the baseline; otherwise it changes nothing. */
  lemma TickNeedsWholeSecond(tbl: Table, c: Light, last: int, now: int)
    requires HasFallback(tbl)
    ensures now - last >= 1000 ==> TickStep(tbl, Timer(c, Some(last)), now) == Timer(Advance(tbl, c), Some(now))
    ensures now - last < 1000 ==> TickStep(tbl, Timer(c, Some(last)), now) == Timer(c, Some(last))
  {
  }

  /** However long the gap, one frame is one step at most: a seven-second
      stall at yellow with zero left moves to red at five, where seven steps
      would have reached green at four; at yellow with two left it only takes
      one second off. */
  lemma LongStallIsOneStep(last: int)
    ensures TickStep(Default, Timer(Light(Yellow, 0), Some(last)), last + 7000)
         == Timer(Light(Red, 5), Some(last + 7000))
    ensures Steps(Default, Light(Yellow, 0), 7) == Light(Green, 4)
    ensures TickStep(Default, Timer(Light(Yellow, 2), Some(last)), last + 7000)
         == Timer(Light(Yellow, 1), Some(last + 7000))
  {
    DefaultWellFormed();
    var c := Light(Yellow, 0);
    StageLasts(Default, c);
    StageLasts(Default, Light(Red, 5));
    StepsAdd(Default, c, 1, 6);
  }
}
