// The background timer: three fixed grids (heartbeat, cron, agent guard), due
// reminders and tasks, and one wait that ends at the earliest of their deadlines
// or when a deadline changes. Times are milliseconds of a clock that never runs back.
module BgTimer {
  import opened Wrappers

  const HEARTBEAT: nat := 30_000
  const CRON: nat := 60_000
  const GUARD: nat := 10_000
  const SLICE: nat := 5_000
  const RETRY: nat := 250
  const GENERATIONS: nat := 0x1_0000_0000_0000_0000

  // ----- a deadline on a grid

  // The first point after now on the grid that deadline is on; deadline itself if it is later.
  function Advanced(deadline: nat, interval: nat, now: nat): (r: nat)
    requires interval > 0
    ensures r > now && (r == deadline || (deadline <= now && r <= now + interval))
    decreases now + interval - deadline
  {
    if deadline <= now then Advanced(deadline + interval, interval, now) else deadline
  }

  method AdvancePeriodicDeadline(deadline: nat, interval: nat, now: nat) returns (r: nat)
    requires interval > 0
    ensures r == Advanced(deadline, interval, now)
  {
    r := deadline;
    while r <= now
      invariant Advanced(r, interval, now) == Advanced(deadline, interval, now)
      decreases now + interval - r
    {
      r := r + interval;
    }
  }

  ghost predicate OnGrid(origin: nat, interval: nat, t: nat) {
    exists k: nat :: t == origin + k * interval
  }

  lemma {:induction false} AdvancedIsOnGrid(origin: nat, interval: nat, deadline: nat, now: nat)
    requires interval > 0 && OnGrid(origin, interval, deadline)
    ensures OnGrid(origin, interval, Advanced(deadline, interval, now))
    decreases now + interval - deadline
  {
    if deadline <= now {
      var k: nat :| deadline == origin + k * interval;
      assert deadline + interval == origin + (k + 1) * interval;
      AdvancedIsOnGrid(origin, interval, deadline + interval, now);
    }
  }

  // No grid point between now and the new deadline is left out.
  lemma AdvancedIsFirst(origin: nat, interval: nat, deadline: nat, now: nat, k: nat)
    requires interval > 0 && OnGrid(origin, interval, deadline) && deadline <= now
    requires now < origin + k * interval
    ensures Advanced(deadline, interval, now) <= origin + k * interval
  {
    AdvancedIsOnGrid(origin, interval, deadline, now);
    var j: nat :| Advanced(deadline, interval, now) == origin + j * interval;
    hide OnGrid;
    if k < j { GridStep(k, j, interval); } else { GridOrder(j, k, interval); }
  }

  lemma GridStep(k: nat, j: nat, interval: nat)
    requires k < j
    ensures k * interval + interval <= j * interval
  {
    GridOrder(k + 1, j, interval);
    assert (k + 1) * interval == k * interval + interval;
  }

  lemma GridOrder(k: nat, j: nat, interval: nat)
    requires k <= j
    ensures k * interval <= j * interval
  {}

  // A deadline that iterations sampled up to now have kept: on its grid, ahead,
  // and at most an interval ahead.
  ghost predicate Kept(origin: nat, interval: nat, next: nat, now: nat) {
    OnGrid(origin, interval, next) && now < next <= now + interval
  }

  // Ticks at times in ticks; between two of them lies a grid point, and next is
  // a grid point after the last. So no interval of the grid holds two ticks.
  ghost predicate Spaced(origin: nat, interval: nat, ticks: seq<nat>, next: nat)
    decreases |ticks|
  {
    && OnGrid(origin, interval, next)
    && (ticks != [] ==>
         ticks[|ticks| - 1] < next
         && exists g: nat :: g <= ticks[|ticks| - 1] && Spaced(origin, interval, Front(ticks), g))
  }

  function Front(ticks: seq<nat>): seq<nat>
    requires ticks != []
  {
    ticks[..|ticks| - 1]
  }

  // A grid point lies after s and not after t.
  ghost predicate PointBetween(origin: nat, interval: nat, s: nat, t: nat) {
    exists g: nat :: OnGrid(origin, interval, g) && s < g <= t
  }

  lemma {:induction false} SpacedTicks(origin: nat, interval: nat, ticks: seq<nat>, next: nat, i: nat, j: nat)
    requires Spaced(origin, interval, ticks, next) && i < j < |ticks|
    ensures PointBetween(origin, interval, ticks[i], ticks[j])
    decreases |ticks|
  {
    var front, last := Front(ticks), ticks[|ticks| - 1];
    var g: nat :| g <= last && Spaced(origin, interval, front, g);
    if j == |ticks| - 1 {
      SpacedBelow(origin, interval, front, g, i);
      assert OnGrid(origin, interval, g) && ticks[i] < g <= ticks[j];
    } else {
      SpacedTicks(origin, interval, front, g, i, j);
      var h: nat :| OnGrid(origin, interval, h) && front[i] < h <= front[j];
      assert OnGrid(origin, interval, h) && ticks[i] < h <= ticks[j];
    }
  }

  lemma {:induction false} SpacedBelow(origin: nat, interval: nat, ticks: seq<nat>, next: nat, i: nat)
    requires Spaced(origin, interval, ticks, next) && i < |ticks|
    ensures ticks[i] < next
    decreases |ticks|
  {
    if i < |ticks| - 1 {
      var g: nat :| g <= ticks[|ticks| - 1] && Spaced(origin, interval, Front(ticks), g);
      SpacedBelow(origin, interval, Front(ticks), g, i);
    }
  }

  // A tick at now, and the deadline advanced.
  lemma TickIsSpaced(origin: nat, interval: nat, ticks: seq<nat>, next: nat, now: nat)
    requires interval > 0 && Spaced(origin, interval, ticks, next) && next <= now
    ensures Spaced(origin, interval, ticks + [now], Advanced(next, interval, now))
    ensures Kept(origin, interval, Advanced(next, interval, now), now)
  {
    AdvancedIsOnGrid(origin, interval, next, now);
    assert Front(ticks + [now]) == ticks;
  }

  // The deadline advanced without a tick.
  lemma SkipIsSpaced(origin: nat, interval: nat, ticks: seq<nat>, next: nat, now: nat)
    requires interval > 0 && Spaced(origin, interval, ticks, next) && next <= now
    ensures Spaced(origin, interval, ticks, Advanced(next, interval, now))
    ensures Kept(origin, interval, Advanced(next, interval, now), now)
  {
    AdvancedIsOnGrid(origin, interval, next, now);
  }

  // Ticks kept their distance, and the deadline is on the grid and not far away.
  ghost predicate OnTime(origin: nat, interval: nat, ticks: seq<nat>, next: nat, sampled: nat) {
    Spaced(origin, interval, ticks, next) && next <= sampled + interval
  }

  // What one sample of the clock does to a grid whose deadline is not far away.
  lemma GridServed(origin: nat, interval: nat, ticks: seq<nat>, next: nat, sampled: nat, now: nat, tick: bool)
    requires interval > 0 && OnTime(origin, interval, ticks, next, sampled) && sampled <= now
    ensures var after := if now >= next then Advanced(next, interval, now) else next;
      && OnTime(origin, interval, if now >= next && tick then ticks + [now] else ticks, after, now)
      && Kept(origin, interval, after, now)
  {
    if now >= next {
      if tick {
        TickIsSpaced(origin, interval, ticks, next, now);
      } else {
        SkipIsSpaced(origin, interval, ticks, next, now);
      }
    }
  }

  // ----- waking up

  function DeadlineOf(due: Option<nat>, unixSecs: nat, now: nat): Option<nat> {
    match due
    case None => None
    case Some(at) => if at <= unixSecs then Some(now) else Some(now + 1000 * (at - unixSecs))
  }

  function Earliest(times: seq<Option<nat>>, otherwise: nat): (r: nat)
    ensures forall t :: t in times && t.Some? ==> r <= t.value
    ensures Some(r) in times || (r == otherwise && forall t :: t in times ==> t.None?)
  {
    if times == [] then otherwise
    else
      assert forall t :: t in times <==> t == times[0] || t in times[1..];
      var least := Earliest(times[1..], otherwise);
      if times[0].None? then least
      else if (forall t :: t in times[1..] ==> t.None?) || times[0].value < least then times[0].value
      else least
  }

  // What the outside says at one moment of the loop.
  datatype View = View(unixSecs: nat, allowDue: bool, allowMaintenance: bool,
                       reminderDue: Option<nat>, taskDue: Option<nat>, delayedWait: nat)

  // When a reminder or task wants the loop to wake: at the retry, if one is set.
  function Pending(v: View, due: Option<nat>, retry: Option<nat>, now: nat): Option<nat> {
    if !v.allowDue then None else if retry.Some? then retry else DeadlineOf(due, v.unixSecs, now)
  }

  // At the retry time, if one is set; or else when the first is due, 1000 ms for each second
  // it lies ahead of the clock; and not at all while due work may not be done.
  ghost predicate Wanted(v: View, due: Option<nat>, retry: Option<nat>, now: nat, at: nat) {
    && v.allowDue
    && (retry.Some? ==> at == retry.value)
    && (retry.None? ==> due.Some?)
    && (retry.None? && due.value <= v.unixSecs ==> at == now)
    && (retry.None? && due.value > v.unixSecs ==> at - now == 1000 * due.value - 1000 * v.unixSecs)
  }

  lemma PendingIsWanted(v: View, due: Option<nat>, retry: Option<nat>, now: nat)
    ensures forall at: nat :: Pending(v, due, retry, now) == Some(at) <==> Wanted(v, due, retry, now, at)
  {}

  // ----- sweeps of due reminders or tasks

  // The retry time after a sample at now, and whether a sweep was scheduled.
  function Sweep(retry: Option<nat>, due: bool, now: nat): (Option<nat>, bool) {
    if !due then (None, false)
    else if retry.None? || retry.value <= now then (Some(now + RETRY), true)
    else (retry, false)
  }

  // A sample of the clock and of the outside: whether something was due, and whether a sweep
  // was scheduled.
  datatype Sample = Sample(now: nat, view: View, due: bool, swept: bool)

  // Reminders count as due exactly where the view of the sample shows them due.
  ghost predicate RemindersShown(log: seq<Sample>) {
    forall i :: 0 <= i < |log| ==>
      (log[i].due <==>
        log[i].view.allowDue && log[i].view.reminderDue.Some? && log[i].view.reminderDue.value <= log[i].view.unixSecs)
  }

  ghost predicate TasksShown(log: seq<Sample>) {
    forall i :: 0 <= i < |log| ==>
      (log[i].due <==>
        log[i].view.allowDue && log[i].view.taskDue.Some? && log[i].view.taskDue.value <= log[i].view.unixSecs)
  }

  // The last samples of log are of the views given.
  ghost predicate SampledViews(log: seq<Sample>, before: nat, views: seq<(View, View)>) {
    && |log| == before + |views|
    && forall i :: 0 <= i < |views| ==> log[before + i].view == views[i].1
  }

  function Earlier(log: seq<Sample>): seq<Sample>
    requires log != []
  {
    log[..|log| - 1]
  }

  // The retry time after the samples of log.
  function RetryAfter(log: seq<Sample>): Option<nat>
    decreases |log|
  {
    if log == [] then None
    else Sweep(RetryAfter(Earlier(log)), log[|log| - 1].due, log[|log| - 1].now).0
  }

  // The samples follow in time, and each scheduled a sweep as the retry time before it says.
  ghost predicate Logged(log: seq<Sample>)
    decreases |log|
  {
    log == [] ||
    var before, s := Earlier(log), log[|log| - 1];
    && Logged(before) && (before != [] ==> before[|before| - 1].now <= s.now)
    && s.swept == Sweep(RetryAfter(before), s.due, s.now).1
  }

  ghost predicate DueFrom(log: seq<Sample>, i: nat, j: nat)
    requires i <= j < |log|
  {
    forall m :: i <= m <= j ==> log[m].due
  }

  // While something stays due, sweeps keep their distance.
  ghost predicate Paced(log: seq<Sample>) {
    forall i, j :: 0 <= i < j < |log| && log[i].swept && log[j].swept && DueFrom(log, i, j) ==>
      log[i].now + 250 <= log[j].now
  }

  // A sample that finds something due is a sweep, or less than the retry time after one.
  ghost predicate Timely(log: seq<Sample>) {
    forall i :: 0 <= i < |log| && log[i].due ==> exists k :: SweptFor(log, k, i)
  }

  ghost predicate SweptFor(log: seq<Sample>, k: nat, i: nat)
    requires i < |log|
  {
    k <= i && log[k].swept && DueFrom(log, k, i) && log[k].now <= log[i].now < log[k].now + 250
  }

  // A set retry time is that of the last sweep, and since then something has been due.
  ghost predicate RetryOf(log: seq<Sample>, k: nat) {
    && k < |log| && log[k].swept && DueFrom(log, k, |log| - 1)
    && RetryAfter(log) == Some(log[k].now + RETRY)
    && forall m :: k < m < |log| ==> !log[m].swept
  }

  lemma {:induction false} RetryMeans(log: seq<Sample>) returns (k: nat)
    requires Logged(log) && log != [] && log[|log| - 1].due
    ensures RetryOf(log, k)
    decreases |log|
  {
    var before, s := Earlier(log), log[|log| - 1];
    if s.swept {
      k := |log| - 1;
    } else {
      k := RetryMeans(before);
      assert forall m :: 0 <= m < |before| ==> log[m] == before[m];
      assert DueFrom(before, k, |before| - 1);
    }
  }

  lemma {:induction false} InOrder(log: seq<Sample>, i: nat, j: nat)
    requires Logged(log) && i <= j < |log|
    ensures log[i].now <= log[j].now
    decreases |log|
  {
    if j < |log| - 1 {
      InOrder(Earlier(log), i, j);
    } else if i < j {
      InOrder(Earlier(log), i, j - 1);
    }
  }

  // Two sweeps with something due all the while between them are at least 250 ms apart.
  lemma {:induction false} SweepsArePaced(log: seq<Sample>, i: nat, j: nat)
    requires Logged(log) && i < j < |log| && log[i].swept && log[j].swept && DueFrom(log, i, j)
    ensures log[i].now + 250 <= log[j].now
    decreases |log|
  {
    var before := Earlier(log);
    assert forall m :: 0 <= m < |before| ==> log[m] == before[m];
    if j < |log| - 1 {
      assert DueFrom(before, i, j);
      SweepsArePaced(before, i, j);
    } else {
      var k := RetryMeans(before);
      InOrder(log, i, k);
    }
  }

  lemma {:induction false} SweepsAreTimely(log: seq<Sample>, i: nat)
    requires Logged(log) && i < |log| && log[i].due
    ensures exists k :: SweptFor(log, k, i)
    decreases |log|
  {
    var before := Earlier(log);
    assert forall m :: 0 <= m < |before| ==> log[m] == before[m];
    if i < |log| - 1 {
      SweepsAreTimely(before, i);
      var k: nat :| SweptFor(before, k, i);
      assert DueFrom(before, k, i);
      assert SweptFor(log, k, i);
    } else {
      var k := RetryMeans(log);
      InOrder(log, k, i);
      if !log[i].swept { NotYet(log); }
      assert SweptFor(log, k, i);
    }
  }

  // A due sample that is no sweep lies before the retry time.
  lemma NotYet(log: seq<Sample>)
    requires Logged(log) && log != [] && log[|log| - 1].due && !log[|log| - 1].swept
    ensures RetryAfter(log).Some? && log[|log| - 1].now < RetryAfter(log).value
  {}

  lemma LoggedSweeps(log: seq<Sample>)
    requires Logged(log)
    ensures Paced(log) && Timely(log)
  {
    forall i, j | 0 <= i < j < |log| && log[i].swept && log[j].swept && DueFrom(log, i, j)
      ensures log[i].now + 250 <= log[j].now
    {
      SweepsArePaced(log, i, j);
    }
    forall i | 0 <= i < |log| && log[i].due ensures exists k :: SweptFor(log, k, i) {
      SweepsAreTimely(log, i);
    }
  }

  lemma SampleLogged(log: seq<Sample>, v: View, due: bool, now: nat)
    requires Logged(log) && (log != [] ==> log[|log| - 1].now <= now)
    ensures var (retry, swept) := Sweep(RetryAfter(log), due, now);
      Logged(log + [Sample(now, v, due, swept)]) && RetryAfter(log + [Sample(now, v, due, swept)]) == retry
  {
    var s := Sample(now, v, due, Sweep(RetryAfter(log), due, now).1);
    assert Earlier(log + [s]) == log;
  }

  // ----- what a wait looks at

  // The clock; then, under the lock, the generation before waiting, and again after.
  datatype Look =
    | AtClock(now: nat)
    | BeforeWait(now: nat, generation: nat, timeout: nat)
    | AfterWait(now: nat, generation: nat)

  // A look that ends the wait: the deadline has come, or the generation is not the one
  // that the wait read first.
  predicate Ends(l: Look, deadline: nat, observed: nat) {
    match l
    case AtClock(now) => deadline <= now
    case BeforeWait(_, generation, _) => generation != observed
    case AfterWait(_, generation) => generation != observed
  }

  // The looks come in turn and in time, and no wait is planned past the deadline or for
  // longer than a slice.
  predicate InTurn(looks: seq<Look>, i: nat, deadline: nat)
    requires i < |looks|
  {
    && (i > 0 ==> looks[i - 1].now <= looks[i].now)
    && match looks[i]
       case AtClock(_) => i == 0 || looks[i - 1].AfterWait?
       case BeforeWait(_, _, timeout) =>
         && i > 0 && looks[i - 1].AtClock? && looks[i - 1].now < deadline
         && timeout == (if deadline - looks[i - 1].now < 5_000 then deadline - looks[i - 1].now else 5_000)
       case AfterWait(_, _) => i > 0 && looks[i - 1].BeforeWait?
  }

  ghost predicate Waiting(looks: seq<Look>, deadline: nat, observed: nat) {
    forall i :: 0 <= i < |looks| ==> InTurn(looks, i, deadline) && !Ends(looks[i], deadline, observed)
  }

  // A whole wait: it ends at the first look that ends it.
  ghost predicate IsWait(looks: seq<Look>, deadline: nat, observed: nat) {
    && looks != [] && Waiting(looks[..|looks| - 1], deadline, observed)
    && InTurn(looks, |looks| - 1, deadline) && Ends(looks[|looks| - 1], deadline, observed)
  }

  lemma OneMoreLook(looks: seq<Look>, l: Look, deadline: nat, observed: nat)
    requires Waiting(looks, deadline, observed) && InTurn(looks + [l], |looks|, deadline)
    ensures Ends(l, deadline, observed) ==> IsWait(looks + [l], deadline, observed)
    ensures !Ends(l, deadline, observed) ==> Waiting(looks + [l], deadline, observed)
  {
    assert (looks + [l])[..|looks + [l]| - 1] == looks;
    forall i | 0 <= i < |looks| ensures InTurn(looks + [l], i, deadline) {
      assert InTurn(looks, i, deadline);
    }
  }

  // A look under the lock, before the deadline, that finds another generation.
  ghost predicate SeesChange(l: Look, deadline: nat, observed: nat) {
    !l.AtClock? && l.now < deadline && l.generation != observed
  }

  lemma OnlyTheLastEnds(looks: seq<Look>, deadline: nat, observed: nat)
    requires IsWait(looks, deadline, observed)
    ensures forall i :: 0 <= i < |looks| - 1 ==> !Ends(looks[i], deadline, observed)
  {
    forall i | 0 <= i < |looks| - 1 ensures !Ends(looks[i], deadline, observed) {
      assert looks[..|looks| - 1][i] == looks[i];
    }
  }

  // A wait ends before its deadline if and only if, before the deadline, it finds that the
  // generation is not the one that it read itself when it began; and it ends at that look.
  lemma EndsEarlyExactly(looks: seq<Look>, deadline: nat, observed: nat)
    requires IsWait(looks, deadline, observed)
    ensures looks[|looks| - 1].now < deadline <==>
            exists i :: 0 <= i < |looks| && SeesChange(looks[i], deadline, observed)
    ensures forall i :: 0 <= i < |looks| && SeesChange(looks[i], deadline, observed) ==> i == |looks| - 1
  {
    OnlyTheLastEnds(looks, deadline, observed);
    var last := |looks| - 1;
    if looks[last].now < deadline { assert SeesChange(looks[last], deadline, observed); }
  }

  lemma FirstAndLast(looks: seq<Look>, deadline: nat, observed: nat)
    requires IsWait(looks, deadline, observed)
    ensures looks[0].now <= looks[|looks| - 1].now
  {
    LooksInOrder(looks, deadline, observed, |looks| - 1);
  }

  lemma {:induction false} LooksInOrder(looks: seq<Look>, deadline: nat, observed: nat, i: nat)
    requires IsWait(looks, deadline, observed) && i < |looks|
    ensures looks[0].now <= looks[i].now
  {
    if i > 0 {
      LooksInOrder(looks, deadline, observed, i - 1);
      if i < |looks| - 1 { assert InTurn(looks[..|looks| - 1], i, deadline); }
    }
  }

  // After the first read the generation was never found changed.
  ghost predicate Unchanged(looks: seq<Look>, observed: nat) {
    forall i :: 0 <= i < |looks| && !looks[i].AtClock? ==> looks[i].generation == observed
  }

  lemma UnchangedLasts(looks: seq<Look>, deadline: nat, observed: nat)
    requires IsWait(looks, deadline, observed) && Unchanged(looks, observed)
    ensures deadline <= looks[|looks| - 1].now
  {
    EndsEarlyExactly(looks, deadline, observed);
  }

  // A wait planned at generation 0 for 10 s. The generation changes before the wait begins,
  // and the wait lasts until its deadline; compared with the generation of the plan, its
  // second look would have ended it at once.
  lemma EarlierChangeIsMissed()
    ensures var looks := [
        AtClock(0), BeforeWait(0, 1, 5_000), AfterWait(5_000, 1),
        AtClock(5_000), BeforeWait(5_000, 1, 5_000), AfterWait(10_000, 1), AtClock(10_000)];
      && IsWait(looks, 10_000, 1) && Unchanged(looks, 1) && looks[|looks| - 1].now == 10_000
      && Ends(looks[1], 10_000, 0)
  {
    var looks := [AtClock(0), BeforeWait(0, 1, 5_000), AfterWait(5_000, 1),
                  AtClock(5_000), BeforeWait(5_000, 1, 5_000), AfterWait(10_000, 1), AtClock(10_000)];
    var front := looks[..|looks| - 1];
    forall i | 0 <= i < |front| ensures InTurn(front, i, 10_000) && !Ends(front[i], 10_000, 1) {}
  }

  // ----- the clock and the wait

  // The clock and the generation of deadlines, shared with all threads.
  class World {
    var now: nat
    var generation: nat
    var spurious: nat     // wake-ups still to come that have no cause

    constructor (now: nat, generation: nat, spurious: nat)
      ensures this.now == now
    {
      this.now, this.generation, this.spurious := now, generation, spurious;
    }

    // Time goes by, and deadlines may change.
    method Pass()
      modifies this`now, this`generation
      ensures now >= old(now)
    {
      var elapsed: int, notified: int := *, *;
      if elapsed > 0 { now := now + elapsed; }
      if notified > 0 { generation := (generation + notified) % GENERATIONS; }
    }

    // A wait is begun only while the generation is the one observed, and is no longer
    // than a slice. It is notified, times out or is woken for nothing.
    method WaitTimeout(timeout: nat, ghost observed: nat)
      requires 0 < timeout <= SLICE && generation == observed
      modifies this
      ensures now >= old(now)
      ensures generation != old(generation) || (now >= old(now) + timeout && spurious == old(spurious))
              || spurious < old(spurious)
    {
      var begun, before := now, generation;
      Pass();
      if generation == before && now < begun + timeout {
        if spurious > 0 { spurious := spurious - 1; } else { now := begun + timeout; }
      }
    }

    // The generation is read first. Then the wait goes on until a look ends it.
    method WaitUntilOrNotified(deadline: nat) returns (ghost looks: seq<Look>)
      modifies this
      ensures now >= old(now) && (now >= deadline || generation != old(generation))
      ensures IsWait(looks, deadline, old(generation))
      ensures old(now) <= looks[0].now && looks[|looks| - 1].now == now
    {
      var observed := generation;
      looks := [];
      while true
        invariant now >= old(now) && observed == old(generation)
        invariant Waiting(looks, deadline, observed) && (looks != [] ==> old(now) <= looks[0].now)
        invariant looks != [] ==> looks[|looks| - 1].AfterWait? && looks[|looks| - 1].now <= now
        decreases spurious, if deadline > now then deadline - now else 0
      {
        hide Waiting, IsWait;
        var sampled := now;
        OneMoreLook(looks, AtClock(sampled), deadline, observed);
        looks := looks + [AtClock(sampled)];
        if deadline <= sampled { return; }
        var timeout := if deadline - sampled < SLICE then deadline - sampled else SLICE;
        Pass();
        OneMoreLook(looks, BeforeWait(now, generation, timeout), deadline, observed);
        looks := looks + [BeforeWait(now, generation, timeout)];
        if generation != observed { return; }
        WaitTimeout(timeout, observed);
        OneMoreLook(looks, AfterWait(now, generation), deadline, observed);
        looks := looks + [AfterWait(now, generation)];
        if generation != observed { return; }
        observed := generation;
      }
    }
  }

  // ----- the loop

  class Timer {
    const world: World
    var nextHeartbeatAt: nat
    var nextCronAt: nat
    var nextAgentGuardAt: nat
    var nextReminderSweepRetryAt: Option<nat>
    var nextTaskSweepRetryAt: Option<nat>
    ghost const origins: (nat, nat, nat)   // of the heartbeat, cron and guard grids
    ghost var heartbeats: seq<nat>
    ghost var crons: seq<nat>
    ghost var guards: seq<nat>
    ghost var reminderLog: seq<Sample>
    ghost var taskLog: seq<Sample>
    ghost var sampled: nat                 // the last time the loop looked at the clock

    // Deadlines are on their grids and not far away, and ticks kept their distance.
    ghost predicate Valid()
      reads this, world
    {
      && sampled <= world.now
      && OnTime(origins.0, HEARTBEAT, heartbeats, nextHeartbeatAt, sampled)
      && OnTime(origins.1, CRON, crons, nextCronAt, sampled)
      && OnTime(origins.2, GUARD, guards, nextAgentGuardAt, sampled)
      && Sampled(reminderLog, nextReminderSweepRetryAt, sampled) && Sampled(taskLog, nextTaskSweepRetryAt, sampled)
      && RemindersShown(reminderLog) && TasksShown(taskLog)
    }

    // As Valid, and all deadlines are ahead of the last sample.
    ghost predicate Settled()
      reads this, world
    {
      && Valid()
      && Kept(origins.0, HEARTBEAT, nextHeartbeatAt, sampled)
      && Kept(origins.1, CRON, nextCronAt, sampled)
      && Kept(origins.2, GUARD, nextAgentGuardAt, sampled)
      && (nextReminderSweepRetryAt.Some? ==> sampled < nextReminderSweepRetryAt.value)
      && (nextTaskSweepRetryAt.Some? ==> sampled < nextTaskSweepRetryAt.value)
    }

    constructor (w: World)
      modifies w
      ensures world == w && Valid()
    {
      world := w;
      var t0 := w.now;
      w.Pass();
      var t1 := w.now;
      w.Pass();
      var t2 := w.now;
      nextHeartbeatAt, nextCronAt, nextAgentGuardAt := t0 + HEARTBEAT, t1 + CRON, t2 + GUARD;
      nextReminderSweepRetryAt, nextTaskSweepRetryAt := None, None;
      origins, heartbeats, crons, guards, sampled := (t0, t1, t2), [], [], [], t2;
      reminderLog, taskLog := [], [];
      new;
      FirstPoint(t0, HEARTBEAT);
      FirstPoint(t1, CRON);
      FirstPoint(t2, GUARD);
    }

    // The wake time is one of the pending deadlines and no later than any of them. Reminders
    // and tasks count while due work may be done: at the retry time, if one is set, or else when
    // the first of them is due, now if that has passed.
    ghost predicate IsWake(now: nat, v: View, wake: nat)
      reads this
    {
      && wake <= nextHeartbeatAt && wake <= nextCronAt && wake <= nextAgentGuardAt && wake <= now + v.delayedWait
      && (forall at: nat :: Wanted(v, v.reminderDue, nextReminderSweepRetryAt, now, at) ==> wake <= at)
      && (forall at: nat :: Wanted(v, v.taskDue, nextTaskSweepRetryAt, now, at) ==> wake <= at)
      && (wake in {nextHeartbeatAt, nextCronAt, nextAgentGuardAt, now + v.delayedWait}
          || Wanted(v, v.reminderDue, nextReminderSweepRetryAt, now, wake)
          || Wanted(v, v.taskDue, nextTaskSweepRetryAt, now, wake))
    }

    // So it is at most 10 s away.
    method NextWakeAt(now: nat, v: View) returns (wake: nat)
      requires Valid() && sampled <= now
      ensures IsWake(now, v, wake) && wake <= now + 10_000
    {
      PendingIsWanted(v, v.reminderDue, nextReminderSweepRetryAt, now);
      PendingIsWanted(v, v.taskDue, nextTaskSweepRetryAt, now);
      hide Wanted, Pending, RemindersShown, TasksShown, Sampled;
      var nextRemindAt := Pending(v, v.reminderDue, nextReminderSweepRetryAt, now);
      var nextTaskAt := Pending(v, v.taskDue, nextTaskSweepRetryAt, now);
      var times := [Some(nextHeartbeatAt), Some(nextCronAt), nextRemindAt, nextTaskAt,
                    Some(now + v.delayedWait), Some(nextAgentGuardAt)];
      assert times[0] in times && times[1] in times && times[2] in times;
      assert times[3] in times && times[4] in times && times[5] in times;
      wake := Earliest(times, now + HEARTBEAT);
    }

    // Each tick that has come is done once and given its next time.
    method ServiceGuard(now: nat)
      requires OnTime(origins.2, GUARD, guards, nextAgentGuardAt, sampled) && sampled <= now
      modifies this`nextAgentGuardAt, this`guards
      ensures OnTime(origins.2, GUARD, guards, nextAgentGuardAt, now)
      ensures Kept(origins.2, GUARD, nextAgentGuardAt, now)
      ensures guards == old(guards) + (if now >= old(nextAgentGuardAt) then [now] else [])
    {
      hide OnTime, Kept, Advanced;
      GridServed(origins.2, GUARD, guards, nextAgentGuardAt, sampled, now, true);
      if now >= nextAgentGuardAt {
        guards := guards + [now];
        nextAgentGuardAt := AdvancePeriodicDeadline(nextAgentGuardAt, GUARD, now);
      }
    }

    method ServiceHeartbeat(now: nat)
      requires OnTime(origins.0, HEARTBEAT, heartbeats, nextHeartbeatAt, sampled) && sampled <= now
      modifies this`nextHeartbeatAt, this`heartbeats
      ensures OnTime(origins.0, HEARTBEAT, heartbeats, nextHeartbeatAt, now)
      ensures Kept(origins.0, HEARTBEAT, nextHeartbeatAt, now)
      ensures heartbeats == old(heartbeats) + (if now >= old(nextHeartbeatAt) then [now] else [])
    {
      hide OnTime, Kept, Advanced;
      GridServed(origins.0, HEARTBEAT, heartbeats, nextHeartbeatAt, sampled, now, true);
      if now >= nextHeartbeatAt {
        heartbeats := heartbeats + [now];
        nextHeartbeatAt := AdvancePeriodicDeadline(nextHeartbeatAt, HEARTBEAT, now);
      }
    }

    // Outside of maintenance the deadline moves on without a tick.
    method ServiceCron(now: nat, allowMaintenance: bool)
      requires OnTime(origins.1, CRON, crons, nextCronAt, sampled) && sampled <= now
      modifies this`nextCronAt, this`crons
      ensures OnTime(origins.1, CRON, crons, nextCronAt, now)
      ensures Kept(origins.1, CRON, nextCronAt, now)
      ensures crons == old(crons) + (if now >= old(nextCronAt) && allowMaintenance then [now] else [])
    {
      hide OnTime, Kept, Advanced;
      GridServed(origins.1, CRON, crons, nextCronAt, sampled, now, allowMaintenance);
      if now >= nextCronAt && allowMaintenance {
        crons := crons + [now];
        nextCronAt := AdvancePeriodicDeadline(nextCronAt, CRON, now);
      } else if now >= nextCronAt {
        nextCronAt := AdvancePeriodicDeadline(nextCronAt, CRON, now);
      }
    }

    method SweepReminders(now: nat, v: View) returns (swept: bool)
      requires Sampled(reminderLog, nextReminderSweepRetryAt, sampled) && sampled <= now && RemindersShown(reminderLog)
      modifies this`nextReminderSweepRetryAt, this`reminderLog
      ensures Sampled(reminderLog, nextReminderSweepRetryAt, now) && RemindersShown(reminderLog)
      ensures var due := v.allowDue && v.reminderDue.Some? && v.reminderDue.value <= v.unixSecs;
        && (swept <==> due && (old(nextReminderSweepRetryAt).None? || old(nextReminderSweepRetryAt).value <= now))
        && nextReminderSweepRetryAt ==
           (if swept then Some(now + 250) else if due then old(nextReminderSweepRetryAt) else None)
        && reminderLog == old(reminderLog) + [Sample(now, v, due, swept)]
      ensures nextReminderSweepRetryAt.Some? ==> now < nextReminderSweepRetryAt.value
    {
      hide Sampled;
      ghost var due := v.allowDue && v.reminderDue.Some? && v.reminderDue.value <= v.unixSecs;
      NextSample(reminderLog, nextReminderSweepRetryAt, sampled, v, due, now);
      swept := false;
      if v.allowDue && v.reminderDue.Some? && v.reminderDue.value <= v.unixSecs {
        if nextReminderSweepRetryAt.None? || nextReminderSweepRetryAt.value <= now {
          swept := true;
          nextReminderSweepRetryAt := Some(now + RETRY);
        }
      } else {
        nextReminderSweepRetryAt := None;
      }
      reminderLog := reminderLog + [Sample(now, v, due, swept)];
    }

    method SweepTasks(now: nat, v: View) returns (swept: bool)
      requires Sampled(taskLog, nextTaskSweepRetryAt, sampled) && sampled <= now && TasksShown(taskLog)
      modifies this`nextTaskSweepRetryAt, this`taskLog
      ensures Sampled(taskLog, nextTaskSweepRetryAt, now) && TasksShown(taskLog)
      ensures var due := v.allowDue && v.taskDue.Some? && v.taskDue.value <= v.unixSecs;
        && (swept <==> due && (old(nextTaskSweepRetryAt).None? || old(nextTaskSweepRetryAt).value <= now))
        && nextTaskSweepRetryAt == (if swept then Some(now + 250) else if due then old(nextTaskSweepRetryAt) else None)
        && taskLog == old(taskLog) + [Sample(now, v, due, swept)]
      ensures nextTaskSweepRetryAt.Some? ==> now < nextTaskSweepRetryAt.value
    {
      hide Sampled;
      ghost var due := v.allowDue && v.taskDue.Some? && v.taskDue.value <= v.unixSecs;
      NextSample(taskLog, nextTaskSweepRetryAt, sampled, v, due, now);
      swept := false;
      if v.allowDue && v.taskDue.Some? && v.taskDue.value <= v.unixSecs {
        if nextTaskSweepRetryAt.None? || nextTaskSweepRetryAt.value <= now {
          swept := true;
          nextTaskSweepRetryAt := Some(now + RETRY);
        }
      } else {
        nextTaskSweepRetryAt := None;
      }
      taskLog := taskLog + [Sample(now, v, due, swept)];
    }

    // The ticks in turn, then the sweeps of what is due.
    method Service(now: nat, v: View) returns (reminderSweep: bool, taskSweep: bool)
      requires Valid() && sampled <= now <= world.now
      modifies this
      ensures Settled() && sampled == now
      ensures guards == old(guards) + (if now >= old(nextAgentGuardAt) then [now] else [])
      ensures heartbeats == old(heartbeats) + (if now >= old(nextHeartbeatAt) then [now] else [])
      ensures crons == old(crons) + (if now >= old(nextCronAt) && v.allowMaintenance then [now] else [])
      ensures var due := v.allowDue && v.reminderDue.Some? && v.reminderDue.value <= v.unixSecs;
        && (reminderSweep <==>
             due && (old(nextReminderSweepRetryAt).None? || old(nextReminderSweepRetryAt).value <= now))
        && nextReminderSweepRetryAt ==
           (if reminderSweep then Some(now + 250) else if due then old(nextReminderSweepRetryAt) else None)
        && reminderLog == old(reminderLog) + [Sample(now, v, due, reminderSweep)]
      ensures var due := v.allowDue && v.taskDue.Some? && v.taskDue.value <= v.unixSecs;
        && (taskSweep <==> due && (old(nextTaskSweepRetryAt).None? || old(nextTaskSweepRetryAt).value <= now))
        && nextTaskSweepRetryAt ==
           (if taskSweep then Some(now + 250) else if due then old(nextTaskSweepRetryAt) else None)
        && taskLog == old(taskLog) + [Sample(now, v, due, taskSweep)]
    {
      hide OnTime, Kept, Sampled, RemindersShown, TasksShown;
      ServiceGuard(now);
      ServiceHeartbeat(now);
      ServiceCron(now, v.allowMaintenance);
      reminderSweep := SweepReminders(now, v);
      taskSweep := SweepTasks(now, v);
      sampled := now;
    }

    // The first half of the loop's body: the wake is planned and waited for. Time passes, and
    // deadlines change, between any two steps. The wait compares generations with the one it
    // reads itself, so a change after the plan and before that does not end it: unless the
    // generation changes again, the wait lasts until the planned wake.
    method PlanAndWait(plan: View)
        returns (ghost planned: nat, ghost wake: nat, ghost observed: nat, ghost looks: seq<Look>)
      requires Valid()
      modifies world
      ensures Valid() && sampled <= planned && looks != [] && looks[|looks| - 1].now <= world.now
      ensures IsWake(planned, plan, wake) && wake <= planned + 10_000
      ensures IsWait(looks, wake, observed) && planned <= looks[0].now
      ensures looks[|looks| - 1].now < wake <==>
              exists i :: 0 <= i < |looks| && SeesChange(looks[i], wake, observed)
      ensures Unchanged(looks, observed) ==> wake <= looks[|looks| - 1].now
    {
      hide OnTime, Waiting, SeesChange, Unchanged, RemindersShown, TasksShown, Wanted, Sampled;
      world.Pass();
      var now := world.now;
      planned := now;
      var next := NextWakeAt(now, plan);
      wake := next;
      world.Pass();
      observed := world.generation;
      looks := world.WaitUntilOrNotified(next);
      EndsEarlyExactly(looks, wake, observed);
      if Unchanged(looks, observed) { UnchangedLasts(looks, wake, observed); }
    }

    // The body of the loop.
    method Iterate(plan: View, view: View)
        returns (ghost planned: nat, ghost wake: nat, ghost observed: nat, ghost looks: seq<Look>)
      requires Valid()
      modifies this, world
      ensures Settled() && old(sampled) <= planned <= sampled <= world.now
      ensures old(IsWake(planned, plan, wake)) && wake <= planned + 10_000
      ensures SampledViews(reminderLog, |old(reminderLog)|, [(plan, view)])
      ensures SampledViews(taskLog, |old(taskLog)|, [(plan, view)])
      ensures old(reminderLog) <= reminderLog && old(taskLog) <= taskLog
      ensures IsWait(looks, wake, observed) && planned <= looks[0].now && looks[|looks| - 1].now <= sampled
      ensures looks[|looks| - 1].now < wake <==>
              exists i :: 0 <= i < |looks| && SeesChange(looks[i], wake, observed)
      ensures Unchanged(looks, observed) ==> wake <= sampled
    {
      hide OnTime, Kept, IsWait, SeesChange, Unchanged, RemindersShown, TasksShown, Wanted, SampledViews, Sampled;
      planned, wake, observed, looks := PlanAndWait(plan);
      FirstAndLast(looks, wake, observed);
      world.Pass();
      var after := world.now;
      ghost var reminders, tasks := reminderLog, taskLog;
      var _, _ := Service(after, view);
      OneView(reminders, reminderLog[|reminders|], plan, view);
      OneView(tasks, taskLog[|tasks|], plan, view);
      world.Pass();
    }

    // Over any number of iterations: no interval of a grid holds two ticks of it, and what the
    // views show as due is swept, at the sample or less than 250 ms before, with sweeps at least
    // 250 ms apart while it stays due.
    method Run(views: seq<(View, View)>)
      requires Valid()
      modifies this, world
      ensures Valid() && (views != [] ==> Settled())
      ensures Apart(origins.0, 30_000, heartbeats) && Apart(origins.1, 60_000, crons)
      ensures Apart(origins.2, 10_000, guards)
      ensures SampledViews(reminderLog, |old(reminderLog)|, views) && SampledViews(taskLog, |old(taskLog)|, views)
      ensures RemindersShown(reminderLog) && TasksShown(taskLog)
      ensures Paced(reminderLog) && Timely(reminderLog) && Paced(taskLog) && Timely(taskLog)
    {
      hide Spaced, OnGrid, Kept, Apart, Logged, IsWait, Paced, Timely, RemindersShown, TasksShown;
      for i := 0 to |views|
        invariant Valid() && (i > 0 ==> Settled())
        invariant SampledViews(reminderLog, |old(reminderLog)|, views[..i])
        invariant SampledViews(taskLog, |old(taskLog)|, views[..i])
      {
        ghost var reminders, tasks := reminderLog, taskLog;
        ghost var _, _, _, _ := Iterate(views[i].0, views[i].1);
        MoreViews(reminders, reminderLog, |old(reminderLog)|, views, i);
        MoreViews(tasks, taskLog, |old(taskLog)|, views, i);
      }
      assert views[..|views|] == views;
      SpacedIsApart(origins.0, HEARTBEAT, heartbeats, nextHeartbeatAt);
      SpacedIsApart(origins.1, CRON, crons, nextCronAt);
      SpacedIsApart(origins.2, GUARD, guards, nextAgentGuardAt);
      LoggedSweeps(reminderLog);
      LoggedSweeps(taskLog);
    }
  }

  lemma OneView(log: seq<Sample>, s: Sample, plan: View, view: View)
    requires s.view == view
    ensures SampledViews(log + [s], |log|, [(plan, view)]) && log <= log + [s]
  {}

  lemma MoreViews(log: seq<Sample>, more: seq<Sample>, before: nat, views: seq<(View, View)>, i: nat)
    requires i < |views| && SampledViews(log, before, views[..i])
    requires log <= more && SampledViews(more, |log|, [views[i]])
    ensures SampledViews(more, before, views[..i + 1])
  {
    assert forall j :: 0 <= j < |log| ==> more[j] == log[j];
    assert more[|log| + 0].view == [views[i]][0].1;
  }

  // The retry time is the one the samples lead to.
  ghost predicate Sampled(log: seq<Sample>, retry: Option<nat>, sampled: nat) {
    && Logged(log) && retry == RetryAfter(log) && (log != [] ==> log[|log| - 1].now <= sampled)
    && (retry.Some? ==> retry.value <= sampled + RETRY)
  }

  lemma NextSample(log: seq<Sample>, retry: Option<nat>, sampled: nat, v: View, due: bool, now: nat)
    requires Sampled(log, retry, sampled) && sampled <= now
    ensures var (next, swept) := Sweep(retry, due, now);
      Sampled(log + [Sample(now, v, due, swept)], next, now) && (next.Some? ==> now < next.value)
  {
    SampleLogged(log, v, due, now);
  }

  lemma FirstPoint(t: nat, interval: nat)
    ensures Spaced(t, interval, [], t + interval)
  {
    assert t + interval == t + 1 * interval;
  }

  ghost predicate Apart(origin: nat, interval: nat, ticks: seq<nat>) {
    forall i, j :: 0 <= i < j < |ticks| ==> PointBetween(origin, interval, ticks[i], ticks[j])
  }

  lemma SpacedIsApart(origin: nat, interval: nat, ticks: seq<nat>, next: nat)
    requires Spaced(origin, interval, ticks, next)
    ensures Apart(origin, interval, ticks)
  {
    forall i, j | 0 <= i < j < |ticks| ensures PointBetween(origin, interval, ticks[i], ticks[j]) {
      SpacedTicks(origin, interval, ticks, next, i, j);
    }
  }
}
