/**
  The scheduler that starts the audits nobody pressed (sweep, blocked and record
  in internal/api/scheduler.go) over the stored schedules and runs
  (internal/store/schedules.go, ActiveRun in internal/store/runs.go).

  What a start or a lookup answers is not the clock's to decide, so it is an
  argument of each sweep.  Store writes succeed.
*/
module Clock {
  import opened Wrappers
  import opened Schedule

  type Id = string

  datatype Reason =
    | NoReason
    | Missed
    | AlreadyRunning(run: nat)
    | Failed(why: string)

  datatype Row = Row(spec: Spec, zone: Zone, due: int, lastRun: Option<nat>, lastError: Reason)

  datatype Run = Run(dataset: Id, active: bool)

  /** One line of what the clock did: the window it decided, when, and how. */
  datatype Entry = Entry(dataset: Id, window: int, at: int, run: Option<nat>, reason: Reason)

  datatype State = State(schedules: map<Id, Row>, runs: seq<Run>, log: seq<Entry>)

  /** Answers from outside: why a start fails, whether the failure left a run behind
      (stopped, or still pending when its database could not be recorded), and why a
      lookup of the active run fails. */
  datatype World = World(
    startError: Id -> Option<string>, leftActive: Id -> Option<bool>, lookupError: Id -> Option<string>)

  // ---- one window ---------------------------------------------------------------------

  predicate HasActive(runs: seq<Run>, dataset: Id) {
    exists i :: 0 <= i < |runs| && runs[i].active && runs[i].dataset == dataset
  }

  /** ActiveRun: the most recent run of the dataset still in flight. */
  function ActiveRun(runs: seq<Run>, dataset: Id): (run: Option<nat>)
    ensures run.Some? ==> run.value < |runs| && runs[run.value].active && runs[run.value].dataset == dataset
    ensures run.Some? ==> forall i :: run.value < i < |runs| && runs[i].dataset == dataset ==> !runs[i].active
    ensures run.None? <==> !HasActive(runs, dataset)
  {
    if runs == [] then None
    else
      var n := |runs| - 1;
      if runs[n].active && runs[n].dataset == dataset then Some(n) else ActiveRun(runs[..n], dataset)
  }

  /** blocked: why this window must not start an audit. */
  function Blocked(w: World, st: State, id: Id, now: int): Reason
    requires id in st.schedules
  {
    var row := st.schedules[id];
    var period := Window(row.spec);
    if period > 0 && now - row.due > period then Missed
    else if w.lookupError(id).Some? then Failed(w.lookupError(id).value)
    else match ActiveRun(st.runs, id) case Some(run) => AlreadyRunning(run) case None => NoReason
  }

  /** record and ScheduleFired: the window, the run and the reason move together. */
  function Record(st: State, id: Id, now: int, next: int, run: Option<nat>, reason: Reason): State
    requires id in st.schedules
  {
    var row := st.schedules[id];
    st.(schedules := st.schedules[id := row.(due := next, lastRun := run, lastError := reason)],
        log := st.log + [Entry(id, row.due, now, run, reason)])
  }

  /** The runs after a start that failed. */
  function WithLeftover(w: World, runs: seq<Run>, id: Id): seq<Run> {
    match w.leftActive(id) case None => runs case Some(active) => runs + [Run(id, active)]
  }

  datatype Swept = Swept(st: State, started: bool)

  /** The body of sweep's loop for one schedule. */
  function Visit(w: World, s: Swept, id: Id, now: int): Swept
    requires id in s.st.schedules
  {
    var row := s.st.schedules[id];
    var next := Next(row.zone, row.spec, now);
    var reason := Blocked(w, s.st, id, now);
    if row.due > now then s
    else if reason != NoReason then s.(st := Record(s.st, id, now, next, None, reason))
    else if s.started then s
    else if w.startError(id).Some? then
      s.(st := Record(s.st.(runs := WithLeftover(w, s.st.runs, id)), id, now, next, None, Failed(w.startError(id).value)))
    else
      var run := |s.st.runs|;
      Swept(Record(s.st.(runs := s.st.runs + [Run(id, true)]), id, now, next, Some(run), NoReason), true)
  }

  function VisitAll(w: World, s: Swept, ids: seq<Id>, now: int): (r: Swept)
    requires forall i :: 0 <= i < |ids| ==> ids[i] in s.st.schedules
    ensures r.st.schedules.Keys == s.st.schedules.Keys
    decreases |ids|
  {
    if ids == [] then s else VisitAll(w, Visit(w, s, ids[0], now), ids[1..], now)
  }

  /** sweep */
  function Sweep(w: World, st: State, listing: Option<seq<Id>>, now: int): State
    requires listing.Some? ==> forall i :: 0 <= i < |listing.value| ==> listing.value[i] in st.schedules
  {
    if listing.None? then st else VisitAll(w, Swept(st, false), listing.value, now).st
  }

  // ---- the scheduler as the program runs it ---------------------------------------------

  class Scheduler {
    var schedules: map<Id, Row>
    var runs: seq<Run>
    var log: seq<Entry>

    constructor (schedules: map<Id, Row>)
      ensures View() == State(schedules, [], [])
    {
      this.schedules := schedules;
      runs, log := [], [];
    }

    function View(): State
      reads this
    {
      State(schedules, runs, log)
    }

    method ScheduleFired(id: Id, now: int, next: int, run: Option<nat>, reason: Reason)
      requires id in schedules
      modifies this`schedules, this`log
      ensures View() == Record(old(View()), id, now, next, run, reason)
    {
      var row := schedules[id];
      log := log + [Entry(id, row.due, now, run, reason)];
      schedules := schedules[id := row.(due := next, lastRun := run, lastError := reason)];
    }

    method StartRun(w: World, id: Id) returns (run: Result<nat, string>)
      modifies this`runs
      ensures w.startError(id).Some? ==> run == Err(w.startError(id).value) && runs == WithLeftover(w, old(runs), id)
      ensures w.startError(id).None? ==> run == Ok(|old(runs)|) && runs == old(runs) + [Run(id, true)]
    {
      if w.startError(id).Some? {
        if w.leftActive(id).Some? {
          runs := runs + [Run(id, w.leftActive(id).value)];
        }
        return Err(w.startError(id).value);
      }
      run := Ok(|runs|);
      runs := runs + [Run(id, true)];
    }

    method SweepOnce(w: World, listing: Option<seq<Id>>, now: int)
      requires listing.Some? ==> forall i :: 0 <= i < |listing.value| ==> listing.value[i] in schedules
      modifies this
      ensures View() == Sweep(w, old(View()), listing, now)
    {
      if listing.None? {
        return;
      }
      var all := listing.value;
      var started := false;
      var i := 0;
      assert all[0..] == all;
      while i < |all|
        invariant 0 <= i <= |all|
        invariant schedules.Keys == old(schedules).Keys
        invariant VisitAll(w, Swept(old(View()), false), all, now) ==
          VisitAll(w, Swept(View(), started), all[i..], now)
      {
        var id := all[i];
        assert all[i..][0] == id && all[i..][1..] == all[i + 1..];
        i := i + 1;
        if schedules[id].due > now {
          continue;
        }
        var next := Next(schedules[id].zone, schedules[id].spec, now);
        var reason := Blocked(w, View(), id, now);
        if reason != NoReason {
          ScheduleFired(id, now, next, None, reason);
          continue;
        }
        if started {
          continue;
        }
        var run := StartRun(w, id);
        if run.Err? {
          ScheduleFired(id, now, next, None, Failed(run.error));
          continue;
        }
        ScheduleFired(id, now, next, Some(run.value), NoReason);
        started := true;
      }
    }
  }

  // ---- what one sweep does ----------------------------------------------------------------

  ghost predicate Distinct(ids: seq<Id>) { forall i, j :: 0 <= i < j < |ids| ==> ids[i] != ids[j] }

  /** Every schedule's next window is later than the instant it is asked from. */
  ghost predicate MovesOn(row: Row) { forall t :: t < Next(row.zone, row.spec, t) }

  lemma ValidRowsMoveOn(row: Row)
    requires Validate(row.spec)
    requires IsWallClock(row.spec) ==> AllSeparate(row.zone, row.spec)
    ensures MovesOn(row)
  {
    forall t ensures t < Next(row.zone, row.spec, t) {
      if IsWallClock(row.spec) {
        NextIsLeastWhenSeparated(row.zone, row.spec, t);
      }
    }
  }

  ghost predicate SameSchedule(a: Row, b: Row) { a.spec == b.spec && a.zone == b.zone }

  /** Decided in a sweep at `now`: one entry for it, the window moved on. */
  ghost predicate DecidedIn(before: State, after: State, id: Id, now: int)
    requires id in before.schedules && id in after.schedules
  {
    var row := before.schedules[id];
    && row.due <= now
    && after.schedules[id].due == Next(row.zone, row.spec, now)
    && exists k :: |before.log| <= k < |after.log| && after.log[k].dataset == id && after.log[k].window == row.due
         && after.log[k].at == now && after.log[k].run == after.schedules[id].lastRun
         && after.log[k].reason == after.schedules[id].lastError
         && (after.log[k].run.Some? <==> after.log[k].reason == NoReason)
  }

  /** Everything a stretch of visits leaves as it was. */
  ghost predicate Extends(before: State, after: State) {
    && before.schedules.Keys == after.schedules.Keys
    && before.log <= after.log && before.runs <= after.runs
    && forall id :: id in before.schedules ==> SameSchedule(before.schedules[id], after.schedules[id])
  }

  /** The entries a stretch of visits adds. */
  ghost predicate AddsOnly(before: State, after: State, ids: seq<Id>, now: int) {
    |before.log| <= |after.log| &&
    forall k :: |before.log| <= k < |after.log| ==>
      after.log[k].dataset in ids && after.log[k].dataset in before.schedules && after.log[k].at == now &&
      after.log[k].window == before.schedules[after.log[k].dataset].due <= now
  }

  lemma VisitDoes(w: World, s: Swept, id: Id, now: int)
    requires id in s.st.schedules
    ensures var r := Visit(w, s, id, now);
      Extends(s.st, r.st) && AddsOnly(s.st, r.st, [id], now) &&
      (r.st.schedules == s.st.schedules || DecidedIn(s.st, r.st, id, now)) &&
      (forall x :: x in s.st.schedules && x != id ==> r.st.schedules[x] == s.st.schedules[x])
  {
    var r := Visit(w, s, id, now);
    if r.st.schedules != s.st.schedules {
      assert r.st.log[|s.st.log|].dataset == id;
    }
  }

  /** A sweep decides each schedule at most once, and every one it leaves alone is
      exactly as it was. */
  lemma {:induction false} VisitAllDoes(w: World, s: Swept, ids: seq<Id>, now: int)
    requires Distinct(ids) && forall i :: 0 <= i < |ids| ==> ids[i] in s.st.schedules
    ensures var r := VisitAll(w, s, ids, now).st;
      Extends(s.st, r) && AddsOnly(s.st, r, ids, now) &&
      (forall id :: id in s.st.schedules ==> r.schedules[id] == s.st.schedules[id] || (id in ids && DecidedIn(s.st, r, id, now)))
    decreases |ids|
  {
    if ids != [] {
      var mid := Visit(w, s, ids[0], now);
      var r := VisitAll(w, mid, ids[1..], now).st;
      VisitDoes(w, s, ids[0], now);
      VisitAllDoes(w, mid, ids[1..], now);
      assert ids[0] !in ids[1..];
      forall id | id in s.st.schedules
        ensures r.schedules[id] == s.st.schedules[id] || (id in ids && DecidedIn(s.st, r, id, now))
      {
        if id == ids[0] && r.schedules[id] != s.st.schedules[id] {
          assert DecidedIn(s.st, mid.st, id, now);
        }
      }
      AddsOnlyJoins(s.st, mid.st, r, ids, now);
    }
  }

  lemma AddsOnlyJoins(a: State, b: State, c: State, ids: seq<Id>, now: int)
    requires ids != [] && Distinct(ids) && a.schedules.Keys == b.schedules.Keys && a.log <= b.log <= c.log
    requires AddsOnly(a, b, [ids[0]], now) && AddsOnly(b, c, ids[1..], now)
    requires forall x :: x in a.schedules && x != ids[0] ==> b.schedules[x] == a.schedules[x]
    ensures AddsOnly(a, c, ids, now)
  {
    forall k | |a.log| <= k < |c.log|
      ensures c.log[k].dataset in ids && c.log[k].dataset in a.schedules && c.log[k].at == now &&
        c.log[k].window == a.schedules[c.log[k].dataset].due <= now
    {
      if k < |b.log| {
        assert c.log[k] == b.log[k];
      } else {
        assert c.log[k].dataset in ids[1..] && ids[0] !in ids[1..];
      }
    }
  }

  /** At most one audit is started per sweep, and only of a dataset that had no
      active run when the sweep began. */
  lemma {:induction false} SweepStartsAtMostOne(w: World, s: Swept, ids: seq<Id>, now: int)
    requires Distinct(ids) && forall i :: 0 <= i < |ids| ==> ids[i] in s.st.schedules
    ensures var r := VisitAll(w, s, ids, now);
      |s.st.log| <= |r.st.log| && AtMostOneStart(s, r.st.log)
    decreases |ids|
  {
    if ids != [] {
      var mid := Visit(w, s, ids[0], now);
      var log := VisitAll(w, mid, ids[1..], now).st.log;
      VisitDoes(w, s, ids[0], now);
      VisitAllDoes(w, mid, ids[1..], now);
      SweepStartsAtMostOne(w, mid, ids[1..], now);
      VisitStarts(w, s, ids[0], now);
      forall d | HasActive(s.st.runs, d) ensures HasActive(mid.st.runs, d) {
        ActiveStays(s.st.runs, mid.st.runs, d);
      }
      forall k | |s.st.log| <= k < |mid.st.log| ensures log[k] == mid.st.log[k] {
      }
    }
  }

  ghost predicate AtMostOneStart(s: Swept, log: seq<Entry>) {
    && (forall k :: |s.st.log| <= k < |log| && log[k].run.Some? ==> !s.started && !HasActive(s.st.runs, log[k].dataset))
    && (forall k, l :: |s.st.log| <= k < l < |log| && log[k].run.Some? ==> log[l].run.None?)
  }

  lemma ActiveStays(runs: seq<Run>, more: seq<Run>, dataset: Id)
    requires runs <= more && HasActive(runs, dataset)
    ensures HasActive(more, dataset)
  {
    var i :| 0 <= i < |runs| && runs[i].active && runs[i].dataset == dataset;
    assert more[i] == runs[i];
  }

  /** A failed start makes a dataset active exactly when it leaves its run pending,
      and no other dataset. */
  lemma FailedStartLeaves(w: World, s: Swept, id: Id, now: int, dataset: Id)
    requires id in s.st.schedules && s.st.schedules[id].due <= now && !s.started
    requires Blocked(w, s.st, id, now) == NoReason && w.startError(id).Some?
    ensures HasActive(Visit(w, s, id, now).st.runs, dataset) <==>
      HasActive(s.st.runs, dataset) || (dataset == id && w.leftActive(id) == Some(true))
  {
    var before, after := s.st.runs, Visit(w, s, id, now).st.runs;
    if HasActive(before, dataset) {
      ActiveStays(before, after, dataset);
    }
    if dataset == id && w.leftActive(id) == Some(true) {
      assert after[|before|] == Run(id, true);
    }
    if i :| 0 <= i < |after| && after[i].active && after[i].dataset == dataset {
      assert i < |before| ==> before[i] == after[i];
    }
  }

  lemma VisitStarts(w: World, s: Swept, id: Id, now: int)
    requires id in s.st.schedules
    ensures var r := Visit(w, s, id, now);
      && |s.st.log| <= |r.st.log| <= |s.st.log| + 1
      && (s.started ==> r.started)
      && s.st.runs <= r.st.runs
      && forall k :: |s.st.log| <= k < |r.st.log| && r.st.log[k].run.Some? ==>
           !s.started && r.started && !HasActive(s.st.runs, r.st.log[k].dataset)
  {
  }

  /** What the reasons mean.  A window is missed when a whole period has gone by: for
      an interval, when the window after it has gone by too.  A run is named as in the
      way exactly when one of the dataset is active and nothing else is. */
  lemma BlockedMeans(w: World, st: State, id: Id, now: int)
    requires id in st.schedules && Validate(st.schedules[id].spec)
    ensures var row := st.schedules[id]; var reason := Blocked(w, st, id, now);
      && (reason == Missed <==> row.due + Window(row.spec) < now)
      && (row.spec.Interval? ==> (reason == Missed <==> Next(row.zone, row.spec, row.due) < now))
      && (reason.Failed? <==> reason != Missed && w.lookupError(id).Some?)
      && (reason.Failed? ==> reason.why == w.lookupError(id).value)
      && (reason.AlreadyRunning? ==> reason.run < |st.runs| && st.runs[reason.run] == Run(id, true))
      && (reason.AlreadyRunning? ==> forall i :: reason.run < i < |st.runs| ==> st.runs[i] != Run(id, true))
      && (reason == NoReason <==> reason != Missed && w.lookupError(id).None? && !HasActive(st.runs, id))
  {
    var row := st.schedules[id];
    assert row.spec.Interval? ==> Next(row.zone, row.spec, row.due) == row.due + Window(row.spec);
  }

  /** For a wall clock schedule too: across days on which its clock is not moved, a
      window is missed exactly when the one after it has gone by. */
  lemma MissedMeansNextPassed(w: World, st: State, id: Id, now: int, day: int, later: int)
    requires id in st.schedules && var row := st.schedules[id];
      && Validate(row.spec) && IsWallClock(row.spec) && NextFiring(row.spec, day, later)
      && row.due == WindowOn(row.zone, row.spec, day)
      && WindowOn(row.zone, row.spec, later) - row.due == Wall(later, row.spec.atMinute) - Wall(day, row.spec.atMinute)
    ensures var row := st.schedules[id];
      Blocked(w, st, id, now) == Missed <==> WindowOn(row.zone, row.spec, later) < now
  {
    var row := st.schedules[id];
    WindowIsPeriod(row.spec, day, later);
  }

  /** After the first start of a sweep no other follows. */
  lemma {:induction false} StartedIsEnough(w: World, s: Swept, ids: seq<Id>, now: int)
    requires s.started && forall i :: 0 <= i < |ids| ==> ids[i] in s.st.schedules
    ensures VisitAll(w, s, ids, now).started && VisitAll(w, s, ids, now).st.runs == s.st.runs
    decreases |ids|
  {
    if ids != [] {
      StartedIsEnough(w, Visit(w, s, ids[0], now), ids[1..], now);
    }
  }

  /** A sweep that finds any schedule due and free to go starts exactly one run, as
      long as starting one works. */
  lemma {:induction false} SweepStartsOne(w: World, s: Swept, ids: seq<Id>, now: int, id: Id)
    requires Distinct(ids) && !s.started && id in ids
    requires forall i :: 0 <= i < |ids| ==> ids[i] in s.st.schedules && w.startError(ids[i]).None?
    requires s.st.schedules[id].due <= now && Blocked(w, s.st, id, now) == NoReason
    ensures var r := VisitAll(w, s, ids, now);
      r.started && |r.st.runs| == |s.st.runs| + 1 && r.st.runs[..|s.st.runs|] == s.st.runs &&
      r.st.runs[|s.st.runs|].active && r.st.runs[|s.st.runs|].dataset in ids
    decreases |ids|
  {
    var mid := Visit(w, s, ids[0], now);
    if mid.started {
      StartedIsEnough(w, mid, ids[1..], now);
    } else {
      SweepStartsOne(w, mid, ids[1..], now, id);
    }
  }

  // ---- what a sweep decides of each schedule ------------------------------------------------

  lemma {:induction false} ActiveRunOfOthers(runs: seq<Run>, more: seq<Run>, dataset: Id)
    requires runs <= more && forall i :: |runs| <= i < |more| ==> more[i].dataset != dataset
    ensures ActiveRun(more, dataset) == ActiveRun(runs, dataset)
    decreases |more|
  {
    if |more| > |runs| {
      var n := |more| - 1;
      assert more[n].dataset != dataset;
      ActiveRunOfOthers(runs, more[..n], dataset);
    } else {
      assert more == runs;
    }
  }

  /** What is done about one schedule changes nothing about why another is blocked. */
  lemma BlockedStays(w: World, s: Swept, id: Id, now: int, other: Id)
    requires id in s.st.schedules && other in s.st.schedules && id != other
    ensures var r := Visit(w, s, id, now);
      r.st.schedules[other] == s.st.schedules[other] && Blocked(w, r.st, other, now) == Blocked(w, s.st, other, now)
  {
    ActiveRunOfOthers(s.st.runs, Visit(w, s, id, now).st.runs, other);
  }

  /** Due, not blocked, and starting it works. */
  predicate Starter(w: World, st: State, id: Id, now: int) {
    && id in st.schedules && st.schedules[id].due <= now
    && Blocked(w, st, id, now) == NoReason && w.startError(id).None?
  }

  ghost predicate StarterBefore(w: World, st: State, ids: seq<Id>, now: int, id: Id) {
    exists j, k :: 0 <= j < k < |ids| && ids[k] == id && Starter(w, st, ids[j], now)
  }

  /** The schedule moves on to its next window with this run and reason, and so it is
      entered in the log. */
  ghost predicate EnteredAs(before: State, after: State, id: Id, now: int, run: Option<nat>, reason: Reason)
    requires id in before.schedules
  {
    var row := before.schedules[id];
    && id in after.schedules
    && after.schedules[id] == row.(due := Next(row.zone, row.spec, now), lastRun := run, lastError := reason)
    && exists k :: |before.log| <= k < |after.log| && after.log[k] == Entry(id, row.due, now, run, reason)
  }

  ghost predicate StartedRun(before: State, after: State, id: Id, now: int)
    requires id in before.schedules
  {
    exists run :: |before.runs| <= run < |after.runs| && after.runs[run] == Run(id, true) &&
                  EnteredAs(before, after, id, now, Some(run), NoReason)
  }

  /** What a sweep that found things so makes of one listed schedule.  `busy` says that
      an audit was started before its turn. */
  ghost predicate FateOf(w: World, before: State, after: State, id: Id, now: int, busy: bool)
    requires id in before.schedules
  {
    var row, reason := before.schedules[id], Blocked(w, before, id, now);
    if row.due > now then id in after.schedules && after.schedules[id] == row
    else if reason != NoReason then EnteredAs(before, after, id, now, None, reason)
    else if busy then id in after.schedules && after.schedules[id] == row
    else if w.startError(id).Some? then EnteredAs(before, after, id, now, None, Failed(w.startError(id).value))
    else StartedRun(before, after, id, now)
  }

  lemma VisitFate(w: World, s: Swept, id: Id, now: int)
    requires id in s.st.schedules
    ensures FateOf(w, s.st, Visit(w, s, id, now).st, id, now, s.started)
    ensures Visit(w, s, id, now).started <==> s.started || Starter(w, s.st, id, now)
  {
    var r := Visit(w, s, id, now);
    if |r.st.log| > |s.st.log| {
      assert r.st.log[|s.st.log|].dataset == id;
    }
    if r.started && !s.started {
      assert r.st.runs[|s.st.runs|] == Run(id, true);
    }
  }

  /** Later visits to others leave the entry and the run where they are. */
  lemma EnteredStays(a: State, b: State, c: State, id: Id, now: int, run: Option<nat>, reason: Reason)
    requires id in a.schedules && EnteredAs(a, b, id, now, run, reason)
    requires a.log <= b.log <= c.log && id in c.schedules && c.schedules[id] == b.schedules[id]
    ensures EnteredAs(a, c, id, now, run, reason)
  {
    var entry := Entry(id, a.schedules[id].due, now, run, reason);
    var k :| |a.log| <= k < |b.log| && b.log[k] == entry;
    assert c.log[k] == entry;
  }

  lemma FateStays(w: World, a: State, b: State, c: State, id: Id, now: int, busy: bool)
    requires id in a.schedules && FateOf(w, a, b, id, now, busy)
    requires a.log <= b.log <= c.log && b.runs <= c.runs && id in c.schedules && id in b.schedules
    requires c.schedules[id] == b.schedules[id]
    ensures FateOf(w, a, c, id, now, busy)
  {
    forall run, reason | EnteredAs(a, b, id, now, run, reason) ensures EnteredAs(a, c, id, now, run, reason) {
      EnteredStays(a, b, c, id, now, run, reason);
    }
    if StartedRun(a, b, id, now) {
      var run :| |a.runs| <= run < |b.runs| && b.runs[run] == Run(id, true) && EnteredAs(a, b, id, now, Some(run), NoReason);
      assert c.runs[run] == Run(id, true) && EnteredAs(a, c, id, now, Some(run), NoReason);
    }
  }

  /** The same fate seen from before an earlier visit to another. */
  lemma FateBefore(w: World, a: State, b: State, c: State, id: Id, now: int, busy: bool)
    requires id in a.schedules && id in b.schedules && b.schedules[id] == a.schedules[id]
    requires a.log <= b.log <= c.log && a.runs <= b.runs && Blocked(w, b, id, now) == Blocked(w, a, id, now)
    requires FateOf(w, b, c, id, now, busy)
    ensures FateOf(w, a, c, id, now, busy)
  {
    forall run, reason | EnteredAs(b, c, id, now, run, reason) ensures EnteredAs(a, c, id, now, run, reason) {
      var entry := Entry(id, a.schedules[id].due, now, run, reason);
      var k :| |b.log| <= k < |c.log| && c.log[k] == entry;
    }
  }

  lemma {:induction false} VisitAllFates(w: World, s: Swept, ids: seq<Id>, now: int, id: Id)
    requires Distinct(ids) && id in ids && forall i :: 0 <= i < |ids| ==> ids[i] in s.st.schedules
    ensures FateOf(w, s.st, VisitAll(w, s, ids, now).st, id, now, s.started || StarterBefore(w, s.st, ids, now, id))
    decreases |ids|
  {
    var mid := Visit(w, s, ids[0], now);
    var r := VisitAll(w, mid, ids[1..], now).st;
    VisitFate(w, s, ids[0], now);
    VisitDoes(w, s, ids[0], now);
    VisitAllDoes(w, mid, ids[1..], now);
    assert ids[0] !in ids[1..];
    if ids[0] == id {
      VisitAllLeaves(w, mid, ids[1..], now, id);
      FateStays(w, s.st, mid.st, r, id, now, s.started);
      assert !StarterBefore(w, s.st, ids, now, id);
    } else {
      assert id in ids[1..];
      VisitAllFates(w, mid, ids[1..], now, id);
      BlockedStays(w, s, ids[0], now, id);
      StartersLater(w, s, ids, now, id);
      FateBefore(w, s.st, mid.st, r, id, now, s.started || StarterBefore(w, s.st, ids, now, id));
    }
  }

  lemma StartersLater(w: World, s: Swept, ids: seq<Id>, now: int, id: Id)
    requires Distinct(ids) && ids != [] && id in ids && id != ids[0]
    requires forall i :: 0 <= i < |ids| ==> ids[i] in s.st.schedules
    ensures var mid := Visit(w, s, ids[0], now);
      mid.started || StarterBefore(w, mid.st, ids[1..], now, id) <==> s.started || StarterBefore(w, s.st, ids, now, id)
  {
    var mid := Visit(w, s, ids[0], now);
    VisitFate(w, s, ids[0], now);
    forall j | 1 <= j < |ids| ensures Starter(w, mid.st, ids[j], now) <==> Starter(w, s.st, ids[j], now) {
      BlockedStays(w, s, ids[0], now, ids[j]);
    }
    if Starter(w, s.st, ids[0], now) {
      var k :| 0 <= k < |ids| && ids[k] == id;
      assert StarterBefore(w, s.st, ids, now, id);
    }
    if StarterBefore(w, mid.st, ids[1..], now, id) {
      var j, k :| 0 <= j < k < |ids[1..]| && ids[1..][k] == id && Starter(w, mid.st, ids[1..][j], now);
      assert ids[k + 1] == id && Starter(w, s.st, ids[j + 1], now);
    }
    if StarterBefore(w, s.st, ids, now, id) && !Starter(w, s.st, ids[0], now) {
      var j, k :| 0 <= j < k < |ids| && ids[k] == id && Starter(w, s.st, ids[j], now);
      assert ids[1..][k - 1] == id && Starter(w, mid.st, ids[1..][j - 1], now);
    }
  }

  /** The whole of what a sweep decides, from what it found: a listed schedule that is
      due and blocked is entered with the reason, whatever was started before it; one
      that is free waits if an audit was started before its turn, is entered with the
      error if starting fails, and otherwise starts; one not due is left alone. */
  lemma SweepDecidesEach(w: World, st: State, ids: seq<Id>, now: int, id: Id)
    requires Distinct(ids) && id in ids && forall i :: 0 <= i < |ids| ==> ids[i] in st.schedules
    ensures FateOf(w, st, Sweep(w, st, Some(ids), now), id, now, StarterBefore(w, st, ids, now, id))
  {
    VisitAllFates(w, Swept(st, false), ids, now, id);
  }

  /** So a schedule still due after a sweep was free to go, and another was started. */
  lemma StillDueMeansAnotherStarted(w: World, st: State, ids: seq<Id>, now: int, id: Id)
    requires Distinct(ids) && id in ids && forall i :: 0 <= i < |ids| ==> ids[i] in st.schedules
    requires st.schedules[id].due <= now && MovesOn(st.schedules[id])
    ensures var after := Sweep(w, st, Some(ids), now);
      id in after.schedules &&
      (after.schedules[id].due <= now <==> Blocked(w, st, id, now) == NoReason && StarterBefore(w, st, ids, now, id))
  {
    SweepDecidesEach(w, st, ids, now, id);
    assert now < Next(st.schedules[id].zone, st.schedules[id].spec, now);
  }

  // ---- whole runs ---------------------------------------------------------------------------

  /** What can happen between and around sweeps.  Edit is a new schedule for a
      dataset, or the end of the one it had. */
  datatype Step =
    | Tick(w: World, listing: Option<seq<Id>>, now: int)
    | StartedByHand(dataset: Id)
    | Finished(run: nat)
    | Edit(dataset: Id, row: Option<Row>)

  ghost predicate Enabled(st: State, step: Step) {
    match step
    case Tick(_, listing, _) =>
      listing.Some? ==> Distinct(listing.value) && forall i :: 0 <= i < |listing.value| ==> listing.value[i] in st.schedules
    case Finished(run) => run < |st.runs|
    case _ => true
  }

  function Do(st: State, step: Step): State
    requires Enabled(st, step)
  {
    match step
    case Tick(w, listing, now) => Sweep(w, st, listing, now)
    case StartedByHand(d) => st.(runs := st.runs + [Run(d, true)])
    case Finished(run) => st.(runs := st.runs[run := st.runs[run].(active := false)])
    case Edit(d, None) => st.(schedules := st.schedules - {d})
    case Edit(d, Some(row)) => st.(schedules := st.schedules[d := row])
  }

  ghost predicate Possible(st: State, steps: seq<Step>)
    decreases |steps|
  {
    steps == [] || (Enabled(st, steps[0]) && Possible(Do(st, steps[0]), steps[1..]))
  }

  ghost function After(st: State, steps: seq<Step>): State
    requires Possible(st, steps)
    decreases |steps|
  {
    if steps == [] then st else After(Do(st, steps[0]), steps[1..])
  }

  ghost predicate Unedited(steps: seq<Step>, id: Id) {
    forall i :: 0 <= i < |steps| && steps[i].Edit? ==> steps[i].dataset != id
  }

  /** The history of one schedule: each decision is of a window already reached,
      later than every earlier decision, and the window now waited for is later
      still; an interval's windows are a full interval after the last decision. */
  ghost predicate Orderly(st: State, id: Id, spec: Spec, from: nat) {
    && id in st.schedules && st.schedules[id].spec == spec && MovesOn(st.schedules[id])
    && (forall k :: from <= k < |st.log| && st.log[k].dataset == id ==>
         st.log[k].window <= st.log[k].at < st.schedules[id].due &&
         (spec.Interval? ==> st.log[k].at + spec.every <= st.schedules[id].due))
    && (forall k, l :: from <= k < l < |st.log| && st.log[k].dataset == id && st.log[l].dataset == id ==>
         st.log[k].at < st.log[l].window && (spec.Interval? ==> st.log[k].at + spec.every <= st.log[l].window))
  }

  lemma TickKeepsOrder(st: State, step: Step, id: Id, spec: Spec, from: nat)
    requires Enabled(st, step) && step.Tick? && Orderly(st, id, spec, from)
    ensures Orderly(Do(st, step), id, spec, from) && |st.log| <= |Do(st, step).log|
  {
    var after := Do(st, step);
    if step.listing.Some? {
      VisitAllDoes(step.w, Swept(st, false), step.listing.value, step.now);
      assert st.log <= after.log;
      assert forall k :: 0 <= k < |st.log| ==> after.log[k] == st.log[k];
      OneEntryPerSweep(step.w, Swept(st, false), step.listing.value, step.now);
      if after.schedules[id] == st.schedules[id] {
        forall k | |st.log| <= k < |after.log| ensures after.log[k].dataset != id {
          EntryMeansDecided(step.w, Swept(st, false), step.listing.value, step.now, k);
        }
      }
    }
  }

  lemma {:induction false} OneEntryPerSweep(w: World, s: Swept, ids: seq<Id>, now: int)
    requires Distinct(ids) && forall i :: 0 <= i < |ids| ==> ids[i] in s.st.schedules
    ensures var r := VisitAll(w, s, ids, now).st;
      forall k, l :: |s.st.log| <= k < l < |r.log| ==> r.log[k].dataset != r.log[l].dataset
    decreases |ids|
  {
    if ids != [] {
      var mid := Visit(w, s, ids[0], now);
      var r := VisitAll(w, mid, ids[1..], now).st;
      VisitDoes(w, s, ids[0], now);
      VisitAllDoes(w, mid, ids[1..], now);
      OneEntryPerSweep(w, mid, ids[1..], now);
      assert ids[0] !in ids[1..];
      forall k, l | |s.st.log| <= k < l < |r.log| ensures r.log[k].dataset != r.log[l].dataset {
        if k < |mid.st.log| {
          assert r.log[k] == mid.st.log[k];
          assert mid.st.log[k].dataset == ids[0];
          assert l >= |mid.st.log|;
          assert r.log[l].dataset in ids[1..];
        }
      }
    }
  }

  lemma {:induction false} EntryMeansDecided(w: World, s: Swept, ids: seq<Id>, now: int, k: nat)
    requires Distinct(ids) && forall i :: 0 <= i < |ids| ==> ids[i] in s.st.schedules
    requires |s.st.log| <= k < |VisitAll(w, s, ids, now).st.log|
    ensures var r := VisitAll(w, s, ids, now).st; var id := r.log[k].dataset;
      id in s.st.schedules && id in r.schedules &&
      r.schedules[id].due == Next(s.st.schedules[id].zone, s.st.schedules[id].spec, now)
    decreases |ids|
  {
    if ids != [] {
      var mid := Visit(w, s, ids[0], now);
      var r := VisitAll(w, mid, ids[1..], now).st;
      VisitDoes(w, s, ids[0], now);
      VisitAllDoes(w, mid, ids[1..], now);
      assert ids[0] !in ids[1..];
      if k < |mid.st.log| {
        assert r.log[k] == mid.st.log[k] && mid.st.log[k].dataset == ids[0];
        assert r.schedules[ids[0]] == mid.st.schedules[ids[0]];
      } else {
        EntryMeansDecided(w, mid, ids[1..], now, k);
        assert r.log[k].dataset in ids[1..];
      }
    }
  }

  /** Never double-fires: over any run that does not edit it, a schedule's decisions
      are of distinct windows, each later than the decision before it. */
  lemma {:induction false} DecisionsAreOrderly(st: State, steps: seq<Step>, id: Id, spec: Spec, from: nat)
    requires Possible(st, steps) && Unedited(steps, id) && Orderly(st, id, spec, from)
    ensures Orderly(After(st, steps), id, spec, from)
    decreases |steps|
  {
    if steps != [] {
      if steps[0].Tick? {
        TickKeepsOrder(st, steps[0], id, spec, from);
      }
      assert forall i :: 0 <= i < |steps[1..]| ==> steps[1..][i] == steps[i + 1];
      DecisionsAreOrderly(Do(st, steps[0]), steps[1..], id, spec, from);
    }
  }

  /** Stated from a fresh start: two audits the clock started for one schedule
      belong to different windows, and an interval's are at least Every apart. */
  lemma StartsAreOfDistinctWindows(st: State, steps: seq<Step>, id: Id, k: nat, l: nat)
    requires id in st.schedules && MovesOn(st.schedules[id])
    requires Possible(st, steps) && Unedited(steps, id)
    requires |st.log| <= k < l < |After(st, steps).log|
    requires After(st, steps).log[k].dataset == id && After(st, steps).log[l].dataset == id
    ensures var log, spec := After(st, steps).log, st.schedules[id].spec;
      log[k].window <= log[k].at < log[l].window <= log[l].at &&
      (spec.Interval? ==> log[l].at - log[k].at >= spec.every)
  {
    DecisionsAreOrderly(st, steps, id, st.schedules[id].spec, |st.log|);
  }

  /** The run is never reported finished. */
  ghost predicate NeverFinished(steps: seq<Step>, run: nat) {
    forall i :: 0 <= i < |steps| ==> steps[i] != Finished(run)
  }

  /** Nothing the log has gained since it had `from` entries is a start for id. */
  ghost predicate NoStarts(log: seq<Entry>, from: nat, id: Id) {
    forall l :: from <= l < |log| && log[l].dataset == id ==> log[l].run.None?
  }

  lemma PendingBlocksStep(st: State, step: Step, id: Id, k: nat)
    requires Enabled(st, step) && k < |st.runs| && st.runs[k] == Run(id, true) && step != Finished(k)
    ensures var next := Do(st, step);
      st.log <= next.log && k < |next.runs| && next.runs[k] == Run(id, true) && NoStarts(next.log, |st.log|, id)
  {
    if step.Tick? && step.listing.Some? {
      var s := Swept(st, false);
      VisitAllDoes(step.w, s, step.listing.value, step.now);
      SweepStartsAtMostOne(step.w, s, step.listing.value, step.now);
      assert HasActive(st.runs, id);
      assert Do(st, step).runs[k] == st.runs[k];
    }
  }

  /** A run left pending, by a failed start or otherwise, keeps every later window of
      its dataset from starting: over any steps, for as long as nobody finishes it. */
  lemma {:induction false} LeftPendingBlocks(st: State, steps: seq<Step>, id: Id, k: nat)
    requires Possible(st, steps) && k < |st.runs| && st.runs[k] == Run(id, true) && NeverFinished(steps, k)
    ensures st.log <= After(st, steps).log && NoStarts(After(st, steps).log, |st.log|, id)
    decreases |steps|
  {
    if steps != [] {
      var next := Do(st, steps[0]);
      PendingBlocksStep(st, steps[0], id, k);
      assert forall i :: 0 <= i < |steps[1..]| ==> steps[1..][i] == steps[i + 1];
      LeftPendingBlocks(next, steps[1..], id, k);
      var log := After(st, steps).log;
      assert forall l :: 0 <= l < |next.log| ==> log[l] == next.log[l];
    }
  }

  // ---- bounded waiting --------------------------------------------------------------------------

  /** Schedules' ORDER BY next_due_at, over all of them. */
  ghost predicate Listing(st: State, ids: seq<Id>) {
    && Distinct(ids)
    && (forall id :: id in ids <==> id in st.schedules)
    && (forall i, j :: 0 <= i < j < |ids| ==> st.schedules[ids[i]].due <= st.schedules[ids[j]].due)
  }

  /** The other schedules due no later than this one. */
  ghost function Ahead(st: State, id: Id): set<Id>
    requires id in st.schedules
  {
    set x | x in st.schedules && x != id && st.schedules[x].due <= st.schedules[id].due
  }

  ghost predicate AllMoveOn(st: State) { forall id :: id in st.schedules ==> MovesOn(st.schedules[id]) }

  ghost predicate Precedes(ids: seq<Id>, a: Id, b: Id) {
    exists i, j :: 0 <= i < j < |ids| && ids[i] == a && ids[j] == b
  }

  lemma PrecedesInTail(ids: seq<Id>, a: Id, b: Id)
    requires ids != [] && Precedes(ids[1..], a, b)
    ensures Precedes(ids, a, b)
  {
    var i, j :| 0 <= i < j < |ids[1..]| && ids[1..][i] == a && ids[1..][j] == b;
    assert ids[i + 1] == a && ids[j + 1] == b;
  }

  lemma FirstPrecedes(ids: seq<Id>, b: Id)
    requires ids != [] && b in ids && b != ids[0]
    ensures Precedes(ids, ids[0], b) && b in ids[1..]
  {
    var j :| 0 <= j < |ids| && ids[j] == b;
    assert ids[1..][j - 1] == b;
  }

  /** Visiting other schedules leaves one as it was. */
  lemma {:induction false} VisitAllLeaves(w: World, s: Swept, ids: seq<Id>, now: int, id: Id)
    requires id in s.st.schedules && id !in ids && forall i :: 0 <= i < |ids| ==> ids[i] in s.st.schedules
    ensures VisitAll(w, s, ids, now).st.schedules[id] == s.st.schedules[id]
    decreases |ids|
  {
    if ids != [] {
      VisitAllLeaves(w, Visit(w, s, ids[0], now), ids[1..], now, id);
    }
  }

  /** If a due schedule is left undecided, an audit was started for one listed
      before it. */
  lemma {:induction false} LeftBehindSomeone(w: World, s: Swept, ids: seq<Id>, now: int, id: Id) returns (other: Id)
    requires Distinct(ids) && !s.started && id in ids
    requires forall i :: 0 <= i < |ids| ==> ids[i] in s.st.schedules
    requires s.st.schedules[id].due <= now && MovesOn(s.st.schedules[id])
    requires VisitAll(w, s, ids, now).st.schedules[id] == s.st.schedules[id]
    ensures Precedes(ids, other, id)
    ensures VisitAll(w, s, ids, now).st.schedules[other].due ==
      Next(s.st.schedules[other].zone, s.st.schedules[other].spec, now)
    decreases |ids|
  {
    var mid := Visit(w, s, ids[0], now);
    assert ids[0] !in ids[1..];
    VisitAllLeaves(w, mid, ids[1..], now, ids[0]);
    FreeVisitDecides(w, s, ids[0], now);
    if ids[0] != id {
      FirstPrecedes(ids, id);
      if mid.started {
        other := ids[0];
      } else {
        other := LeftBehindSomeone(w, mid, ids[1..], now, id);
        PrecedesInTail(ids, other, id);
        assert other != ids[0];
      }
    }
  }

  /** While nothing has been started, a due schedule that is visited is decided. */
  lemma FreeVisitDecides(w: World, s: Swept, id: Id, now: int)
    requires id in s.st.schedules && !s.started
    ensures var r := Visit(w, s, id, now); var row := s.st.schedules[id];
      (row.due <= now || r.started ==> r.st.schedules[id].due == Next(row.zone, row.spec, now)) &&
      (row.due <= now && MovesOn(row) ==> now < r.st.schedules[id].due)
  {
    assert MovesOn(s.st.schedules[id]) ==> now < Next(s.st.schedules[id].zone, s.st.schedules[id].spec, now);
  }

  lemma ListedNoLater(st: State, ids: seq<Id>, a: Id, b: Id)
    requires Listing(st, ids) && Precedes(ids, a, b)
    ensures a in st.schedules && b in st.schedules && a != b && st.schedules[a].due <= st.schedules[b].due
  {
    var i, j :| 0 <= i < j < |ids| && ids[i] == a && ids[j] == b;
    assert ids[i] in ids && ids[j] in ids;
  }

  /** After a sweep the schedules due no later than an undecided one were already so
      before, unchanged. */
  lemma SweepAddsNoneAhead(st: State, w: World, ids: seq<Id>, now: int, id: Id, x: Id)
    requires Listing(st, ids) && AllMoveOn(st) && id in st.schedules && st.schedules[id].due <= now
    requires id in Sweep(w, st, Some(ids), now).schedules
    requires Sweep(w, st, Some(ids), now).schedules[id] == st.schedules[id]
    requires x in Ahead(Sweep(w, st, Some(ids), now), id)
    ensures x in Ahead(st, id) && Sweep(w, st, Some(ids), now).schedules[x] == st.schedules[x]
  {
    VisitAllDoes(w, Swept(st, false), ids, now);
    assert now < Next(st.schedules[x].zone, st.schedules[x].spec, now);
  }

  /** A sweep that leaves a due schedule undecided moves one of those ahead of it
      past now. */
  lemma UndecidedSweepShrinksAhead(st: State, w: World, ids: seq<Id>, now: int, id: Id)
    requires Listing(st, ids) && AllMoveOn(st) && id in st.schedules && st.schedules[id].due <= now
    ensures var after := Sweep(w, st, Some(ids), now);
      id in after.schedules &&
      (after.schedules[id].due == st.schedules[id].due ==>
        Ahead(after, id) <= Ahead(st, id) && |Ahead(after, id)| < |Ahead(st, id)|)
  {
    var after := Sweep(w, st, Some(ids), now);
    UndecidedIsUntouched(st, w, ids, now, id);
    if after.schedules[id].due == st.schedules[id].due {
      var other := LeftBehindSomeone(w, Swept(st, false), ids, now, id);
      ListedNoLater(st, ids, other, id);
      assert now < Next(st.schedules[other].zone, st.schedules[other].spec, now);
      forall x | x in Ahead(after, id) ensures x in Ahead(st, id) && x != other {
        SweepAddsNoneAhead(st, w, ids, now, id, x);
      }
      SubsetSize(Ahead(after, id), Ahead(st, id) - {other});
    }
  }

  lemma UndecidedIsUntouched(st: State, w: World, ids: seq<Id>, now: int, id: Id)
    requires Listing(st, ids) && AllMoveOn(st) && id in st.schedules && st.schedules[id].due <= now
    ensures var after := Sweep(w, st, Some(ids), now);
      id in after.schedules &&
      (after.schedules[id].due == st.schedules[id].due ==> after.schedules[id] == st.schedules[id])
  {
    VisitAllDoes(w, Swept(st, false), ids, now);
    assert now < Next(st.schedules[id].zone, st.schedules[id].spec, now);
  }

  lemma {:induction false} SubsetSize(a: set<Id>, b: set<Id>)
    requires a <= b
    ensures |a| <= |b|
  {
    if a != {} {
      var x :| x in a;
      SubsetSize(a - {x}, b - {x});
    }
  }

  /** The sweeps in a run that find the schedule due at `due`. */
  function SweepsAfter(steps: seq<Step>, due: int): nat {
    if steps == [] then 0
    else (if steps[0].Tick? && steps[0].now >= due then 1 else 0) + SweepsAfter(steps[1..], due)
  }

  /** Each sweep lists all schedules in due order, and nobody else's new schedule
      is put ahead of this one. */
  ghost predicate Fair(st: State, steps: seq<Step>, id: Id, due: int)
    requires Possible(st, steps)
    decreases |steps|
  {
    steps == [] ||
    (var step := steps[0];
     && (step.Tick? ==> step.listing.Some? && Listing(st, step.listing.value))
     && (step.Edit? ==> step.dataset != id && (step.row.Some? ==> step.row.value.due > due && MovesOn(step.row.value)))
     && Fair(Do(st, step), steps[1..], id, due))
  }

  lemma {:induction false} DueNeverReturns(st: State, steps: seq<Step>, id: Id, due: int)
    requires Possible(st, steps) && id in st.schedules && AllMoveOn(st) && Fair(st, steps, id, due)
    ensures id in After(st, steps).schedules && After(st, steps).schedules[id].due >= st.schedules[id].due
    decreases |steps|
  {
    if steps != [] {
      StepKeepsRows(st, steps[0], id);
      DueNeverReturns(Do(st, steps[0]), steps[1..], id, due);
    }
  }

  lemma StepKeepsRows(st: State, step: Step, id: Id)
    requires Enabled(st, step) && id in st.schedules && AllMoveOn(st)
    requires step.Edit? ==> step.dataset != id && (step.row.Some? ==> MovesOn(step.row.value))
    ensures var next := Do(st, step);
      AllMoveOn(next) && id in next.schedules && next.schedules[id].due >= st.schedules[id].due
  {
    if step.Tick? && step.listing.Some? {
      VisitAllDoes(step.w, Swept(st, false), step.listing.value, step.now);
      var next := Do(st, step);
      assert step.now < Next(st.schedules[id].zone, st.schedules[id].spec, step.now);
      forall x | x in next.schedules ensures MovesOn(next.schedules[x]) {
        assert MovesOn(st.schedules[x]) && SameSchedule(st.schedules[x], next.schedules[x]);
      }
    }
  }

  lemma StepKeepsAhead(st: State, step: Step, id: Id)
    requires Enabled(st, step) && id in st.schedules && AllMoveOn(st)
    requires step.Tick? ==> step.listing.Some? && Listing(st, step.listing.value)
    requires step.Edit? ==> step.dataset != id
    requires step.Edit? && step.row.Some? ==> step.row.value.due > st.schedules[id].due && MovesOn(step.row.value)
    requires id in Do(st, step).schedules && Do(st, step).schedules[id].due == st.schedules[id].due
    ensures |Ahead(Do(st, step), id)| +
      (if step.Tick? && step.now >= st.schedules[id].due then 1 else 0) <= |Ahead(st, id)|
  {
    var next := Do(st, step);
    if step.Tick? && step.now >= st.schedules[id].due {
      UndecidedSweepShrinksAhead(st, step.w, step.listing.value, step.now, id);
    } else {
      if step.Tick? {
        VisitAllDoes(step.w, Swept(st, false), step.listing.value, step.now);
        forall x | x in Ahead(next, id) ensures x in Ahead(st, id) {
          assert step.now < Next(st.schedules[x].zone, st.schedules[x].spec, step.now);
        }
      }
      SubsetSize(Ahead(next, id), Ahead(st, id));
    }
  }

  /** Bounded waiting: as long as a schedule is still waiting for the same window,
      it has been passed over by no more sweeps than there were schedules ahead of
      it.  One more sweep decides it. */
  lemma {:induction false} WaitingIsBounded(st: State, steps: seq<Step>, id: Id)
    requires Possible(st, steps) && id in st.schedules && AllMoveOn(st)
    requires Fair(st, steps, id, st.schedules[id].due)
    requires id in After(st, steps).schedules && After(st, steps).schedules[id].due == st.schedules[id].due
    ensures SweepsAfter(steps, st.schedules[id].due) <= |Ahead(st, id)|
    decreases |steps|
  {
    if steps != [] {
      var due := st.schedules[id].due;
      StepKeepsRows(st, steps[0], id);
      DueNeverReturns(Do(st, steps[0]), steps[1..], id, due);
      StepKeepsAhead(st, steps[0], id);
      WaitingIsBounded(Do(st, steps[0]), steps[1..], id);
    }
  }

  lemma {:induction false} LogOnlyGrows(st: State, steps: seq<Step>)
    requires Possible(st, steps)
    ensures st.log <= After(st, steps).log
    decreases |steps|
  {
    if steps != [] {
      var step := steps[0];
      if step.Tick? && step.listing.Some? {
        VisitAllDoes(step.w, Swept(st, false), step.listing.value, step.now);
      }
      LogOnlyGrows(Do(st, step), steps[1..]);
    }
  }

  /** The log has decided the schedule's window since there were `from` entries. */
  ghost predicate Decides(log: seq<Entry>, from: nat, id: Id, window: int) {
    exists k :: from <= k < |log| && log[k].dataset == id && log[k].window == window
  }

  /** A window that stops being waited for has been decided: started, or recorded as
      blocked or failed. */
  lemma LeavingIsDeciding(st: State, step: Step, id: Id)
    requires Enabled(st, step) && id in st.schedules && (step.Edit? ==> step.dataset != id)
    requires id in Do(st, step).schedules && Do(st, step).schedules[id].due != st.schedules[id].due
    ensures Decides(Do(st, step).log, |st.log|, id, st.schedules[id].due)
  {
    if step.Tick? && step.listing.Some? {
      VisitAllDoes(step.w, Swept(st, false), step.listing.value, step.now);
    }
  }

  /** So after one sweep more than there were schedules ahead of it, whatever happens
      in between, the window it was waiting for has been decided. */
  lemma {:induction false} EveryDueWindowIsDecided(st: State, steps: seq<Step>, id: Id)
    requires Possible(st, steps) && id in st.schedules && AllMoveOn(st)
    requires Fair(st, steps, id, st.schedules[id].due)
    requires SweepsAfter(steps, st.schedules[id].due) > |Ahead(st, id)|
    ensures Decides(After(st, steps).log, |st.log|, id, st.schedules[id].due)
    decreases |steps|
  {
    var due := st.schedules[id].due;
    var next := Do(st, steps[0]);
    StepKeepsRows(st, steps[0], id);
    LogOnlyGrows(st, [steps[0]]);
    LogOnlyGrows(next, steps[1..]);
    if next.schedules[id].due == due {
      StepKeepsAhead(st, steps[0], id);
      EveryDueWindowIsDecided(next, steps[1..], id);
      KeepsDeciding(next.log, After(st, steps).log, |next.log|, |st.log|, id, due);
    } else {
      LeavingIsDeciding(st, steps[0], id);
      KeepsDeciding(next.log, After(st, steps).log, |st.log|, |st.log|, id, due);
    }
  }

  lemma KeepsDeciding(log: seq<Entry>, longer: seq<Entry>, from: nat, since: nat, id: Id, window: int)
    requires log <= longer && since <= from
    ensures Decides(log, from, id, window) ==> Decides(longer, since, id, window)
    ensures Decides(longer, from, id, window) ==> Decides(longer, since, id, window)
  {
    if Decides(log, from, id, window) {
      var k :| from <= k < |log| && log[k].dataset == id && log[k].window == window;
      assert longer[k] == log[k];
    }
  }
}
