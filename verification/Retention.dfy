/**
  Discarding the ingested data of old runs (discard in internal/api/scheduler.go,
  DiscardableRunDatabases and ClearRunDatabase in internal/store/runs.go,
  removeRunFiles and handleDeleteDataset in internal/api/datasets.go).

  Runs are numbered in the order they were created.  Deleting files can fail,
  and so can recording that they are gone; between listing and deleting anything
  else may happen.
*/
module Retention {
  import opened Wrappers

  type Dataset = string

  /** Where a run's database is recorded: nowhere, where this server writes them,
      or somewhere else (a row edited by hand). */
  datatype Path = NoPath | Served | Elsewhere

  /** `kept` is the path the run was first given, if it ever was; `written`, whether
      its audit ever wrote a database there; `ends`, the instants it was ever recorded
      as finished at. */
  datatype Run = Run(
    dataset: Dataset, alive: bool, path: Path, kept: Path, written: bool, finished: Option<int>, ends: set<int>)

  datatype State = State(runs: seq<Run>, files: set<nat>)

  // ---- which databases may go ---------------------------------------------------------

  predicate Holds(st: State, r: nat) { r < |st.runs| && st.runs[r].alive && st.runs[r].path != NoPath }

  /** The dataset's most recently created run still holding a database. */
  function NewestHolding(st: State, d: Dataset, below: nat): (r: Option<nat>)
    requires below <= |st.runs|
    ensures r.Some? ==> r.value < below && Holds(st, r.value) && st.runs[r.value].dataset == d
    ensures r.Some? ==> forall q :: r.value < q < below && st.runs[q].dataset == d ==> !Holds(st, q)
    ensures r.None? ==> forall q :: 0 <= q < below && st.runs[q].dataset == d ==> !Holds(st, q)
  {
    if below == 0 then None
    else if Holds(st, below - 1) && st.runs[below - 1].dataset == d then Some(below - 1)
    else NewestHolding(st, d, below - 1)
  }

  predicate Discardable(st: State, cutoff: int, r: nat) {
    && Holds(st, r)
    && st.runs[r].finished.Some? && st.runs[r].finished.value < cutoff
    && Some(r) != NewestHolding(st, st.runs[r].dataset, |st.runs|)
  }

  /** removeRunFiles refuses what is not where the server puts databases, and
      calls that done; otherwise deleting may fail. */
  predicate Removes(st: State, r: nat, deletes: bool) { r >= |st.runs| || st.runs[r].path != Served || deletes }

  /** One turn of discard's loop for a listed run. */
  function DiscardOne(st: State, r: nat, deletes: bool, records: bool): State {
    if !Removes(st, r, deletes) then st
    else
      var st' := if r < |st.runs| && st.runs[r].path == Served then st.(files := st.files - {r}) else st;
      if records && r < |st.runs| && st.runs[r].alive
      then st'.(runs := st.runs[r := st.runs[r].(path := NoPath)])
      else st'
  }

  function DiscardAll(st: State, listed: seq<nat>, deletes: nat -> bool, records: nat -> bool): State {
    if listed == [] then st
    else
      var n := |listed| - 1;
      DiscardOne(DiscardAll(st, listed[..n], deletes, records), listed[n], deletes(listed[n]), records(listed[n]))
  }

  class RunStore {
    var runs: seq<Run>
    var files: set<nat>

    constructor ()
      ensures View() == State([], {})
    {
      runs, files := [], {};
    }

    function View(): State
      reads this
    {
      State(runs, files)
    }

    /** DiscardableRunDatabases: exactly the discardable runs, each once.  The order
        they come in does not matter here. */
    method List(cutoff: int) returns (listed: seq<nat>)
      ensures forall r: nat :: r in listed <==> Discardable(View(), cutoff, r)
      ensures forall i, j :: 0 <= i < j < |listed| ==> listed[i] != listed[j]
    {
      listed := [];
      var r := 0;
      while r < |runs|
        invariant 0 <= r <= |runs|
        invariant forall q: nat :: q in listed <==> q < r && Discardable(View(), cutoff, q)
        invariant forall i, j :: 0 <= i < j < |listed| ==> listed[i] != listed[j]
      {
        if Discardable(View(), cutoff, r) {
          listed := listed + [r];
        }
        r := r + 1;
      }
    }

    /** discard */
    method Discard(now: int, retain: int, deletes: nat -> bool, records: nat -> bool) returns (listed: seq<nat>)
      modifies this
      ensures forall r: nat :: r in listed <==> Discardable(old(View()), now - retain, r)
      ensures forall i, j :: 0 <= i < j < |listed| ==> listed[i] != listed[j]
      ensures View() == DiscardAll(old(View()), listed, deletes, records)
      ensures Discards(old(View()), View(), listed, deletes, records)
    {
      listed := List(now - retain);
      ghost var before := View();
      forall i | 0 <= i < |listed| ensures Holds(before, listed[i]) {
        assert listed[i] in listed && Discardable(before, now - retain, listed[i]);
      }
      var i := 0;
      while i < |listed|
        invariant 0 <= i <= |listed|
        invariant View() == DiscardAll(before, listed[..i], deletes, records)
      {
        var r := listed[i];
        assert listed[..i + 1][..i] == listed[..i];
        i := i + 1;
        if !Removes(View(), r, deletes(r)) {
          continue;
        }
        if r < |runs| && runs[r].path == Served {
          files := files - {r};
        }
        if !records(r) {
          continue;
        }
        if r < |runs| && runs[r].alive {
          runs := runs[r := runs[r].(path := NoPath)];
        }
      }
      assert listed[..i] == listed;
      DiscardAllDoes(before, listed, deletes, records);
    }
  }

  // ---- what discarding does to each run ---------------------------------------------------

  /** The run as its discard leaves it: without a path exactly when removing its files
      went through, or was not the server's to do, and so did recording that. */
  function RunAfter(run: Run, deleted: bool, recorded: bool): Run {
    if (run.path == Served ==> deleted) && recorded then run.(path := NoPath) else run
  }

  /** The files of exactly the listed runs that had them where the server puts them, and
      whose deletion went through, are gone; the paths of exactly those whose removal and
      recording both went through are cleared; and nothing else has changed. */
  ghost predicate Discards(before: State, after: State, listed: seq<nat>, deletes: nat -> bool, records: nat -> bool) {
    && |after.runs| == |before.runs|
    && (forall r: nat :: r < |before.runs| ==>
         after.runs[r] == if r in listed then RunAfter(before.runs[r], deletes(r), records(r)) else before.runs[r])
    && (forall r: nat :: r in after.files <==>
         r in before.files && !(r in listed && r < |before.runs| && before.runs[r].path == Served && deletes(r)))
  }

  lemma DiscardOneDoes(st: State, r: nat, deletes: nat -> bool, records: nat -> bool)
    requires Holds(st, r)
    ensures Discards(st, DiscardOne(st, r, deletes(r), records(r)), [r], deletes, records)
  {
  }

  lemma {:induction false} DiscardAllDoes(st: State, listed: seq<nat>, deletes: nat -> bool, records: nat -> bool)
    requires forall i :: 0 <= i < |listed| ==> Holds(st, listed[i])
    requires forall i, j :: 0 <= i < j < |listed| ==> listed[i] != listed[j]
    ensures Discards(st, DiscardAll(st, listed, deletes, records), listed, deletes, records)
    decreases |listed|
  {
    if listed != [] {
      var n := |listed| - 1;
      var so := DiscardAll(st, listed[..n], deletes, records);
      DiscardAllDoes(st, listed[..n], deletes, records);
      assert listed == listed[..n] + [listed[n]] && listed[n] !in listed[..n];
      assert so.runs[listed[n]] == st.runs[listed[n]];
      DiscardOneDoes(so, listed[n], deletes, records);
    }
  }

  // ---- every interleaving ---------------------------------------------------------------

  /** A listed run: when it had finished, and the cutoff it was listed against. */
  datatype Listed = Listed(run: nat, finished: int, cutoff: int)

  /** The store, what the discard in progress has still to do, and what went. */
  datatype World = World(st: State, pending: seq<Listed>, lost: seq<Listed>)

  const START := World(State([], {}), [], [])

  datatype Step =
    | Create(dataset: Dataset)
    | SetDatabase(run: nat, path: Path)
    | Write(run: nat)
    | Finish(run: nat, at: int)
    | DeleteDataset(dataset: Dataset, leftBehind: set<nat>)
    | BeginDiscard(cutoff: int, listed: seq<nat>)
    | DiscardNext(deletes: bool, records: bool)

  ghost predicate Enabled(w: World, s: Step) {
    match s
    case Create(_) => true
    // startRun records the path once, before the run executes
    case SetDatabase(r, path) =>
      r < |w.st.runs| && w.st.runs[r].alive && w.st.runs[r].kept == NoPath && path != NoPath
    // the audit writes its database where the path says, or fails before it does
    case Write(r) => r < |w.st.runs| && w.st.runs[r].alive && w.st.runs[r].path != NoPath
    case Finish(r, _) => r < |w.st.runs| && w.st.runs[r].alive
    case DeleteDataset(_, _) => true
    case BeginDiscard(cutoff, listed) => w.pending == [] && forall r: nat :: r in listed <==> Discardable(w.st, cutoff, r)
    case DiscardNext(_, _) => w.pending != []
  }

  function ListedAs(st: State, cutoff: int, listed: seq<nat>): (r: seq<Listed>)
    requires forall i :: 0 <= i < |listed| ==> Discardable(st, cutoff, listed[i])
    ensures |r| == |listed|
    ensures forall i :: 0 <= i < |r| ==>
      Discardable(st, cutoff, listed[i]) && r[i] == Listed(listed[i], st.runs[listed[i]].finished.value, cutoff)
  {
    if listed == [] then []
    else
      var n := |listed| - 1;
      assert Discardable(st, cutoff, listed[n]);
      ListedAs(st, cutoff, listed[..n]) + [Listed(listed[n], st.runs[listed[n]].finished.value, cutoff)]
  }

  function Gone(runs: seq<Run>, d: Dataset): (r: seq<Run>)
    ensures |r| == |runs|
    ensures forall i :: 0 <= i < |runs| ==> r[i] == if runs[i].dataset == d then runs[i].(alive := false) else runs[i]
  {
    seq(|runs|, i requires 0 <= i < |runs| => if runs[i].dataset == d then runs[i].(alive := false) else runs[i])
  }

  ghost function FilesOf(runs: seq<Run>, d: Dataset): set<nat> {
    set r: nat | r < |runs| && runs[r].dataset == d
  }

  ghost function Do(w: World, s: Step): World
    requires Enabled(w, s)
  {
    var st := w.st;
    match s
    case Create(d) => w.(st := st.(runs := st.runs + [Run(d, true, NoPath, NoPath, false, None, {})]))
    case SetDatabase(r, path) =>
      w.(st := st.(runs := st.runs[r := st.runs[r].(path := path, kept := path)]))
    case Write(r) => w.(st := State(st.runs[r := st.runs[r].(written := true)], st.files + {r}))
    case Finish(r, at) =>
      w.(st := st.(runs := st.runs[r := st.runs[r].(finished := Some(at), ends := st.runs[r].ends + {at})]))
    case DeleteDataset(d, leftBehind) =>
      w.(st := State(Gone(st.runs, d), st.files - (FilesOf(st.runs, d) - leftBehind)))
    case BeginDiscard(cutoff, listed) =>
      assert forall i :: 0 <= i < |listed| ==> listed[i] in listed;
      w.(pending := ListedAs(st, cutoff, listed))
    case DiscardNext(deletes, records) =>
      var head := w.pending[0];
      var st' := DiscardOne(st, head.run, deletes, records);
      World(st', w.pending[1..], if Holds(st, head.run) && !Holds(st', head.run) then w.lost + [head] else w.lost)
  }

  /** A later run of the same dataset has been given a path. */
  ghost predicate Superseded(st: State, r: nat) {
    r < |st.runs| &&
    exists q :: r < q < |st.runs| && st.runs[q].alive && st.runs[q].dataset == st.runs[r].dataset && st.runs[q].kept != NoPath
  }

  /** The entry is of a run that had finished, then, before the cutoff. */
  ghost predicate Overdue(st: State, l: Listed) {
    l.run < |st.runs| && l.finished in st.runs[l.run].ends && l.finished < l.cutoff
  }

  ghost predicate PathsSound(st: State) {
    forall r :: 0 <= r < |st.runs| ==>
      (st.runs[r].path != NoPath ==> st.runs[r].path == st.runs[r].kept) &&
      (st.runs[r].written ==> st.runs[r].kept != NoPath) &&
      (st.runs[r].finished.Some? ==> st.runs[r].finished.value in st.runs[r].ends)
  }

  /** A run that was given a path and is still stored: either it holds the path and,
      unless a discard of a superseded one is under way, the files it wrote; or it lost
      the path to a discard, was superseded, and the files the server wrote are gone. */
  ghost predicate RunSound(w: World, r: nat)
    requires r < |w.st.runs|
  {
    var run := w.st.runs[r];
    run.alive && run.kept != NoPath ==>
      && (run.written && (run.kept == Elsewhere || !Superseded(w.st, r)) ==> r in w.st.files)
      && (run.path == NoPath ==> Superseded(w.st, r) && (run.kept == Served ==> r !in w.st.files))
      && (run.path == NoPath ==> exists i :: 0 <= i < |w.lost| && w.lost[i].run == r)
  }

  /** A listed run was superseded by then, and stays so as long as it is stored. */
  ghost predicate PendingSound(w: World, i: nat)
    requires i < |w.pending|
  {
    var l := w.pending[i];
    Overdue(w.st, l) && (w.st.runs[l.run].alive ==> w.st.runs[l.run].kept != NoPath && Superseded(w.st, l.run))
  }

  /** What every step keeps. */
  ghost predicate Sound(w: World) {
    && PathsSound(w.st)
    && (forall r: nat :: r < |w.st.runs| ==> RunSound(w, r))
    && (forall i :: 0 <= i < |w.pending| ==> PendingSound(w, i))
    && (forall i :: 0 <= i < |w.lost| ==> Overdue(w.st, w.lost[i]))
  }

  lemma NewestIsNotListed(st: State, cutoff: int, r: nat)
    requires Discardable(st, cutoff, r)
    requires PathsSound(st)
    ensures Superseded(st, r)
  {
    var q := NewestHolding(st, st.runs[r].dataset, |st.runs|);
    assert q.Some? && q.value > r;
  }

  /** Exactly what may go: a run that holds a database, finished before the cutoff, and
      has a later run of its dataset that holds one too. */
  lemma DiscardableMeans(st: State, cutoff: int, r: nat)
    ensures Discardable(st, cutoff, r) <==>
      && Holds(st, r) && st.runs[r].finished.Some? && st.runs[r].finished.value < cutoff
      && exists q: nat :: q > r && Holds(st, q) && st.runs[q].dataset == st.runs[r].dataset
  {
    if Holds(st, r) {
      var newest := NewestHolding(st, st.runs[r].dataset, |st.runs|);
      assert newest.Some? && newest.value >= r;
    }
  }

  /** Whatever supersedes a run goes only with the dataset, and so with the run. */
  lemma SupersededStays(st: State, st': State, r: nat)
    requires Superseded(st, r) && |st.runs| <= |st'.runs|
    requires forall q :: 0 <= q < |st.runs| ==> st'.runs[q].dataset == st.runs[q].dataset
    requires forall q :: 0 <= q < |st.runs| && st.runs[q].kept != NoPath ==> st'.runs[q].kept != NoPath
    requires forall q :: 0 <= q < |st.runs| && st.runs[q].alive && st.runs[q].dataset == st.runs[r].dataset ==> st'.runs[q].alive
    ensures Superseded(st', r)
  {
    var q :| r < q < |st.runs| && st.runs[q].alive && st.runs[q].dataset == st.runs[r].dataset && st.runs[q].kept != NoPath;
    assert st'.runs[q].alive && st'.runs[q].dataset == st'.runs[r].dataset && st'.runs[q].kept != NoPath;
  }

  /** What a step that leaves run r and its files alone keeps of it. */
  lemma RunKept(w: World, w': World, r: nat)
    requires r < |w.st.runs| && r < |w'.st.runs| && RunSound(w, r)
    requires w'.st.runs[r].alive ==> w.st.runs[r].alive && (Superseded(w.st, r) ==> Superseded(w'.st, r))
    requires w'.st.runs[r].path == w.st.runs[r].path && w'.st.runs[r].kept == w.st.runs[r].kept
    requires w'.st.runs[r].written == w.st.runs[r].written
    requires w'.st.runs[r].alive ==> (r in w.st.files <==> r in w'.st.files)
    requires w.lost <= w'.lost
    ensures RunSound(w', r)
  {
    var run := w'.st.runs[r];
    if run.alive && run.kept != NoPath && run.path == NoPath {
      var i :| 0 <= i < |w.lost| && w.lost[i].run == r;
      assert w'.lost[i].run == r;
    }
  }

  lemma BeginKeepsSound(w: World, cutoff: int, listed: seq<nat>)
    requires Sound(w) && Enabled(w, BeginDiscard(cutoff, listed))
    ensures Sound(Do(w, BeginDiscard(cutoff, listed)))
  {
    var w' := Do(w, BeginDiscard(cutoff, listed));
    forall i | 0 <= i < |listed|
      ensures listed[i] < |w.st.runs| && w.st.runs[listed[i]].kept != NoPath && Superseded(w.st, listed[i])
      ensures w'.pending[i].run == listed[i] && Overdue(w.st, w'.pending[i])
    {
      assert listed[i] in listed;
      NewestIsNotListed(w.st, cutoff, listed[i]);
    }
    forall r: nat | r < |w.st.runs| ensures RunSound(w', r) {
      RunKept(w, w', r);
    }
  }

  lemma DiscardKeepsSuperseded(st: State, r: nat, deletes: bool, records: bool, x: nat)
    requires Superseded(st, x)
    ensures Superseded(DiscardOne(st, r, deletes, records), x)
  {
    SupersededStays(st, DiscardOne(st, r, deletes, records), x);
  }

  /** The run whose turn it is: it loses its files, or its path, only as superseded. */
  lemma DiscardedRunSound(w: World, deletes: bool, records: bool)
    requires Sound(w) && w.pending != [] && PendingSound(w, 0)
    ensures RunSound(Do(w, DiscardNext(deletes, records)), w.pending[0].run)
  {
    var w' := Do(w, DiscardNext(deletes, records));
    var head := w.pending[0];
    assert Overdue(w.st, head) && RunSound(w, head.run);
    if w.st.runs[head.run].alive {
      DiscardKeepsSuperseded(w.st, head.run, deletes, records, head.run);
      if Holds(w.st, head.run) && !Holds(w'.st, head.run) {
        assert w'.lost[|w.lost|].run == head.run;
      } else {
        assert w'.lost == w.lost;
      }
    }
  }

  lemma DiscardKeepsSound(w: World, deletes: bool, records: bool)
    requires Sound(w) && Enabled(w, DiscardNext(deletes, records))
    ensures Sound(Do(w, DiscardNext(deletes, records)))
  {
    var w' := Do(w, DiscardNext(deletes, records));
    assert PendingSound(w, 0);
    DiscardedRunSound(w, deletes, records);
    forall r: nat | r < |w.st.runs| && r != w.pending[0].run ensures RunSound(w', r) {
      if Superseded(w.st, r) {
        DiscardKeepsSuperseded(w.st, w.pending[0].run, deletes, records, r);
      }
      RunKept(w, w', r);
    }
    forall i | 0 <= i < |w'.pending| ensures PendingSound(w', i) {
      assert w'.pending[i] == w.pending[i + 1] && PendingSound(w, i + 1);
      if Superseded(w.st, w'.pending[i].run) {
        DiscardKeepsSuperseded(w.st, w.pending[0].run, deletes, records, w'.pending[i].run);
      }
    }
  }

  /** The run a step gives its path or its files to. */
  lemma TouchedRunSound(w: World, s: Step)
    requires Sound(w) && Enabled(w, s) && (s.SetDatabase? || s.Write?)
    ensures RunSound(Do(w, s), s.run)
  {
    var w' := Do(w, s);
    assert RunSound(w, s.run);
    if Superseded(w.st, s.run) {
      SupersededStays(w.st, w'.st, s.run);
    }
  }

  /** Steps of runs and datasets: none of them takes a database from a living run. */
  lemma OtherKeepsSound(w: World, s: Step)
    requires Sound(w) && Enabled(w, s) && !s.BeginDiscard? && !s.DiscardNext?
    ensures Sound(Do(w, s))
  {
    var w' := Do(w, s);
    forall r: nat | r < |w.st.runs| && Superseded(w.st, r) && w'.st.runs[r].alive ensures Superseded(w'.st, r) {
      SupersededStays(w.st, w'.st, r);
    }
    forall r: nat | r < |w'.st.runs| ensures RunSound(w', r) {
      if r < |w.st.runs| && (s.SetDatabase? || s.Write? ==> r != s.run) {
        RunKept(w, w', r);
      } else if r < |w.st.runs| {
        TouchedRunSound(w, s);
      }
    }
    forall i | 0 <= i < |w.pending| ensures PendingSound(w', i) {
      OtherKeepsPending(w, s, i);
    }
  }

  lemma OtherKeepsPending(w: World, s: Step, i: nat)
    requires Sound(w) && Enabled(w, s) && !s.BeginDiscard? && !s.DiscardNext? && i < |w.pending|
    ensures PendingSound(Do(w, s), i)
  {
    assert PendingSound(w, i);
    var r := w.pending[i].run;
    if Superseded(w.st, r) && Do(w, s).st.runs[r].alive {
      SupersededStays(w.st, Do(w, s).st, r);
    }
  }

  lemma StepKeepsSound(w: World, s: Step)
    requires Sound(w) && Enabled(w, s)
    ensures Sound(Do(w, s))
  {
    match s {
      case BeginDiscard(cutoff, listed) => BeginKeepsSound(w, cutoff, listed);
      case DiscardNext(deletes, records) => DiscardKeepsSound(w, deletes, records);
      case _ => OtherKeepsSound(w, s);
    }
  }

  ghost predicate Possible(w: World, steps: seq<Step>)
    decreases |steps|
  {
    steps == [] || (Enabled(w, steps[0]) && Possible(Do(w, steps[0]), steps[1..]))
  }

  ghost function After(w: World, steps: seq<Step>): World
    requires Possible(w, steps)
    decreases |steps|
  {
    if steps == [] then w else After(Do(w, steps[0]), steps[1..])
  }

  lemma {:induction false} AlwaysSound(w: World, steps: seq<Step>)
    requires Sound(w) && Possible(w, steps)
    ensures Sound(After(w, steps))
    decreases |steps|
  {
    if steps != [] {
      StepKeepsSound(w, steps[0]);
      AlwaysSound(Do(w, steps[0]), steps[1..]);
    }
  }

  // ---- the method is a run of these steps --------------------------------------------------

  function NextDiscards(listed: seq<nat>, deletes: nat -> bool, records: nat -> bool): (steps: seq<Step>)
    ensures |steps| == |listed|
    ensures forall i :: 0 <= i < |steps| ==> steps[i] == DiscardNext(deletes(listed[i]), records(listed[i]))
  {
    seq(|listed|, i requires 0 <= i < |listed| => DiscardNext(deletes(listed[i]), records(listed[i])))
  }

  function DiscardSteps(cutoff: int, listed: seq<nat>, deletes: nat -> bool, records: nat -> bool): seq<Step> {
    [BeginDiscard(cutoff, listed)] + NextDiscards(listed, deletes, records)
  }

  /** The runs still to be done are those of the list. */
  ghost predicate PendingAre(pending: seq<Listed>, listed: seq<nat>) {
    |pending| == |listed| && forall i :: 0 <= i < |listed| ==> pending[i].run == listed[i]
  }

  lemma {:induction false} NextDiscardsDo(w: World, listed: seq<nat>, deletes: nat -> bool, records: nat -> bool)
    requires PendingAre(w.pending, listed)
    ensures var steps := NextDiscards(listed, deletes, records);
      Possible(w, steps) && After(w, steps).st == DiscardAll(w.st, listed, deletes, records) && After(w, steps).pending == []
    decreases |listed|
  {
    if listed != [] {
      var steps := NextDiscards(listed, deletes, records);
      var mid := Do(w, steps[0]);
      assert PendingAre(mid.pending, listed[1..]);
      assert steps[1..] == NextDiscards(listed[1..], deletes, records);
      NextDiscardsDo(mid, listed[1..], deletes, records);
      FirstDiscarded(w.st, listed, deletes, records);
    }
  }

  lemma {:induction false} FirstDiscarded(st: State, listed: seq<nat>, deletes: nat -> bool, records: nat -> bool)
    requires listed != []
    ensures DiscardAll(st, listed, deletes, records) ==
      DiscardAll(DiscardOne(st, listed[0], deletes(listed[0]), records(listed[0])), listed[1..], deletes, records)
    decreases |listed|
  {
    var n := |listed| - 1;
    if n == 0 {
      assert listed[..0] == [] && listed[1..] == [];
    } else {
      FirstDiscarded(st, listed[..n], deletes, records);
      assert listed[..n][1..] == listed[1..][..n - 1];
    }
  }

  /** Discard, left undisturbed, is one BeginDiscard and one DiscardNext for each listed
      run: what it does to the store is a run of the interleaving model. */
  lemma DiscardIsARun(w: World, cutoff: int, listed: seq<nat>, deletes: nat -> bool, records: nat -> bool)
    requires w.pending == [] && forall r: nat :: r in listed <==> Discardable(w.st, cutoff, r)
    ensures var steps := DiscardSteps(cutoff, listed, deletes, records);
      Possible(w, steps) && After(w, steps).st == DiscardAll(w.st, listed, deletes, records) && After(w, steps).pending == []
  {
    var steps := DiscardSteps(cutoff, listed, deletes, records);
    assert forall i :: 0 <= i < |listed| ==> listed[i] in listed;
    var mid := Do(w, BeginDiscard(cutoff, listed));
    NextDiscardsDo(mid, listed, deletes, records);
    assert steps[1..] == NextDiscards(listed, deletes, records);
  }

  /** Every loss is one a sweep's cutoff allowed. */
  ghost predicate CutBySweep(steps: seq<Step>, l: Listed) {
    exists j :: 0 <= j < |steps| && steps[j].BeginDiscard? && steps[j].cutoff == l.cutoff
  }

  lemma {:induction false} LossesAreSwept(w: World, steps: seq<Step>, l: Listed)
    requires Possible(w, steps) && (l in After(w, steps).lost || l in After(w, steps).pending)
    ensures l in w.lost || l in w.pending || CutBySweep(steps, l)
    decreases |steps|
  {
    if steps != [] {
      var mid := Do(w, steps[0]);
      LossesAreSwept(mid, steps[1..], l);
      if CutBySweep(steps[1..], l) {
        var j :| 0 <= j < |steps[1..]| && steps[1..][j].BeginDiscard? && steps[1..][j].cutoff == l.cutoff;
        assert steps[j + 1].BeginDiscard? && steps[j + 1].cutoff == l.cutoff;
      } else if steps[0].BeginDiscard? && l in mid.pending {
        assert steps[0].cutoff == l.cutoff;
      }
    }
  }

  /** In every interleaving, of each run of a stored dataset that was ever given a
      path: if no later run was given one it still has the path, and the files if it
      wrote any; if it lost the path, the files the server wrote are gone, and it had
      been recorded as finished before the cutoff of one of the sweeps. */
  lemma NewestDatabaseIsKept(steps: seq<Step>, r: nat)
    requires Possible(START, steps)
    requires var st := After(START, steps).st;
      r < |st.runs| && st.runs[r].alive && st.runs[r].kept != NoPath
    ensures var st := After(START, steps).st;
      && (!Superseded(st, r) ==> Holds(st, r) && (st.runs[r].written ==> r in st.files))
      && (!Holds(st, r) && st.runs[r].kept == Served ==> r !in st.files)
      && (!Holds(st, r) ==> exists l: Listed :: l.run == r && Overdue(st, l) && CutBySweep(steps, l))
  {
    AlwaysSound(START, steps);
    var w := After(START, steps);
    assert RunSound(w, r);
    if !Holds(w.st, r) {
      var i :| 0 <= i < |w.lost| && w.lost[i].run == r;
      LossesAreSwept(START, steps, w.lost[i]);
      assert Overdue(w.st, w.lost[i]);
    }
  }

  /** The dataset's most recent run that wrote a database. */
  ghost predicate NewestWritten(st: State, r: nat) {
    && r < |st.runs| && st.runs[r].alive && st.runs[r].written
    && forall q :: r < q < |st.runs| && st.runs[q].dataset == st.runs[r].dataset && st.runs[q].alive ==> !st.runs[q].written
  }

  /** In every interleaving, the newest database written is still there unless a later
      run of the dataset was given a path and has written nothing. */
  lemma NewestWrittenIsKept(steps: seq<Step>, r: nat)
    requires Possible(START, steps) && NewestWritten(After(START, steps).st, r)
    ensures var st := After(START, steps).st;
      || (Holds(st, r) && r in st.files)
      || exists q :: r < q < |st.runs| && st.runs[q].dataset == st.runs[r].dataset &&
                     st.runs[q].kept != NoPath && !st.runs[q].written
  {
    AlwaysSound(START, steps);
    var w := After(START, steps);
    assert RunSound(w, r);
  }

  /** A later run of the dataset holds a path with nothing written there. */
  ghost predicate EmptyRunAfter(st: State, r: nat)
    requires r < |st.runs|
  {
    exists q :: r < q < |st.runs| && Holds(st, q) && st.runs[q].dataset == st.runs[r].dataset && !st.runs[q].written
  }

  /** Exact: a sweep lists the newest database written, and then deletes it if it can,
      if and only if its run finished before the cutoff and a later run of the dataset
      holds a path where it wrote nothing. */
  lemma NewestWrittenIsListedIff(st: State, cutoff: int, r: nat)
    requires NewestWritten(st, r) && Holds(st, r)
    ensures Discardable(st, cutoff, r) <==>
      st.runs[r].finished.Some? && st.runs[r].finished.value < cutoff && EmptyRunAfter(st, r)
  {
    var newest := NewestHolding(st, st.runs[r].dataset, |st.runs|);
    assert newest.Some? && newest.value >= r;
    if newest.value > r {
      assert Holds(st, newest.value) && !st.runs[newest.value].written;
    }
  }

  /** A run that fails before it writes anything takes the place of the only readable
      database: two runs, of which the first wrote one. */
  lemma EmptyRunTakesItsPlace(d: Dataset)
    ensures var steps := EmptyRunSteps(d);
      Possible(START, steps) &&
      var st := After(START, steps).st;
      |st.runs| == 2 && st.runs[0].alive && st.runs[0].written && !Holds(st, 0) && st.files == {} && !st.runs[1].written
  {
    var run := Run(d, true, NoPath, NoPath, false, None, {});
    var one := run.(path := Served, kept := Served, written := true, finished := Some(1), ends := {1});
    var two := run.(path := Served, kept := Served, finished := Some(2), ends := {2});
    var built := World(State([one, two], {0}), [], []);
    FirstRun(d);
    SecondRun(d, one);
    OnlyFirstIsListed(built.st, 10);
    assert Discardable(built.st, 10, 0);
    var listing := BeginDiscard(10, [0]);
    assert ListedAs(built.st, 10, [0]) == [Listed(0, 1, 10)] by {
      assert [0][..0] == [];
    }
    Chained(START, FirstSteps(d), SecondSteps(d));
    Chained(START, FirstSteps(d) + SecondSteps(d), [listing, DiscardNext(true, true)]);
    TwoSteps(built, listing, DiscardNext(true, true));
  }

  function FirstSteps(d: Dataset): seq<Step> { [Create(d), SetDatabase(0, Served)] + [Write(0), Finish(0, 1)] }

  function SecondSteps(d: Dataset): seq<Step> { [Create(d), SetDatabase(1, Served)] + [Finish(1, 2)] }

  function EmptyRunSteps(d: Dataset): seq<Step> {
    FirstSteps(d) + SecondSteps(d) + [BeginDiscard(10, [0]), DiscardNext(true, true)]
  }

  lemma {:induction false} Chained(w: World, first: seq<Step>, then_: seq<Step>)
    requires Possible(w, first)
    ensures Possible(w, first + then_) <==> Possible(After(w, first), then_)
    ensures Possible(w, first + then_) ==> After(w, first + then_) == After(After(w, first), then_)
    decreases |first|
  {
    if first == [] {
      assert first + then_ == then_;
    } else {
      assert (first + then_)[1..] == first[1..] + then_;
      Chained(Do(w, first[0]), first[1..], then_);
    }
  }

  lemma OneStep(w: World, a: Step)
    requires Enabled(w, a)
    ensures Possible(w, [a]) && After(w, [a]) == Do(w, a)
  {
    assert [a][1..] == [];
  }

  lemma TwoSteps(w: World, a: Step, b: Step)
    requires Enabled(w, a) && Enabled(Do(w, a), b)
    ensures Possible(w, [a, b]) && After(w, [a, b]) == Do(Do(w, a), b)
  {
    assert [a, b][1..] == [b];
    OneStep(Do(w, a), b);
  }

  /** A run is created last and given its path. */
  lemma Started(w: World, d: Dataset)
    ensures var n := |w.st.runs|; var steps := [Create(d), SetDatabase(n, Served)];
      var run := Run(d, true, Served, Served, false, None, {});
      Possible(w, steps) && After(w, steps) == w.(st := w.st.(runs := w.st.runs + [run]))
  {
    var n := |w.st.runs|;
    var run := Run(d, true, NoPath, NoPath, false, None, {});
    TwoSteps(w, Create(d), SetDatabase(n, Served));
    assert (w.st.runs + [run])[n := run.(path := Served, kept := Served)] == w.st.runs + [run.(path := Served, kept := Served)];
  }

  lemma FirstRun(d: Dataset)
    ensures var one := Run(d, true, Served, Served, true, Some(1), {1});
      Possible(START, FirstSteps(d)) && After(START, FirstSteps(d)) == World(State([one], {0}), [], [])
  {
    var given := Run(d, true, Served, Served, false, None, {});
    Started(START, d);
    assert [] + [given] == [given];
    var w := World(State([given], {}), [], []);
    TwoSteps(w, Write(0), Finish(0, 1));
    var wrote := given.(written := true);
    var one := wrote.(finished := Some(1), ends := {1});
    assert [given][0 := wrote] == [wrote] && {} + {0} == {0};
    assert {} + {1} == {1} && [wrote][0 := one] == [one];
    assert Do(w, Write(0)) == World(State([wrote], {0}), [], []);
    Chained(START, [Create(d), SetDatabase(0, Served)], [Write(0), Finish(0, 1)]);
  }

  lemma SecondRun(d: Dataset, one: Run)
    requires one == Run(d, true, Served, Served, true, Some(1), {1})
    ensures var w := World(State([one], {0}), [], []);
      var two := Run(d, true, Served, Served, false, Some(2), {2});
      Possible(w, SecondSteps(d)) && After(w, SecondSteps(d)) == World(State([one, two], {0}), [], [])
  {
    var w := World(State([one], {0}), [], []);
    var given := Run(d, true, Served, Served, false, None, {});
    Started(w, d);
    assert [one] + [given] == [one, given];
    var two := given.(finished := Some(2), ends := {2});
    assert {} + {2} == {2} && [one, given][1 := two] == [one, two];
    OneStep(World(State([one, given], {0}), [], []), Finish(1, 2));
    Chained(w, [Create(d), SetDatabase(1, Served)], [Finish(1, 2)]);
  }

  lemma OnlyFirstIsListed(st: State, cutoff: int)
    requires |st.runs| == 2 && Holds(st, 0) && Holds(st, 1) && st.runs[0].dataset == st.runs[1].dataset
    requires st.runs[0].finished.Some? && st.runs[0].finished.value < cutoff
    ensures forall r: nat :: r in [0] <==> Discardable(st, cutoff, r)
  {
    assert NewestHolding(st, st.runs[1].dataset, 2) == Some(1);
  }

  /** A database whose files could not be deleted, or whose discard could not be
      recorded, is listed again by any later sweep. */
  lemma FailedDiscardIsListedAgain(st: State, cutoff: int, r: nat, deletes: bool, records: bool, later: int)
    requires Discardable(st, cutoff, r) && cutoff <= later
    requires (!deletes && st.runs[r].path == Served) || !records
    ensures Discardable(DiscardOne(st, r, deletes, records), later, r)
  {
    var st' := DiscardOne(st, r, deletes, records);
    assert st'.runs == st.runs;
    SameNewest(st, st', st.runs[r].dataset, |st.runs|);
  }

  lemma {:induction false} SameNewest(st: State, st': State, d: Dataset, below: nat)
    requires st.runs == st'.runs && below <= |st.runs|
    ensures NewestHolding(st, d, below) == NewestHolding(st', d, below)
    decreases below
  {
    if below > 0 {
      SameNewest(st, st', d, below - 1);
    }
  }
}
