/**
  What changed between two audits of one dataset (compareFindings and
  sortFindingDeltas in internal/report/compare.go).  The deltas are proved to be
  a patch from the baseline's findings to the new report's.
*/
module Compare {
  import opened Wrappers
  import Strings

  datatype Info = Info(
    id: string, rule: string, severity: string, title: string, table: string, source: string, column: string, count: int)

  datatype Status = New | Worsened | Resolved | Improved | Unchanged

  datatype Delta = Delta(
    id: string, rule: string, status: Status, severity: string, severityBefore: string, title: string,
    table: string, source: string, column: string, before: int, after: int)

  datatype Summary = Summary(
    added: nat, worsened: nat, resolved: nat, improved: nat, same: nat, newErrors: nat, newWarnings: nat)

  // ---- one finding's delta --------------------------------------------------------------

  function StatusOf(prev: Option<Info>, f: Info): Status {
    if prev.None? then New
    else if f.count > prev.value.count then Worsened
    else if f.count < prev.value.count then Improved
    else Unchanged
  }

  function DeltaOf(prev: Option<Info>, f: Info): Delta {
    Delta(f.id, f.rule, StatusOf(prev, f), f.severity,
          if prev.Some? && prev.value.severity != f.severity then prev.value.severity else "",
          f.title, f.table, f.source, f.column,
          if prev.Some? then prev.value.count else 0, f.count)
  }

  function ResolvedDelta(f: Info): Delta {
    Delta(f.id, f.rule, Resolved, f.severity, "", f.title, f.table, f.source, f.column, f.count, 0)
  }

  predicate Listed(d: Delta) { d.status != Unchanged || d.severityBefore != "" }

  function OnlyListed(ds: seq<Delta>): seq<Delta> {
    if ds == [] then []
    else OnlyListed(ds[..|ds| - 1]) + (if Listed(ds[|ds| - 1]) then [ds[|ds| - 1]] else [])
  }

  function Get(m: map<string, Info>, id: string): Option<Info> { if id in m then Some(m[id]) else None }

  function Ids(fs: seq<Info>): set<string> { set f | f in fs :: f.id }

  function ById(fs: seq<Info>): map<string, Info> {
    if fs == [] then map[] else ById(fs[..|fs| - 1])[fs[|fs| - 1].id := fs[|fs| - 1]]
  }

  /** The deltas of the new report's findings, listed or not; a finding is matched
      once, as the baseline entry is removed when it is. */
  function Forward(old_: map<string, Info>, after: seq<Info>): seq<Delta> {
    if after == [] then []
    else
      var n := |after| - 1;
      var left := old_ - Ids(after[..n]);
      Forward(old_, after[..n]) + [DeltaOf(Get(left, after[n].id), after[n])]
  }

  function Tally(s: Summary, d: Delta): Summary {
    match d.status
    case New => s.(added := s.added + 1,
                   newErrors := s.newErrors + (if d.severity == "error" then 1 else 0),
                   newWarnings := s.newWarnings + (if d.severity == "warning" then 1 else 0))
    case Worsened => s.(worsened := s.worsened + 1)
    case Resolved => s.(resolved := s.resolved + 1)
    case Improved => s.(improved := s.improved + 1)
    case Unchanged => s.(same := s.same + 1)
  }

  const NOTHING := Summary(0, 0, 0, 0, 0, 0, 0)

  function TallyAll(ds: seq<Delta>): Summary {
    if ds == [] then NOTHING else Tally(TallyAll(ds[..|ds| - 1]), ds[|ds| - 1])
  }

  // ---- the order deltas are read in --------------------------------------------------------

  function Rank(s: Status): nat {
    match s case New => 0 case Worsened => 1 case Resolved => 2 case Improved => 3 case Unchanged => 4
  }

  function SeverityRank(s: string): nat { if s == "error" then 0 else if s == "warning" then 1 else 2 }

  /** sortFindingDeltas' comparison. */
  predicate Before(a: Delta, b: Delta) {
    if a.status != b.status then Rank(a.status) < Rank(b.status)
    else if a.severity != b.severity then SeverityRank(a.severity) < SeverityRank(b.severity)
    else if a.rule != b.rule then Strings.Less(a.rule, b.rule)
    else if a.table != b.table then Strings.Less(a.table, b.table)
    else Strings.Less(a.column, b.column)
  }

  function Insert(ds: seq<Delta>, d: Delta): seq<Delta> {
    if ds == [] then [d]
    else if Before(d, ds[0]) then [d] + ds
    else [ds[0]] + Insert(ds[1..], d)
  }

  /** A stable sort: equals keep their order. */
  function Sort(ds: seq<Delta>): seq<Delta> {
    if ds == [] then [] else Insert(Sort(ds[..|ds| - 1]), ds[|ds| - 1])
  }

  predicate KnownSeverity(s: string) { s == "error" || s == "warning" || s == "info" }

  ghost predicate KnownSeverities(ds: seq<Delta>) { forall d :: d in ds ==> KnownSeverity(d.severity) }

  ghost predicate Ordered(ds: seq<Delta>) {
    forall i, j :: 0 <= i < j < |ds| ==> !Before(ds[j], ds[i])
  }

  /** No two entries tie. */
  ghost predicate NoTies(ds: seq<Delta>) {
    forall a, b :: a in ds && b in ds && a != b ==> Before(a, b) || Before(b, a)
  }

  lemma BeforeIsOrder(a: Delta, b: Delta, c: Delta)
    requires KnownSeverity(a.severity) && KnownSeverity(b.severity) && KnownSeverity(c.severity)
    ensures !(Before(a, b) && Before(b, a))
    ensures Before(a, b) && Before(b, c) ==> Before(a, c)
    ensures !Before(a, b) && !Before(b, c) ==> !Before(a, c)
    ensures (a.rule, a.table, a.column) != (b.rule, b.table, b.column) ==> Before(a, b) || Before(b, a)
  {
    StringOrder(a.rule, b.rule, c.rule);
    StringOrder(a.table, b.table, c.table);
    StringOrder(a.column, b.column, c.column);
  }

  lemma StringOrder(a: string, b: string, c: string)
    ensures !(Strings.Less(a, b) && Strings.Less(b, a)) && !Strings.Less(a, a)
    ensures a != b ==> Strings.Less(a, b) || Strings.Less(b, a)
    ensures Strings.Less(a, b) && Strings.Less(b, c) ==> Strings.Less(a, c)
    ensures !Strings.Less(a, b) && !Strings.Less(b, c) ==> !Strings.Less(a, c)
  {
    Strings.LessTotal(a, b);
    Strings.LessTotal(b, c);
    Strings.LessTotal(a, c);
    Strings.NotLessThanItself(a);
    if Strings.Less(a, b) && Strings.Less(b, c) {
      Strings.LessTransitive(a, b, c);
    }
    if Strings.Less(c, b) && Strings.Less(b, a) {
      Strings.LessTransitive(c, b, a);
    }
  }

  lemma StaysInFront(ds: seq<Delta>, d: Delta)
    requires ds != [] && Ordered(ds) && !Before(d, ds[0])
    requires multiset(Insert(ds[1..], d)) == multiset(ds[1..]) + multiset{d}
    ensures forall x :: x in Insert(ds[1..], d) ==> !Before(x, ds[0])
  {
    forall x | x in Insert(ds[1..], d) ensures !Before(x, ds[0]) {
      assert x in multiset(Insert(ds[1..], d));
      assert x == d || x in ds[1..];
      if x in ds[1..] {
        var k :| 0 <= k < |ds[1..]| && ds[1..][k] == x;
        assert ds[k + 1] == x;
      }
    }
  }

  lemma {:induction false} InsertKeepsAll(ds: seq<Delta>, d: Delta)
    ensures multiset(Insert(ds, d)) == multiset(ds) + multiset{d}
    decreases |ds|
  {
    if ds != [] && !Before(d, ds[0]) {
      InsertKeepsAll(ds[1..], d);
      assert ds == [ds[0]] + ds[1..];
    }
  }

  lemma LastOfAll(ds: seq<Delta>)
    requires ds != []
    ensures multiset(ds) == multiset(ds[..|ds| - 1]) + multiset{ds[|ds| - 1]}
  {
    assert ds == ds[..|ds| - 1] + [ds[|ds| - 1]];
  }

  /** Sorting loses and adds nothing, whatever the severities. */
  lemma {:induction false} SortKeepsAll(ds: seq<Delta>)
    ensures multiset(Sort(ds)) == multiset(ds)
    decreases |ds|
  {
    if ds != [] {
      var n := |ds| - 1;
      SortKeepsAll(ds[..n]);
      InsertKeepsAll(Sort(ds[..n]), ds[n]);
      LastOfAll(ds);
    }
  }

  lemma {:induction false} InsertKeepsOrder(ds: seq<Delta>, d: Delta)
    requires Ordered(ds) && KnownSeverities(ds) && KnownSeverity(d.severity)
    ensures Ordered(Insert(ds, d))
    decreases |ds|
  {
    if ds != [] {
      var out := Insert(ds, d);
      if Before(d, ds[0]) {
        forall j | 1 <= j < |out| ensures !Before(out[j], out[0]) {
          assert out[j] == ds[j - 1] && ds[j - 1] in ds && ds[0] in ds;
          BeforeIsOrder(ds[j - 1], ds[0], d);
          BeforeIsOrder(d, ds[0], d);
          BeforeIsOrder(d, ds[j - 1], ds[0]);
        }
      } else {
        InsertKeepsOrder(ds[1..], d);
        InsertKeepsAll(ds[1..], d);
        StaysInFront(ds, d);
      }
    }
  }

  lemma {:induction false} SortOrders(ds: seq<Delta>)
    requires KnownSeverities(ds)
    ensures Ordered(Sort(ds)) && multiset(Sort(ds)) == multiset(ds)
    decreases |ds|
  {
    if ds != [] {
      var n := |ds| - 1;
      SortOrders(ds[..n]);
      SortKeepsAll(ds);
      forall d | d in Sort(ds[..n]) ensures KnownSeverity(d.severity) {
        assert d in multiset(Sort(ds[..n]));
        assert d in ds[..n];
      }
      InsertKeepsOrder(Sort(ds[..n]), ds[n]);
    }
  }

  /** How an ordered list reads: what is new, then what got worse, what was resolved, what
      improved, and the unchanged; within each, errors, then warnings, then the rest; and
      within a severity by rule, table and column. */
  lemma OrderedReads(ds: seq<Delta>, i: nat, j: nat)
    requires Ordered(ds) && i < j < |ds|
    ensures ds[j].status == New ==> ds[i].status == New
    ensures ds[j].status == Worsened ==> ds[i].status in {New, Worsened}
    ensures ds[j].status == Resolved ==> ds[i].status in {New, Worsened, Resolved}
    ensures ds[j].status == Improved ==> ds[i].status != Unchanged
    ensures ds[i].status == ds[j].status ==>
      && (ds[j].severity == "error" ==> ds[i].severity == "error")
      && (ds[j].severity == "warning" ==> ds[i].severity == "error" || ds[i].severity == "warning")
    ensures (ds[i].status, ds[i].severity) == (ds[j].status, ds[j].severity) ==> InPlaceOrder(ds[i], ds[j])
  {
    assert !Before(ds[j], ds[i]);
    StringOrder(ds[i].rule, ds[j].rule, ds[i].rule);
    StringOrder(ds[i].table, ds[j].table, ds[i].table);
    StringOrder(ds[i].column, ds[j].column, ds[i].column);
  }

  predicate InPlaceOrder(a: Delta, b: Delta) {
    Strings.AtMost(a.rule, b.rule) &&
    (a.rule == b.rule ==> Strings.AtMost(a.table, b.table) && (a.table == b.table ==> Strings.AtMost(a.column, b.column)))
  }

  /** Without ties there is only one order. */
  lemma {:induction false} OrderIsUnique(a: seq<Delta>, b: seq<Delta>)
    requires multiset(a) == multiset(b) && Ordered(a) && Ordered(b) && NoTies(a)
    ensures a == b
    decreases |a|
  {
    SameSize(a, b);
    if a != [] {
      SameFirst(a, b);
      TailsAgree(a, b);
      OrderIsUnique(a[1..], b[1..]);
    }
  }

  lemma SameFirst(a: seq<Delta>, b: seq<Delta>)
    requires multiset(a) == multiset(b) && Ordered(a) && Ordered(b) && NoTies(a) && a != [] && b != []
    ensures a[0] == b[0]
  {
    assert a[0] in multiset(a) && b[0] in multiset(b);
    assert a[0] in b && b[0] in a;
    var i :| 0 <= i < |b| && b[i] == a[0];
    var j :| 0 <= j < |a| && a[j] == b[0];
  }

  lemma TailsAgree(a: seq<Delta>, b: seq<Delta>)
    requires multiset(a) == multiset(b) && Ordered(a) && Ordered(b) && NoTies(a) && a != [] && b != [] && a[0] == b[0]
    ensures multiset(a[1..]) == multiset(b[1..]) && Ordered(a[1..]) && Ordered(b[1..]) && NoTies(a[1..])
  {
    TailMembers(a);
    TailMembers(b);
  }

  lemma TailMembers(a: seq<Delta>)
    requires a != []
    ensures multiset(a[1..]) == multiset(a) - multiset{a[0]} && forall x :: x in a[1..] ==> x in a
  {
    assert a == [a[0]] + a[1..];
  }

  lemma SameSize(a: seq<Delta>, b: seq<Delta>)
    requires multiset(a) == multiset(b)
    ensures |a| == |b|
  {
    assert |multiset(a)| == |a| && |multiset(b)| == |b|;
  }

  // ---- compareFindings -------------------------------------------------------------------------

  function Leftover(before: seq<Info>, after: seq<Info>): map<string, Info> { ById(before) - Ids(after) }

  /** The resolved findings in the baseline's own order. */
  function ResolvedDeltas(before: seq<Info>, gone: set<string>): seq<Delta> {
    if before == [] then []
    else
      var n := |before| - 1;
      ResolvedDeltas(before[..n], gone) + (if before[n].id in gone then [ResolvedDelta(before[n])] else [])
  }

  function Deltas(before: seq<Info>, after: seq<Info>): seq<Delta> {
    OnlyListed(Forward(ById(before), after)) + ResolvedDeltas(before, Leftover(before, after).Keys)
  }

  ghost predicate DistinctIds(fs: seq<Info>) {
    forall i, j :: 0 <= i < j < |fs| ==> fs[i].id != fs[j].id
  }

  predicate Alike(f: Info, g: Info) { f.rule == g.rule && f.table == g.table && f.column == g.column }

  /** An id stands for rule, table and column: all findings are on one line number. */
  ghost predicate IdsSeparate(fs: seq<Info>) {
    forall f, g :: f in fs && g in fs ==> (f.id == g.id <==> Alike(f, g))
  }

  ghost predicate Readable(before: seq<Info>, after: seq<Info>) {
    && DistinctIds(before) && DistinctIds(after) && IdsSeparate(before + after)
    && (forall f :: f in before + after ==> KnownSeverity(f.severity))
  }

  /** What compareFindings may list: the deltas found going forward and the leftovers,
      in whatever order the map gives them up, sorted.  With distinct ids these are
      the deltas, and a patch; where ids stand for places, the order is settled too. */
  ghost predicate Lists(before: seq<Info>, after: seq<Info>, out: seq<Delta>) {
    && (exists gone :: OneEach(Leftover(before, after), gone) && out == Sort(OnlyListed(Forward(ById(before), after)) + gone))
    && (DistinctIds(before) && DistinctIds(after) ==>
          && multiset(out) == multiset(Deltas(before, after))
          && (Patch(Report(before), out) == Report(after) <==> forall id :: !SilentlyNamed(before, after, id)))
    && (Readable(before, after) ==> out == Sort(Deltas(before, after)))
  }

  /** compareFindings. */
  method CompareFindings(before: seq<Info>, after: seq<Info>) returns (out: seq<Delta>, sum: Summary)
    ensures Lists(before, after, out)
    ensures sum == TallyAll(Forward(ById(before), after)).(resolved := |Leftover(before, after)|)
  {
    var listed, old_;
    listed, old_, sum := ForwardPass(before, after);
    NothingResolvedForward(ById(before), after);
    ByIdKeys(before);
    var gone := TakeLeftovers(old_);
    sum := sum.(resolved := sum.resolved + |gone|);
    out := Sort(listed + gone);
    ListsDeltas(before, after, gone);
  }

  lemma ListsDeltas(before: seq<Info>, after: seq<Info>, gone: seq<Delta>)
    requires OneEach(Leftover(before, after), gone)
    ensures Lists(before, after, Sort(OnlyListed(Forward(ById(before), after)) + gone))
  {
    var out := Sort(OnlyListed(Forward(ById(before), after)) + gone);
    if DistinctIds(before) && DistinctIds(after) {
      ListedInAnyOrder(before, after, gone);
      ListedPatchesBaseline(before, after, out);
    }
    if Readable(before, after) {
      LeftoversInAnyOrder(before, after, gone);
    }
  }

  /** The loop over the new report's findings. */
  method ForwardPass(before: seq<Info>, after: seq<Info>)
    returns (listed: seq<Delta>, old_: map<string, Info>, sum: Summary)
    ensures old_ == Leftover(before, after)
    ensures listed == OnlyListed(Forward(ById(before), after)) && sum == TallyAll(Forward(ById(before), after))
  {
    old_ := Index(before);
    listed, sum := [], NOTHING;
    var i := 0;
    assert after[..0] == [] && old_ - Ids([]) == old_;
    while i < |after|
      invariant 0 <= i <= |after|
      invariant old_ == ById(before) - Ids(after[..i])
      invariant listed == OnlyListed(Forward(ById(before), after[..i]))
      invariant sum == TallyAll(Forward(ById(before), after[..i]))
    {
      var f := after[i];
      var d := DeltaOf(Get(old_, f.id), f);
      PassStep(ById(before), after, i);
      old_ := old_ - {f.id};
      sum := Tally(sum, d);
      if Listed(d) {
        listed := listed + [d];
      }
      i := i + 1;
    }
    assert after[..i] == after;
  }

  lemma PassStep(b: map<string, Info>, after: seq<Info>, i: nat)
    requires i < |after|
    ensures var d := DeltaOf(Get(b - Ids(after[..i]), after[i].id), after[i]);
      && b - Ids(after[..i + 1]) == (b - Ids(after[..i])) - {after[i].id}
      && OnlyListed(Forward(b, after[..i + 1])) == OnlyListed(Forward(b, after[..i])) + (if Listed(d) then [d] else [])
      && TallyAll(Forward(b, after[..i + 1])) == Tally(TallyAll(Forward(b, after[..i])), d)
  {
    assert after[..i + 1][..i] == after[..i];
    IdsStep(after, i);
    TallyStep(Forward(b, after[..i]), DeltaOf(Get(b - Ids(after[..i]), after[i].id), after[i]));
  }

  method Index(fs: seq<Info>) returns (m: map<string, Info>)
    ensures m == ById(fs)
  {
    m := map[];
    var i := 0;
    while i < |fs|
      invariant 0 <= i <= |fs| && m == ById(fs[..i])
    {
      assert fs[..i + 1][..i] == fs[..i];
      m := m[fs[i].id := fs[i]];
      i := i + 1;
    }
    assert fs[..i] == fs;
  }

  /** Ranging over a map: each entry once, in any order. */
  method TakeLeftovers(old_: map<string, Info>) returns (gone: seq<Delta>)
    requires KeyedById(old_)
    ensures |gone| == |old_| && OneEach(old_, gone)
  {
    gone := [];
    var rest := old_.Keys;
    assert old_.Keys - rest == {};
    while rest != {}
      invariant rest <= old_.Keys && |gone| == |old_.Keys| - |rest|
      invariant OneEachOf(old_, old_.Keys - rest, gone)
      decreases rest
    {
      var id :| id in rest;
      OneMoreOf(old_, old_.Keys - rest, gone, id);
      assert old_.Keys - rest + {id} == old_.Keys - (rest - {id});
      rest := rest - {id};
      gone := gone + [ResolvedDelta(old_[id])];
    }
    assert old_.Keys - rest == old_.Keys && |old_.Keys| == |old_|;
  }

  ghost predicate OneEachOf(old_: map<string, Info>, done: set<string>, gone: seq<Delta>) {
    && (forall i :: 0 <= i < |gone| ==> gone[i].id in done && gone[i].id in old_ && gone[i] == ResolvedDelta(old_[gone[i].id]))
    && IdsDiffer(gone)
    && (forall id :: id in done ==> exists i :: 0 <= i < |gone| && gone[i].id == id)
  }

  lemma OneMoreOf(old_: map<string, Info>, done: set<string>, gone: seq<Delta>, id: string)
    requires KeyedById(old_) && OneEachOf(old_, done, gone) && id in old_ && id !in done
    ensures OneEachOf(old_, done + {id}, gone + [ResolvedDelta(old_[id])])
  {
    var more := gone + [ResolvedDelta(old_[id])];
    assert more[|gone|].id == id;
    forall x | x in done + {id} ensures exists i :: 0 <= i < |more| && more[i].id == x {
      if x in done {
        var i :| 0 <= i < |gone| && gone[i].id == x;
        assert more[i].id == x;
      }
    }
  }

  ghost predicate KeyedById(m: map<string, Info>) { forall id :: id in m ==> m[id].id == id }

  ghost predicate OneEach(old_: map<string, Info>, gone: seq<Delta>) { OneEachOf(old_, old_.Keys, gone) }

  lemma IdsStep(fs: seq<Info>, i: nat)
    requires i < |fs|
    ensures Ids(fs[..i + 1]) == Ids(fs[..i]) + {fs[i].id}
  {
    assert fs[..i + 1] == fs[..i] + [fs[i]];
  }

  lemma {:induction false} ByIdKeys(fs: seq<Info>)
    ensures KeyedById(ById(fs)) && ById(fs).Keys == Ids(fs)
    ensures forall id :: id in ById(fs) ==> ById(fs)[id] in fs
    decreases |fs|
  {
    if fs != [] {
      var n := |fs| - 1;
      ByIdKeys(fs[..n]);
      IdsStep(fs, n);
      assert fs == fs[..n] + [fs[n]] && fs[..n + 1] == fs;
    }
  }

  lemma {:induction false} ByIdFinds(fs: seq<Info>, f: Info)
    requires DistinctIds(fs) && f in fs
    ensures f.id in ById(fs) && ById(fs)[f.id] == f
    decreases |fs|
  {
    var n := |fs| - 1;
    assert fs == fs[..n] + [fs[n]];
    if f != fs[n] {
      var i :| 0 <= i < n && fs[i] == f;
      ByIdFinds(fs[..n], f);
    }
  }

  lemma ByIdMeans(fs: seq<Info>)
    ensures KeyedById(ById(fs)) && ById(fs).Keys == Ids(fs)
    ensures forall id :: id in ById(fs) ==> ById(fs)[id] in fs
    ensures DistinctIds(fs) ==> forall f :: f in fs ==> f.id in ById(fs) && ById(fs)[f.id] == f
  {
    ByIdKeys(fs);
    if DistinctIds(fs) {
      forall f | f in fs ensures f.id in ById(fs) && ById(fs)[f.id] == f {
        ByIdFinds(fs, f);
      }
    }
  }

  lemma {:induction false} NothingResolvedForward(old_: map<string, Info>, after: seq<Info>)
    ensures TallyAll(Forward(old_, after)).resolved == 0
    decreases |after|
  {
    if after != [] {
      var n := |after| - 1;
      NothingResolvedForward(old_, after[..n]);
      TallyStep(Forward(old_, after[..n]), DeltaOf(Get(old_ - Ids(after[..n]), after[n].id), after[n]));
    }
  }

  lemma TallyStep(ds: seq<Delta>, d: Delta)
    ensures TallyAll(ds + [d]) == Tally(TallyAll(ds), d)
    ensures OnlyListed(ds + [d]) == OnlyListed(ds) + (if Listed(d) then [d] else [])
  {
    assert (ds + [d])[..|ds|] == ds;
  }

  lemma ForwardOneMore(old_: map<string, Info>, after: seq<Info>)
    requires DistinctIds(after) && after != []
    ensures var n := |after| - 1;
      Forward(old_, after) == Forward(old_, after[..n]) + [DeltaOf(Get(old_, after[n].id), after[n])]
  {
    var n := |after| - 1;
    FreshId(after);
    assert Get(old_ - Ids(after[..n]), after[n].id) == Get(old_, after[n].id);
  }

  lemma {:induction false} ForwardAt(old_: map<string, Info>, after: seq<Info>, i: nat)
    requires DistinctIds(after) && i < |after|
    ensures |Forward(old_, after)| == |after|
    ensures Forward(old_, after)[i] == DeltaOf(Get(old_, after[i].id), after[i])
    decreases |after|
  {
    var n := |after| - 1;
    ForwardOneMore(old_, after);
    ForwardLength(old_, after[..n]);
    if i < n {
      ForwardAt(old_, after[..n], i);
    }
  }

  lemma {:induction false} ForwardLength(old_: map<string, Info>, after: seq<Info>)
    ensures |Forward(old_, after)| == |after|
    decreases |after|
  {
    if after != [] {
      ForwardLength(old_, after[..|after| - 1]);
    }
  }

  /** With distinct ids the lookups are the baseline's own. */
  lemma ForwardMeans(old_: map<string, Info>, after: seq<Info>)
    requires DistinctIds(after)
    ensures |Forward(old_, after)| == |after|
    ensures forall i :: 0 <= i < |after| ==> Forward(old_, after)[i] == DeltaOf(Get(old_, after[i].id), after[i])
  {
    ForwardLength(old_, after);
    forall i | 0 <= i < |after| ensures Forward(old_, after)[i] == DeltaOf(Get(old_, after[i].id), after[i]) {
      ForwardAt(old_, after, i);
    }
  }

  lemma {:induction false} OnlyListedMeans(ds: seq<Delta>, d: Delta)
    ensures d in OnlyListed(ds) <==> d in ds && Listed(d)
    decreases |ds|
  {
    if ds != [] {
      OnlyListedMeans(ds[..|ds| - 1], d);
      assert ds == ds[..|ds| - 1] + [ds[|ds| - 1]];
    }
  }

  lemma {:induction false} ResolvedDeltasMeans(before: seq<Info>, gone: set<string>, d: Delta)
    ensures d in ResolvedDeltas(before, gone) <==> exists f :: f in before && f.id in gone && d == ResolvedDelta(f)
    decreases |before|
  {
    if before != [] {
      var n := |before| - 1;
      ResolvedDeltasMeans(before[..n], gone, d);
      assert before == before[..n] + [before[n]];
    }
  }

  // ---- one delta for each id that moved --------------------------------------------------------

  /** What the comparison says about one id, if anything. */
  function DeltaFor(before: seq<Info>, after: seq<Info>, id: string): Option<Delta> {
    var b, a := ById(before), ById(after);
    if id in a then
      var d := DeltaOf(Get(b, id), a[id]);
      if Listed(d) then Some(d) else None
    else if id in b then Some(ResolvedDelta(b[id]))
    else None
  }

  lemma ForwardExactly(before: seq<Info>, after: seq<Info>, d: Delta)
    requires DistinctIds(after)
    ensures d in Forward(ById(before), after) <==>
      d.id in ById(after) && d == DeltaOf(Get(ById(before), d.id), ById(after)[d.id])
  {
    var fwd := Forward(ById(before), after);
    ForwardMeans(ById(before), after);
    ByIdMeans(after);
    if d in fwd {
      var i :| 0 <= i < |fwd| && fwd[i] == d;
      assert after[i] in after;
    }
    if d.id in ById(after) {
      var f := ById(after)[d.id];
      var i :| 0 <= i < |after| && after[i] == f;
      assert fwd[i] in fwd;
    }
  }

  lemma ResolvedExactly(before: seq<Info>, after: seq<Info>, d: Delta)
    requires DistinctIds(before)
    ensures d in ResolvedDeltas(before, Leftover(before, after).Keys) <==>
      d.id in ById(before) && d.id !in ById(after) && d == ResolvedDelta(ById(before)[d.id])
  {
    ByIdMeans(before);
    ByIdKeys(after);
    ResolvedDeltasMeans(before, Leftover(before, after).Keys, d);
  }

  lemma DeltasExactly(before: seq<Info>, after: seq<Info>, d: Delta)
    requires DistinctIds(before) && DistinctIds(after)
    ensures d in Deltas(before, after) <==> DeltaFor(before, after, d.id) == Some(d)
  {
    ForwardExactly(before, after, d);
    ResolvedExactly(before, after, d);
    OnlyListedMeans(Forward(ById(before), after), d);
    ByIdKeys(before);
    ByIdKeys(after);
  }

  ghost predicate Carries(d: Delta, f: Info) {
    && d.id == f.id && d.rule == f.rule && d.severity == f.severity && d.title == f.title
    && d.table == f.table && d.source == f.source && d.column == f.column
  }

  ghost predicate Has(fs: seq<Info>, id: string) { exists f :: f in fs && f.id == id }

  /** What a listed delta says: it describes the new report's finding, or the baseline's
      if that is gone, with both counts, 0 where there is no finding; and its status is
      what the two make it. */
  lemma DeltaSays(before: seq<Info>, after: seq<Info>, d: Delta) returns (f: Info)
    requires DistinctIds(before) && DistinctIds(after) && d in Deltas(before, after)
    ensures f in (if d.status == Resolved then before else after) && Carries(d, f)
    ensures d.status == Resolved <==> !Has(after, d.id)
    ensures d.status == New <==> !Has(before, d.id)
    ensures d.after == if d.status == Resolved then 0 else f.count
    ensures d.status == New ==> d.before == 0
    ensures forall g :: g in before && g.id == d.id ==>
      d.before == g.count && (d.status == Worsened <==> g.count < d.after && d.status != Resolved) &&
      (d.status == Improved <==> d.after < g.count && d.status != Resolved) &&
      (d.status != Resolved && d.status != New ==>
        d.severityBefore == (if g.severity != f.severity then g.severity else "") &&
        (d.status == Unchanged ==> d.severityBefore != ""))
  {
    DeltasExactly(before, after, d);
    ByIdKeys(before);
    ByIdKeys(after);
    var b, a := ById(before), ById(after);
    f := if d.id in a then a[d.id] else b[d.id];
    HasMeans(before, d.id);
    HasMeans(after, d.id);
    forall g | g in before && g.id == d.id ensures d.id in b && g == b[d.id] {
      ByIdFinds(before, g);
    }
  }

  lemma HasMeans(fs: seq<Info>, id: string)
    ensures Has(fs, id) <==> id in ById(fs)
  {
    ByIdKeys(fs);
    if id in ById(fs) {
      assert ById(fs)[id] in fs;
    }
  }

  ghost predicate IdsDiffer(ds: seq<Delta>) { forall i, j :: 0 <= i < j < |ds| ==> ds[i].id != ds[j].id }

  lemma {:induction false} ResolvedIdsDistinct(before: seq<Info>, gone: set<string>)
    requires DistinctIds(before)
    ensures IdsDiffer(ResolvedDeltas(before, gone))
    decreases |before|
  {
    if before != [] {
      var n := |before| - 1;
      ResolvedIdsDistinct(before[..n], gone);
      var ds, all := ResolvedDeltas(before[..n], gone), ResolvedDeltas(before, gone);
      forall i | 0 <= i < |ds| ensures all[i] == ds[i] && ds[i].id != before[n].id {
        assert ds[i] in ds;
        ResolvedDeltasMeans(before[..n], gone, ds[i]);
        var f :| f in before[..n] && f.id in gone && ds[i] == ResolvedDelta(f);
        var k :| 0 <= k < n && before[k] == f;
      }
    }
  }

  lemma {:induction false} SameMembers(a: seq<Delta>, b: seq<Delta>)
    requires forall d :: d in a <==> d in b
    requires IdsDiffer(a) && IdsDiffer(b)
    ensures multiset(a) == multiset(b)
  {
    forall d ensures multiset(a)[d] == multiset(b)[d] {
      OnceEach(a, d);
      OnceEach(b, d);
    }
  }

  lemma {:induction false} OnceEach(a: seq<Delta>, d: Delta)
    requires IdsDiffer(a)
    ensures multiset(a)[d] == if d in a then 1 else 0
    decreases |a|
  {
    if a != [] {
      var n := |a| - 1;
      OnceEach(a[..n], d);
      assert a == a[..n] + [a[n]];
      if a[n] == d {
        assert d !in a[..n];
      }
    }
  }

  lemma DeltasHaveNoTies(before: seq<Info>, after: seq<Info>)
    requires Readable(before, after)
    ensures NoTies(Deltas(before, after)) && KnownSeverities(Deltas(before, after))
  {
    var ds := Deltas(before, after);
    forall d | d in ds ensures KnownSeverity(d.severity) {
      var f := Origin(before, after, d);
    }
    forall a, b | a in ds && b in ds && a != b ensures Before(a, b) || Before(b, a) {
      var f := Origin(before, after, a);
      var g := Origin(before, after, b);
      DeltasExactly(before, after, a);
      DeltasExactly(before, after, b);
      assert f.id != g.id;
      assert !Alike(f, g);
      BeforeIsOrder(a, b, a);
    }
  }

  lemma Origin(before: seq<Info>, after: seq<Info>, d: Delta) returns (f: Info)
    requires DistinctIds(before) && DistinctIds(after) && d in Deltas(before, after)
    ensures f in before + after && f.id == d.id && f.severity == d.severity
    ensures f.rule == d.rule && f.table == d.table && f.column == d.column
  {
    DeltasExactly(before, after, d);
    ByIdMeans(before);
    ByIdMeans(after);
    f := if d.id in ById(after) then ById(after)[d.id] else ById(before)[d.id];
  }

  /** The leftovers of the map are the baseline's resolved findings. */
  lemma LeftoversAreResolved(before: seq<Info>, after: seq<Info>, gone: seq<Delta>)
    requires DistinctIds(before) && OneEach(Leftover(before, after), gone)
    ensures multiset(gone) == multiset(ResolvedDeltas(before, Leftover(before, after).Keys))
  {
    var left := Leftover(before, after);
    var res := ResolvedDeltas(before, left.Keys);
    ByIdMeans(before);
    ResolvedIdsDistinct(before, left.Keys);
    forall d ensures d in gone <==> d in res {
      ResolvedDeltasMeans(before, left.Keys, d);
      if d in gone {
        var i :| 0 <= i < |gone| && gone[i] == d;
        assert left[d.id] in before && left[d.id].id == d.id;
      }
      if d in res {
        var f :| f in before && f.id in left.Keys && d == ResolvedDelta(f);
        assert left[f.id] == f;
        var i :| 0 <= i < |gone| && gone[i].id == f.id;
        assert gone[i] == d;
      }
    }
    SameMembers(gone, res);
  }

  /** So with distinct ids what is returned is exactly the deltas, each once. */
  lemma ListedInAnyOrder(before: seq<Info>, after: seq<Info>, gone: seq<Delta>)
    requires DistinctIds(before) && DistinctIds(after) && OneEach(Leftover(before, after), gone)
    ensures multiset(Sort(OnlyListed(Forward(ById(before), after)) + gone)) == multiset(Deltas(before, after))
  {
    LeftoversAreResolved(before, after, gone);
    SortKeepsAll(OnlyListed(Forward(ById(before), after)) + gone);
  }

  /** Whatever order the map gives the resolved findings in, the list comes out the same. */
  lemma LeftoversInAnyOrder(before: seq<Info>, after: seq<Info>, gone: seq<Delta>)
    requires Readable(before, after) && OneEach(Leftover(before, after), gone)
    ensures Sort(OnlyListed(Forward(ById(before), after)) + gone) == Sort(Deltas(before, after))
  {
    LeftoversAreResolved(before, after, gone);
    SameSorted(OnlyListed(Forward(ById(before), after)) + gone, Deltas(before, after), before, after);
  }

  lemma SameSorted(a: seq<Delta>, b: seq<Delta>, before: seq<Info>, after: seq<Info>)
    requires Readable(before, after) && b == Deltas(before, after) && multiset(a) == multiset(b)
    ensures Sort(a) == Sort(b)
  {
    DeltasHaveNoTies(before, after);
    forall d ensures d in a <==> d in b {
      assert d in a <==> d in multiset(a);
      assert d in b <==> d in multiset(b);
    }
    SortOrders(a);
    SortOrders(b);
    forall x, y | x in Sort(a) && y in Sort(a) && x != y ensures Before(x, y) || Before(y, x) {
      assert x in multiset(Sort(a)) && y in multiset(Sort(a));
      assert x in b && y in b;
    }
    OrderIsUnique(Sort(a), Sort(b));
  }

  // ---- the deltas are a patch ---------------------------------------------------------------------

  datatype Figure = Figure(count: int, severity: string)

  function Report(fs: seq<Info>): map<string, Figure> {
    var m := ById(fs);
    map id | id in m :: Figure(m[id].count, m[id].severity)
  }

  function PatchOne(m: map<string, Figure>, d: Delta): map<string, Figure> {
    if d.status == Resolved then m - {d.id} else m[d.id := Figure(d.after, d.severity)]
  }

  function Patch(m: map<string, Figure>, ds: seq<Delta>): map<string, Figure> {
    if ds == [] then m else PatchOne(Patch(m, ds[..|ds| - 1]), ds[|ds| - 1])
  }

  function At(m: map<string, Figure>, id: string): Option<Figure> { if id in m then Some(m[id]) else None }

  /** Deltas about distinct ids do not interfere, in whatever order they are applied. */
  lemma {:induction false} PatchMeans(m: map<string, Figure>, ds: seq<Delta>, id: string)
    requires forall a, b :: a in ds && b in ds && a.id == b.id ==> a == b
    ensures forall d :: d in ds && d.id == id ==>
      At(Patch(m, ds), id) == (if d.status == Resolved then None else Some(Figure(d.after, d.severity)))
    ensures (forall d :: d in ds ==> d.id != id) ==> At(Patch(m, ds), id) == At(m, id)
    decreases |ds|
  {
    if ds != [] {
      var n := |ds| - 1;
      assert ds == ds[..n] + [ds[n]];
      PatchMeans(m, ds[..n], id);
    }
  }

  /** The finding gained a severity it had not stated, and its count stayed: nothing
      is listed of it.  Severities have names, so no report of this program is one. */
  predicate SilentlyNamed(before: seq<Info>, after: seq<Info>, id: string) {
    var b, a := ById(before), ById(after);
    id in b && id in a && b[id].count == a[id].count && b[id].severity == "" && a[id].severity != ""
  }

  /** Exact: applying the listed deltas to the baseline's figures, in any order,
      gives the new report's if and only if no finding was silently named. */
  lemma DeltasPatchBaseline(before: seq<Info>, after: seq<Info>, ds: seq<Delta>)
    requires DistinctIds(before) && DistinctIds(after)
    requires forall d :: d in ds <==> d in Deltas(before, after)
    ensures Patch(Report(before), ds) == Report(after) <==> forall id :: !SilentlyNamed(before, after, id)
  {
    forall a, b | a in ds && b in ds && a.id == b.id ensures a == b {
      DeltasExactly(before, after, a);
      DeltasExactly(before, after, b);
    }
    var patched := Patch(Report(before), ds);
    forall id ensures At(patched, id) == At(Report(after), id) <==> !SilentlyNamed(before, after, id) {
      PatchedAt(before, after, ds, id);
    }
    if forall id :: !SilentlyNamed(before, after, id) {
      SameEverywhere(patched, Report(after));
    }
  }

  lemma SameEverywhere(a: map<string, Figure>, b: map<string, Figure>)
    requires forall id :: At(a, id) == At(b, id)
    ensures a == b
  {
    forall id ensures id in a <==> id in b {
      assert At(a, id) == At(b, id);
    }
    forall id | id in a ensures a[id] == b[id] {
      assert At(a, id) == At(b, id);
    }
  }

  lemma PatchedAt(before: seq<Info>, after: seq<Info>, ds: seq<Delta>, id: string)
    requires DistinctIds(before) && DistinctIds(after)
    requires forall d :: d in ds <==> d in Deltas(before, after)
    requires forall a, b :: a in ds && b in ds && a.id == b.id ==> a == b
    ensures At(Patch(Report(before), ds), id) == At(Report(after), id) <==> !SilentlyNamed(before, after, id)
  {
    PatchMeans(Report(before), ds, id);
    var moved := DeltaFor(before, after, id);
    if moved.Some? {
      MovedFigures(before, after, id);
      DeltasExactly(before, after, moved.value);
      assert moved.value in ds && moved.value.id == id;
    } else {
      forall d | d in ds ensures d.id != id {
        DeltasExactly(before, after, d);
      }
      UnmovedFigures(before, after, id);
    }
  }

  lemma MovedFigures(before: seq<Info>, after: seq<Info>, id: string)
    requires DistinctIds(before) && DistinctIds(after) && DeltaFor(before, after, id).Some?
    ensures var d := DeltaFor(before, after, id).value;
      d.id == id && At(Report(after), id) == if d.status == Resolved then None else Some(Figure(d.after, d.severity))
  {
    ByIdMeans(before);
    ByIdMeans(after);
  }

  lemma UnmovedFigures(before: seq<Info>, after: seq<Info>, id: string)
    requires DeltaFor(before, after, id).None?
    ensures At(Report(before), id) == At(Report(after), id) <==> !SilentlyNamed(before, after, id)
  {
    ByIdKeys(before);
    ByIdKeys(after);
  }

  lemma MultisetMembers(a: seq<Delta>, b: seq<Delta>)
    requires multiset(a) == multiset(b)
    ensures forall d :: d in a <==> d in b
  {
    forall d ensures d in a <==> d in b {
      assert d in a <==> d in multiset(a);
      assert d in b <==> d in multiset(b);
    }
  }

  lemma ListedPatchesBaseline(before: seq<Info>, after: seq<Info>, ds: seq<Delta>)
    requires DistinctIds(before) && DistinctIds(after) && multiset(ds) == multiset(Deltas(before, after))
    ensures Patch(Report(before), ds) == Report(after) <==> forall id :: !SilentlyNamed(before, after, id)
  {
    MultisetMembers(ds, Deltas(before, after));
    DeltasPatchBaseline(before, after, ds);
  }

  /** The sorted list is such an order. */
  lemma SortedDeltasPatchBaseline(before: seq<Info>, after: seq<Info>)
    requires Readable(before, after)
    ensures Patch(Report(before), Sort(Deltas(before, after))) == Report(after)
  {
    DeltasHaveNoTies(before, after);
    var ds := Deltas(before, after);
    SortOrders(ds);
    MultisetMembers(Sort(ds), ds);
    forall id ensures !SilentlyNamed(before, after, id) {
      ByIdKeys(before);
      if id in ById(before) {
        assert ById(before)[id] in before + after;
      }
    }
    DeltasPatchBaseline(before, after, Sort(ds));
  }

  /** Such a pair of reports. */
  lemma EmptySeverityIsMissed()
    ensures var f := Info("x", "r", "", "", "", "", "", 1); var g := f.(severity := "error");
      SilentlyNamed([f], [g], "x") && Patch(Report([f]), Deltas([f], [g])) != Report([g])
  {
    var f := Info("x", "r", "", "", "", "", "", 1);
    var g := f.(severity := "error");
    OneFinding(f);
    OneFinding(g);
    assert SilentlyNamed([f], [g], "x");
    DeltasPatchBaseline([f], [g], Deltas([f], [g]));
  }

  lemma OneFinding(f: Info)
    ensures ById([f]) == map[f.id := f]
  {
    assert [f][..0] == [];
  }

  // ---- the other way round ------------------------------------------------------------------------

  function Mirror(s: Status): Status {
    match s case New => Resolved case Resolved => New case Worsened => Improved case Improved => Worsened case Unchanged => Unchanged
  }

  ghost predicate Mirrors(e: Delta, d: Delta) {
    e.id == d.id && e.status == Mirror(d.status) && e.before == d.after && e.after == d.before
  }

  /** Swapping the reports swaps new with resolved and worsened with improved: each
      delta has its mirror image, except of a finding that loses its severity's name. */
  lemma SwapMirrors(before: seq<Info>, after: seq<Info>, d: Delta)
    requires DistinctIds(before) && DistinctIds(after) && d in Deltas(before, after)
    ensures (exists e :: e in Deltas(after, before) && Mirrors(e, d)) <==> !SilentlyNamed(after, before, d.id)
  {
    DeltasExactly(before, after, d);
    DeltaMirrors(before, after, d.id);
    if DeltaFor(after, before, d.id).Some? {
      var e := DeltaFor(after, before, d.id).value;
      DeltasExactly(after, before, e);
      assert Mirrors(e, d);
    }
    if e :| e in Deltas(after, before) && Mirrors(e, d) {
      DeltasExactly(after, before, e);
    }
  }

  lemma DeltaMirrors(before: seq<Info>, after: seq<Info>, id: string)
    requires DeltaFor(before, after, id).Some?
    ensures DeltaFor(after, before, id).Some? <==> !SilentlyNamed(after, before, id)
    ensures DeltaFor(after, before, id).Some? ==>
      Mirrors(DeltaFor(after, before, id).value, DeltaFor(before, after, id).value)
  {
    ByIdKeys(before);
    ByIdKeys(after);
  }

  // ---- the summary --------------------------------------------------------------------------------

  /** The ids in both whose count moved in the given direction. */
  ghost function Moved(b: map<string, Info>, a: map<string, Info>, up: bool): set<string> {
    set id | id in a && id in b && (if up then a[id].count > b[id].count else a[id].count < b[id].count)
  }

  ghost function Even(b: map<string, Info>, a: map<string, Info>): set<string> {
    set id | id in a && id in b && a[id].count == b[id].count
  }

  /** One more finding of the new report joins exactly one of the four groups. */
  lemma GroupsStep(b: map<string, Info>, a: map<string, Info>, f: Info)
    requires f.id !in a
    ensures var a' := a[f.id := f];
      && |a'.Keys - b.Keys| == |a.Keys - b.Keys| + (if f.id in b then 0 else 1)
      && |Moved(b, a', true)| == |Moved(b, a, true)| + (if f.id in b && f.count > b[f.id].count then 1 else 0)
      && |Moved(b, a', false)| == |Moved(b, a, false)| + (if f.id in b && f.count < b[f.id].count then 1 else 0)
      && |Even(b, a')| == |Even(b, a)| + (if f.id in b && f.count == b[f.id].count then 1 else 0)
  {
    NewStep(b, a, f);
    MovedStep(b, a, f, true);
    MovedStep(b, a, f, false);
    EvenStep(b, a, f);
  }

  lemma NewStep(b: map<string, Info>, a: map<string, Info>, f: Info)
    requires f.id !in a
    ensures |a[f.id := f].Keys - b.Keys| == |a.Keys - b.Keys| + (if f.id in b then 0 else 1)
  {
    assert a[f.id := f].Keys == a.Keys + {f.id};
    OneMoreOutside(a.Keys, b.Keys, f.id);
  }

  lemma OneMoreOutside(a: set<string>, b: set<string>, id: string)
    requires id !in a
    ensures |(a + {id}) - b| == |a - b| + (if id in b then 0 else 1)
  {
    OneMoreId((a + {id}) - b, a - b, id, id !in b);
  }

  lemma EvenStep(b: map<string, Info>, a: map<string, Info>, f: Info)
    requires f.id !in a
    ensures |Even(b, a[f.id := f])| == |Even(b, a)| + (if f.id in b && f.count == b[f.id].count then 1 else 0)
  {
    var all, some := Even(b, a[f.id := f]), Even(b, a);
    forall id ensures id in all <==> id in some || (id == f.id && id in b && f.count == b[id].count) {
    }
    JoinsOrNot(all, some, f.id);
  }

  lemma MovedStep(b: map<string, Info>, a: map<string, Info>, f: Info, up: bool)
    requires f.id !in a
    ensures |Moved(b, a[f.id := f], up)| == |Moved(b, a, up)| +
      (if f.id in b && (if up then f.count > b[f.id].count else f.count < b[f.id].count) then 1 else 0)
  {
    var all, some := Moved(b, a[f.id := f], up), Moved(b, a, up);
    forall id
      ensures id in all <==>
        id in some || (id == f.id && id in b && (if up then f.count > b[id].count else f.count < b[id].count))
    {
    }
    JoinsOrNot(all, some, f.id);
  }

  lemma JoinsOrNot(all: set<string>, some: set<string>, id: string)
    requires id !in some && forall x :: x != id ==> (x in all <==> x in some)
    ensures |all| == |some| + (if id in all then 1 else 0)
  {
    assert forall x :: x in some ==> x in all;
    assert all == some + (if id in all then {id} else {});
    OneMoreId(all, some, id, id in all);
  }

  lemma OneMoreId(all: set<string>, some: set<string>, id: string, really: bool)
    requires id !in some && all == some + (if really then {id} else {})
    ensures |all| == |some| + (if really then 1 else 0)
  {
  }

  ghost predicate Counted(t: Summary, b: map<string, Info>, a: map<string, Info>) {
    && t.added == |a.Keys - b.Keys| && t.worsened == |Moved(b, a, true)|
    && t.improved == |Moved(b, a, false)| && t.same == |Even(b, a)|
  }

  lemma CountedStep(t: Summary, b: map<string, Info>, a: map<string, Info>, f: Info)
    requires Counted(t, b, a) && f.id !in a
    ensures Counted(Tally(t, DeltaOf(Get(b, f.id), f)), b, a[f.id := f])
  {
    GroupsStep(b, a, f);
    TallyOne(t, Get(b, f.id), f);
  }

  lemma TallyOne(t: Summary, prev: Option<Info>, f: Info)
    ensures var s := Tally(t, DeltaOf(prev, f));
      && s.added == t.added + (if prev.None? then 1 else 0)
      && s.worsened == t.worsened + (if prev.Some? && f.count > prev.value.count then 1 else 0)
      && s.improved == t.improved + (if prev.Some? && f.count < prev.value.count then 1 else 0)
      && s.same == t.same + (if prev.Some? && f.count == prev.value.count then 1 else 0)
  {
  }

  lemma {:induction false} TallyCounts(b: map<string, Info>, after: seq<Info>)
    requires DistinctIds(after)
    ensures Counted(TallyAll(Forward(b, after)), b, ById(after))
    decreases |after|
  {
    if after == [] {
      assert Moved(b, map[], true) == {} && Moved(b, map[], false) == {} && Even(b, map[]) == {};
    } else {
      var n := |after| - 1;
      var init, f := after[..n], after[n];
      TallyCounts(b, init);
      FreshId(after);
      TallyStep(Forward(b, init), DeltaOf(Get(b, f.id), f));
      assert Get(b - Ids(init), f.id) == Get(b, f.id);
      CountedStep(TallyAll(Forward(b, init)), b, ById(init), f);
    }
  }

  /** The new findings of one severity. */
  ghost function Fresh(b: map<string, Info>, a: map<string, Info>, severity: string): set<string> {
    set id | id in a && id !in b && a[id].severity == severity
  }

  lemma FreshStep(b: map<string, Info>, a: map<string, Info>, f: Info, severity: string)
    requires f.id !in a
    ensures |Fresh(b, a[f.id := f], severity)| == |Fresh(b, a, severity)| + (if f.id !in b && f.severity == severity then 1 else 0)
  {
    var all, some := Fresh(b, a[f.id := f], severity), Fresh(b, a, severity);
    forall id ensures id in all <==> id in some || (id == f.id && id !in b && f.severity == severity) {
    }
    JoinsOrNot(all, some, f.id);
  }

  /** The summary's new errors and new warnings are those the baseline does not have. */
  lemma {:induction false} NewSeveritiesCounted(b: map<string, Info>, after: seq<Info>)
    requires DistinctIds(after)
    ensures TallyAll(Forward(b, after)).newErrors == |Fresh(b, ById(after), "error")|
    ensures TallyAll(Forward(b, after)).newWarnings == |Fresh(b, ById(after), "warning")|
    decreases |after|
  {
    if after == [] {
      assert Fresh(b, map[], "error") == {} && Fresh(b, map[], "warning") == {};
    } else {
      var n := |after| - 1;
      var init, f := after[..n], after[n];
      NewSeveritiesCounted(b, init);
      FreshId(after);
      assert Get(b - Ids(init), f.id) == Get(b, f.id);
      NewSeverity(Forward(b, init), Get(b, f.id), f);
      FreshStep(b, ById(init), f, "error");
      FreshStep(b, ById(init), f, "warning");
    }
  }

  lemma NewSeverity(ds: seq<Delta>, prev: Option<Info>, f: Info)
    ensures var t, s := TallyAll(ds), TallyAll(ds + [DeltaOf(prev, f)]);
      && s.newErrors == t.newErrors + (if prev.None? && f.severity == "error" then 1 else 0)
      && s.newWarnings == t.newWarnings + (if prev.None? && f.severity == "warning" then 1 else 0)
  {
    TallyStep(ds, DeltaOf(prev, f));
  }

  lemma FreshId(fs: seq<Info>)
    requires fs != [] && DistinctIds(fs)
    ensures var n := |fs| - 1; fs[n].id !in Ids(fs[..n]) && fs[n].id !in ById(fs[..n])
  {
    var n := |fs| - 1;
    ByIdMeans(fs[..n]);
    forall g | g in fs[..n] ensures g.id != fs[n].id {
      var i :| 0 <= i < n && fs[i] == g;
    }
  }

  lemma {:induction false} DistinctIdsCount(fs: seq<Info>)
    requires DistinctIds(fs)
    ensures |ById(fs).Keys| == |fs|
    decreases |fs|
  {
    if fs != [] {
      var n := |fs| - 1;
      DistinctIdsCount(fs[..n]);
      FreshId(fs);
      OneMoreId(ById(fs).Keys, ById(fs[..n]).Keys, fs[n].id, true);
    }
  }

  /** The summary as compareFindings returns it. */
  function SummaryOf(before: seq<Info>, after: seq<Info>): Summary {
    TallyAll(Forward(ById(before), after)).(resolved := |Leftover(before, after)|)
  }

  /** Every new finding is counted once and every old one is counted once; swapping
      the reports swaps the counts. */
  lemma SummaryPartitions(before: seq<Info>, after: seq<Info>)
    requires DistinctIds(before) && DistinctIds(after)
    ensures var s, r := SummaryOf(before, after), SummaryOf(after, before);
      && s.added + s.worsened + s.improved + s.same == |after|
      && s.resolved + s.worsened + s.improved + s.same == |before|
      && s.added == r.resolved && s.resolved == r.added
      && s.worsened == r.improved && s.improved == r.worsened && s.same == r.same
  {
    var b, a := ById(before), ById(after);
    TallyCounts(b, after);
    TallyCounts(a, before);
    DistinctIdsCount(before);
    DistinctIdsCount(after);
    LeftoverCount(before, after);
    LeftoverCount(after, before);
    GroupsPartition(b, a);
    GroupsPartition(a, b);
    GroupsMirror(b, a);
  }

  lemma GroupsMirror(b: map<string, Info>, a: map<string, Info>)
    ensures Moved(b, a, true) == Moved(a, b, false) && Moved(b, a, false) == Moved(a, b, true) && Even(b, a) == Even(a, b)
  {
  }

  lemma LeftoverCount(before: seq<Info>, after: seq<Info>)
    ensures |Leftover(before, after)| == |ById(before).Keys - ById(after).Keys|
  {
    ByIdMeans(after);
    assert Leftover(before, after).Keys == ById(before).Keys - ById(after).Keys;
    assert |Leftover(before, after)| == |Leftover(before, after).Keys|;
  }

  lemma GroupsPartition(b: map<string, Info>, a: map<string, Info>)
    ensures |a.Keys| == |a.Keys - b.Keys| + |Moved(b, a, true)| + |Moved(b, a, false)| + |Even(b, a)|
  {
    var up, down, even := Moved(b, a, true), Moved(b, a, false), Even(b, a);
    GroupsCover(b, a);
    FourApart(a.Keys - b.Keys, up, down, even);
  }

  lemma GroupsCover(b: map<string, Info>, a: map<string, Info>)
    ensures a.Keys == (a.Keys - b.Keys) + Moved(b, a, true) + Moved(b, a, false) + Even(b, a)
    ensures a.Keys - b.Keys !! Moved(b, a, true) !! Moved(b, a, false) !! Even(b, a)
  {
  }

  lemma FourApart(p: set<string>, q: set<string>, r: set<string>, s: set<string>)
    requires p !! q !! r !! s
    ensures |p + q + r + s| == |p| + |q| + |r| + |s|
  {
    assert |p + q| == |p| + |q|;
    assert |p + q + r| == |p + q| + |r|;
  }
}
