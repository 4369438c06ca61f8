/**
  What agreement of sizes says of the checks' lists (sameChecks in
  internal/eval/score.go, which is there to report whether two deterministic
  passes agreed).
*/
module ChecksAgreement {
  import opened Scoring
  import opened Wrappers

  predicate SameLists(a: ChecksScore, b: ChecksScore) {
    a.found == b.found && a.missed == b.missed && a.falsePositives == b.falsePositives
  }

  /** Of the planted defects all or none were found, and of the clean places all or
      none were flagged. */
  predicate AllOrNone(m: Manifest, c: ChecksScore) {
    && (c.found == [] || c.missed == [])
    && (c.falsePositives == [] || |c.falsePositives| == |m.clean|)
  }

  // ---- sizes that settle the lists ----------------------------------------------------------

  lemma {:induction false} SameFates(one: seq<Finding>, other: seq<Finding>, ds: seq<Defect>, fate: Fate)
    requires forall d :: d in ds ==> (FateOf(one, d) == fate <==> FateOf(other, d) == fate)
    ensures OfFate(one, ds, fate) == OfFate(other, ds, fate)
    decreases |ds|
  {
    if ds != [] {
      var n := |ds| - 1;
      assert ds == ds[..n] + [ds[n]];
      SameFates(one, other, ds[..n], fate);
    }
  }

  lemma {:induction false} AsManyIds(ds: seq<Defect>)
    ensures |DefectIds(ds)| == |ds|
    decreases |ds|
  {
    if ds != [] {
      AsManyIds(ds[..|ds| - 1]);
    }
  }

  lemma NoneOfFate(findings: seq<Finding>, ds: seq<Defect>, fate: Fate)
    requires OfFate(findings, ds, fate) == []
    ensures forall d :: d in ds ==> FateOf(findings, d) != fate
  {
    forall d | d in ds ensures FateOf(findings, d) != fate {
      FatesPartition(findings, ds, d, fate);
    }
  }

  lemma {:induction false} TrippedAtMost(findings: seq<Finding>, cs: seq<Clean>)
    ensures |Tripped(findings, cs)| <= |cs|
    ensures |Tripped(findings, cs)| == |cs| ==> Tripped(findings, cs) == cs
    decreases |cs|
  {
    if cs != [] {
      TrippedAtMost(findings, cs[..|cs| - 1]);
      assert cs == cs[..|cs| - 1] + [cs[|cs| - 1]];
    }
  }

  /** If all or none were found and flagged, equal sizes are equal lists. */
  lemma AllOrNoneSettles(m: Manifest, one: seq<Finding>, other: seq<Finding>)
    requires AllOrNone(m, Checks(m, one)) && SameChecks(Checks(m, one), Checks(m, other))
    ensures SameLists(Checks(m, one), Checks(m, other))
  {
    var ds := m.defects;
    AsManyIds(OfFate(one, ds, WasFound));
    AsManyIds(OfFate(other, ds, WasFound));
    var fate := if Checks(m, one).found == [] then WasFound else WasMissed;
    NoneOfFate(one, ds, fate);
    NoneOfFate(other, ds, fate);
    SameFates(one, other, ds, WasFound);
    SameFates(one, other, ds, WasMissed);
    TrippedAtMost(one, m.clean);
    TrippedAtMost(other, m.clean);
  }

  /** So a scorecard that calls the checks stable is right about every completed run
      if its own lists are such. */
  lemma StableRunsAgree(m: Manifest, runs: seq<RunScore>, lists: seq<seq<Finding>>, checks: ChecksScore)
    requires ReportsChecks(runs, checks, false) && AllOrNone(m, checks)
    requires |lists| == |Completed(runs)|
    requires forall k :: 0 <= k < |lists| ==> Completed(runs)[k].checks == Checks(m, lists[k])
    ensures forall k :: 0 <= k < |lists| ==> SameLists(checks, Completed(runs)[k].checks)
  {
    forall k | 0 <= k < |lists| ensures SameLists(checks, Completed(runs)[k].checks) {
      assert SameChecks(checks, Completed(runs)[k].checks);
      AllOrNoneSettles(m, lists[0], lists[k]);
    }
  }

  // ---- sizes that do not ------------------------------------------------------------------------

  /** A rule and the place it is raised at. */
  type Mark = (string, string)

  predicate Hit(findings: seq<Finding>, p: Mark) { RuleAt(findings, p.0, p.1) }

  /** What the manifest says of each deterministic check: the marks it must raise. */
  function Planted(ds: seq<Defect>): seq<Mark> {
    if ds == [] then []
    else
      var n := |ds| - 1;
      Planted(ds[..n]) + (if Deterministic(ds[n]) then [(ds[n].caughtBy, ds[n].place)] else [])
  }

  /** And the marks none may raise. */
  function Forbidden(cs: seq<Clean>): seq<Mark> {
    if cs == [] then [] else Forbidden(cs[..|cs| - 1]) + [(cs[|cs| - 1].rule, cs[|cs| - 1].place)]
  }

  ghost predicate Distinct(ps: seq<Mark>) { forall i, j :: 0 <= i < j < |ps| ==> ps[i] != ps[j] }

  ghost predicate DistinctMarks(m: Manifest) { Distinct(Planted(m.defects) + Forbidden(m.clean)) }

  function HitCount(findings: seq<Finding>, ps: seq<Mark>): nat {
    if ps == [] then 0
    else HitCount(findings, ps[..|ps| - 1]) + (if Hit(findings, ps[|ps| - 1]) then 1 else 0)
  }

  lemma HitCountStep(findings: seq<Finding>, ps: seq<Mark>, p: Mark)
    ensures HitCount(findings, ps + [p]) == HitCount(findings, ps) + (if Hit(findings, p) then 1 else 0)
  {
    assert (ps + [p])[..|ps|] == ps;
  }

  lemma {:induction false} FoundCount(findings: seq<Finding>, ds: seq<Defect>)
    ensures |OfFate(findings, ds, WasFound)| == HitCount(findings, Planted(ds))
    ensures |OfFate(findings, ds, WasMissed)| == |Planted(ds)| - HitCount(findings, Planted(ds))
    decreases |ds|
  {
    if ds != [] {
      var n := |ds| - 1;
      FoundCount(findings, ds[..n]);
      HitCountStep(findings, Planted(ds[..n]), (ds[n].caughtBy, ds[n].place));
      assert Planted(ds[..n]) + [] == Planted(ds[..n]);
    }
  }

  lemma {:induction false} TrippedCount(findings: seq<Finding>, cs: seq<Clean>)
    ensures |Tripped(findings, cs)| == HitCount(findings, Forbidden(cs)) && |Forbidden(cs)| == |cs|
    decreases |cs|
  {
    if cs != [] {
      var n := |cs| - 1;
      TrippedCount(findings, cs[..n]);
      HitCountStep(findings, Forbidden(cs[..n]), (cs[n].rule, cs[n].place));
    }
  }

  lemma SizesAre(m: Manifest, findings: seq<Finding>)
    ensures var c := Checks(m, findings); var hits := HitCount(findings, Planted(m.defects));
      |c.found| == hits && |c.missed| == |Planted(m.defects)| - hits &&
      |c.falsePositives| == HitCount(findings, Forbidden(m.clean)) <= |Forbidden(m.clean)| == |m.clean|
  {
    FoundCount(findings, m.defects);
    AsManyIds(OfFate(findings, m.defects, WasFound));
    TrippedCount(findings, m.clean);
    TrippedAtMost(findings, m.clean);
  }

  /** The findings without those at one mark, and with one raised at another. */
  function Without(findings: seq<Finding>, p: Mark): seq<Finding> {
    if findings == [] then []
    else
      var n := |findings| - 1;
      Without(findings[..n], p) +
        (if findings[n].rule == p.0 && LocationOf(findings[n]) == p.1 then [] else [findings[n]])
  }

  function Instead(findings: seq<Finding>, p: Mark, q: Mark): seq<Finding> {
    Without(findings, p) + [Finding(FromCheck, q.0, q.1, "", "", 0)]
  }

  lemma RuleAtConcat(a: seq<Finding>, b: seq<Finding>, x: Mark)
    ensures Hit(a + b, x) <==> Hit(a, x) || Hit(b, x)
  {
    var all := a + b;
    if i :| 0 <= i < |a| && a[i].rule == x.0 && LocationOf(a[i]) == x.1 {
      assert all[i] == a[i];
    }
    if i :| 0 <= i < |b| && b[i].rule == x.0 && LocationOf(b[i]) == x.1 {
      assert all[|a| + i] == b[i];
    }
  }

  lemma RuleAtOne(f: Finding, x: Mark)
    ensures Hit([f], x) <==> f.rule == x.0 && LocationOf(f) == x.1
  {
    assert [f][0] == f;
  }

  lemma {:induction false} HitWithout(findings: seq<Finding>, p: Mark, x: Mark)
    ensures Hit(Without(findings, p), x) <==> x != p && Hit(findings, x)
    decreases |findings|
  {
    if findings != [] {
      var n := |findings| - 1;
      assert findings == findings[..n] + [findings[n]];
      HitWithout(findings[..n], p, x);
      RuleAtConcat(findings[..n], [findings[n]], x);
      RuleAtConcat(Without(findings[..n], p), [findings[n]], x);
      RuleAtOne(findings[n], x);
      assert Without(findings[..n], p) + [] == Without(findings[..n], p);
    }
  }

  lemma HitInstead(findings: seq<Finding>, p: Mark, q: Mark, x: Mark)
    ensures Hit(Instead(findings, p, q), x) <==> x == q || (x != p && Hit(findings, x))
  {
    var f := Finding(FromCheck, q.0, q.1, "", "", 0);
    HitWithout(findings, p, x);
    RuleAtConcat(Without(findings, p), [f], x);
    RuleAtOne(f, x);
  }

  /** One mark gained for one lost: the count among distinct marks. */
  lemma {:induction false} SwapCount(findings: seq<Finding>, ps: seq<Mark>, p: Mark, q: Mark)
    requires Distinct(ps) && Hit(findings, p) && !Hit(findings, q)
    ensures HitCount(Instead(findings, p, q), ps) ==
      HitCount(findings, ps) - (if p in ps then 1 else 0) + (if q in ps then 1 else 0)
    decreases |ps|
  {
    if ps != [] {
      var n := |ps| - 1;
      SwapCount(findings, ps[..n], p, q);
      HitInstead(findings, p, q, ps[n]);
      assert ps == ps[..n] + [ps[n]];
      assert ps[n] !in ps[..n];
    }
  }

  lemma DistinctParts(a: seq<Mark>, b: seq<Mark>)
    requires Distinct(a + b)
    ensures Distinct(a) && Distinct(b) && forall x :: x in a ==> x !in b
  {
    assert forall i :: 0 <= i < |a| ==> (a + b)[i] == a[i];
    assert forall i :: 0 <= i < |b| ==> (a + b)[|a| + i] == b[i];
  }

  /** The two marks are both of planted defects or both of clean places. */
  predicate SameSide(m: Manifest, p: Mark, q: Mark) {
    (p in Planted(m.defects) && q in Planted(m.defects)) || (p in Forbidden(m.clean) && q in Forbidden(m.clean))
  }

  lemma SwapKeepsSizes(m: Manifest, one: seq<Finding>, p: Mark, q: Mark)
    requires DistinctMarks(m) && Hit(one, p) && !Hit(one, q) && SameSide(m, p, q)
    ensures SameChecks(Checks(m, one), Checks(m, Instead(one, p, q)))
  {
    var ds, cs := m.defects, m.clean;
    DistinctParts(Planted(ds), Forbidden(cs));
    SwapCount(one, Planted(ds), p, q);
    SwapCount(one, Forbidden(cs), p, q);
    SizesAre(m, one);
    SizesAre(m, Instead(one, p, q));
  }

  lemma {:induction false} PlantedMeans(ds: seq<Defect>, p: Mark)
    ensures p in Planted(ds) <==> exists d :: d in ds && Deterministic(d) && (d.caughtBy, d.place) == p
    decreases |ds|
  {
    if ds != [] {
      var n := |ds| - 1;
      assert ds == ds[..n] + [ds[n]];
      PlantedMeans(ds[..n], p);
    }
  }

  lemma {:induction false} TrippedMeans(findings: seq<Finding>, cs: seq<Clean>, c: Clean)
    ensures c in Tripped(findings, cs) <==> c in cs && RuleAt(findings, c.rule, c.place)
    decreases |cs|
  {
    if cs != [] {
      var n := |cs| - 1;
      assert cs == cs[..n] + [cs[n]];
      TrippedMeans(findings, cs[..n], c);
    }
  }

  lemma {:induction false} ForbiddenMeans(cs: seq<Clean>, p: Mark)
    ensures p in Forbidden(cs) <==> exists c :: c in cs && (c.rule, c.place) == p
    decreases |cs|
  {
    if cs != [] {
      var n := |cs| - 1;
      assert cs == cs[..n] + [cs[n]];
      ForbiddenMeans(cs[..n], p);
    }
  }

  lemma SwapChangesLists(m: Manifest, one: seq<Finding>, p: Mark, q: Mark)
    requires Hit(one, p) && !Hit(one, q) && SameSide(m, p, q)
    ensures !SameLists(Checks(m, one), Checks(m, Instead(one, p, q)))
  {
    var other := Instead(one, p, q);
    HitInstead(one, p, q, q);
    if q in Planted(m.defects) {
      PlantedMeans(m.defects, q);
      var d :| d in m.defects && Deterministic(d) && (d.caughtBy, d.place) == q;
      FatesPartition(one, m.defects, d, WasMissed);
      FatesPartition(other, m.defects, d, WasMissed);
    } else {
      ForbiddenMeans(m.clean, q);
      var c :| c in m.clean && (c.rule, c.place) == q;
      TrippedMeans(one, m.clean, c);
      TrippedMeans(other, m.clean, c);
    }
  }

  lemma SomeHitSomeNot(findings: seq<Finding>, ps: seq<Mark>) returns (p: Mark, q: Mark)
    requires 0 < HitCount(findings, ps) < |ps|
    ensures p in ps && Hit(findings, p) && q in ps && !Hit(findings, q)
  {
    if forall x :: x in ps ==> !Hit(findings, x) {
      AllAlike(findings, ps, false);
    }
    if forall x :: x in ps ==> Hit(findings, x) {
      AllAlike(findings, ps, true);
    }
    p :| p in ps && Hit(findings, p);
    q :| q in ps && !Hit(findings, q);
  }

  lemma {:induction false} AllAlike(findings: seq<Finding>, ps: seq<Mark>, hit: bool)
    requires forall x :: x in ps ==> Hit(findings, x) == hit
    ensures HitCount(findings, ps) == if hit then |ps| else 0
    decreases |ps|
  {
    if ps != [] {
      var n := |ps| - 1;
      assert ps == ps[..n] + [ps[n]];
      AllAlike(findings, ps[..n], hit);
    }
  }

  /** Agreement of sizes with these findings' lists is agreement of lists. */
  ghost predicate SizesSettle(m: Manifest, one: seq<Finding>) {
    forall other: seq<Finding> :: SameChecks(Checks(m, one), Checks(m, other)) ==> SameLists(Checks(m, one), Checks(m, other))
  }

  /** Otherwise, in a manifest that names no mark twice, some other findings come out
      with the same sizes and with other lists. */
  lemma NotAllOrNone(m: Manifest, one: seq<Finding>) returns (other: seq<Finding>)
    requires DistinctMarks(m) && !AllOrNone(m, Checks(m, one))
    ensures SameChecks(Checks(m, one), Checks(m, other)) && !SameLists(Checks(m, one), Checks(m, other))
  {
    SizesAre(m, one);
    var planted := 0 < HitCount(one, Planted(m.defects)) < |Planted(m.defects)|;
    var p, q := SomeHitSomeNot(one, if planted then Planted(m.defects) else Forbidden(m.clean));
    other := Instead(one, p, q);
    SwapKeepsSizes(m, one, p, q);
    SwapChangesLists(m, one, p, q);
  }

  /** Exact: the sizes sameChecks compares decide the lists if and only if all or none
      of the planted defects were found, and all or none of the clean places flagged. */
  lemma SizesSettleExactly(m: Manifest, one: seq<Finding>)
    requires DistinctMarks(m)
    ensures SizesSettle(m, one) <==> AllOrNone(m, Checks(m, one))
  {
    if AllOrNone(m, Checks(m, one)) {
      forall other: seq<Finding> | SameChecks(Checks(m, one), Checks(m, other))
        ensures SameLists(Checks(m, one), Checks(m, other))
      {
        AllOrNoneSettles(m, one, other);
      }
    } else {
      var other := NotAllOrNone(m, one);
    }
  }

  // ---- two passes that differ and pass for the same --------------------------------------------

  const RULE := "table.duplicate_rows"

  function DuplicatesIn(table: string): seq<Finding> { [Finding(FromCheck, RULE, table, "", "", 2)] }

  function PlantedIn(a: string, b: string): seq<Defect> { [Defect("D1", a, RULE, None), Defect("D2", b, RULE, None)] }

  function Passed(c: ChecksScore): RunScore { RunScore([], [], [], c, false, None) }

  /** Duplicate rows were planted in orders and in payments: one pass finds only the
      first, the next only the second, and the scorecard calls the checks stable. */
  lemma DifferentChecksPassForSame()
    ensures var m := Manifest(PlantedIn("orders", "payments"), [], []);
      var one, other := Checks(m, DuplicatesIn("orders")), Checks(m, DuplicatesIn("payments"));
      !SameLists(one, other) && ReportsChecks([Passed(one), Passed(other)], one, false)
  {
    var a, b := "orders", "payments";
    assert |a| != |b|;
    TwoTablesPassForSame(a, b);
  }

  lemma TwoTablesPassForSame(a: string, b: string)
    requires a != b
    ensures var m := Manifest(PlantedIn(a, b), [], []);
      var one, other := Checks(m, DuplicatesIn(a)), Checks(m, DuplicatesIn(b));
      !SameLists(one, other) && ReportsChecks([Passed(one), Passed(other)], one, false)
  {
    var m := Manifest(PlantedIn(a, b), [], []);
    FatesIn(a, b);
    OneOfTwo(DuplicatesIn(a), m.defects, 0);
    OneOfTwo(DuplicatesIn(b), m.defects, 1);
    assert m.defects[0].id == "D1" && m.defects[1].id == "D2" && "D1"[1] != "D2"[1];
    PassForSame(Checks(m, DuplicatesIn(a)), Checks(m, DuplicatesIn(b)));
  }

  lemma PassForSame(one: ChecksScore, other: ChecksScore)
    requires SameChecks(one, other)
    ensures ReportsChecks([Passed(one), Passed(other)], one, false)
  {
    CompletedPair(Passed(one), Passed(other));
  }

  lemma FatesIn(a: string, b: string)
    requires a != b
    ensures FateOf(DuplicatesIn(a), PlantedIn(a, b)[0]) == WasFound && FateOf(DuplicatesIn(a), PlantedIn(a, b)[1]) == WasMissed
    ensures FateOf(DuplicatesIn(b), PlantedIn(a, b)[1]) == WasFound && FateOf(DuplicatesIn(b), PlantedIn(a, b)[0]) == WasMissed
  {
    assert |RULE| > 4 && LocationOf(DuplicatesIn(a)[0]) == a && LocationOf(DuplicatesIn(b)[0]) == b;
  }

  lemma OneOfTwo(findings: seq<Finding>, ds: seq<Defect>, hit: nat)
    requires |ds| == 2 && hit < 2
    requires FateOf(findings, ds[hit]) == WasFound && FateOf(findings, ds[1 - hit]) == WasMissed
    ensures var c := Checks(Manifest(ds, [], []), findings);
      c.found == [ds[hit].id] && |c.missed| == 1 && c.falsePositives == []
  {
    OfFateOfTwo(findings, ds, WasFound);
    OfFateOfTwo(findings, ds, WasMissed);
    assert OfFate(findings, ds, WasFound) == [ds[hit]];
    IdsOfOne(ds[hit]);
  }

  lemma IdsOfOne(d: Defect)
    ensures DefectIds([d]) == [d.id]
  {
    assert [d][..0] == [];
  }

  lemma OfFateOfTwo(findings: seq<Finding>, ds: seq<Defect>, fate: Fate)
    requires |ds| == 2
    ensures OfFate(findings, ds, fate) ==
      (if FateOf(findings, ds[0]) == fate then [ds[0]] else []) + (if FateOf(findings, ds[1]) == fate then [ds[1]] else [])
  {
    var one := ds[..1];
    assert ds[..|ds| - 1] == one && one[..|one| - 1] == [];
    assert OfFate(findings, one, fate) == if FateOf(findings, ds[0]) == fate then [ds[0]] else [];
  }

  lemma CompletedPair(a: RunScore, b: RunScore)
    requires !a.failed && !b.failed
    ensures Completed([a, b]) == [a, b]
  {
    assert [a, b][..1] == [a] && [a][..0] == [];
    assert Completed([a]) == [a];
  }
}
