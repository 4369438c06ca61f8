/**
  Scoring audits against a manifest of planted defects (ScoreRun, Aggregate and
  the averages in internal/eval/score.go).  Shares are real numbers.
*/
module Scoring {
  import opened Wrappers
  import opened Reals
  import Positions

  datatype Origin = FromCheck | FromRule | FromAgent

  datatype Finding = Finding(origin: Origin, rule: string, table: string, display: string, column: string, count: int)

  datatype AgentTarget = AgentTarget(count: int, equivalent: seq<int>)

  datatype Defect = Defect(id: string, place: string, caughtBy: string, agent: Option<AgentTarget>)

  datatype Noise = Noise(place: string, count: int, why: string)

  datatype Clean = Clean(rule: string, place: string)

  datatype Manifest = Manifest(defects: seq<Defect>, noise: seq<Noise>, clean: seq<Clean>)

  datatype Claim = Claim(rule: string, place: string, count: int, covers: string, known: string)

  // ---- what matches what ------------------------------------------------------------------

  function TableOf(f: Finding): string { if f.display == "" then f.table else f.display }

  function LocationOf(f: Finding): string {
    if f.column == "" then TableOf(f) else TableOf(f) + "." + f.column
  }

  /** covers: the exact location, or for a finding that names no column, any column
      of its table. */
  predicate Covers(f: Finding, place: string) {
    LocationOf(f) == place || (f.column == "" && TableOf(f) != "" && TableOf(f) + "." <= place)
  }

  lemma LastDot(a: string, b: string, c: string, d: string)
    requires '.' !in b && '.' !in d && a + "." + b == c + "." + d
    ensures a == c && b == d
  {
    var s := a + "." + b;
    assert s == c + "." + d;
    assert forall k :: |a| < k < |s| ==> s[k] == b[k - |a| - 1];
    assert forall k :: |c| < k < |s| ==> s[k] == d[k - |c| - 1];
    assert s[|a|] == '.' && s[|c|] == '.';
    assert |a| == |c|;
    assert s[..|a|] == a && s[|a| + 1..] == b;
    assert s[..|c|] == c && s[|c| + 1..] == d;
  }

  /** One way only: of a column's place, a finding that names a column covers it exactly
      when it names that one in that table; one that names none covers every column of
      its table. */
  lemma CoversMeans(f: Finding, table: string, column: string)
    requires table != "" && '.' !in column && '.' !in f.column
    ensures f.column != "" ==> (Covers(f, table + "." + column) <==> TableOf(f) == table && f.column == column)
    ensures f.column == "" && TableOf(f) == table ==> Covers(f, table + "." + column)
  {
    if f.column != "" && LocationOf(f) == table + "." + column {
      LastDot(TableOf(f), f.column, table, column);
    }
    var place := table + "." + column;
    assert place[..|table| + 1] == table + ".";
  }

  predicate Measures(t: AgentTarget, n: int) { n == t.count || n in t.equivalent }

  predicate MatchesTarget(f: Finding, d: Defect) {
    d.agent.Some? && Covers(f, d.place) && Measures(d.agent.value, f.count)
  }

  predicate Deterministic(d: Defect) { d.caughtBy != "" && d.caughtBy != "none" }

  function AgentTargets(ds: seq<Defect>): seq<Defect> {
    if ds == [] then []
    else AgentTargets(ds[..|ds| - 1]) + (if ds[|ds| - 1].agent.Some? then [ds[|ds| - 1]] else [])
  }

  predicate Fits(findings: seq<Finding>, i: nat, d: Defect) {
    i < |findings| && findings[i].origin == FromAgent && MatchesTarget(findings[i], d)
  }

  // ---- the deterministic half ------------------------------------------------------------------

  datatype ChecksScore = ChecksScore(
    found: seq<string>, missed: seq<Defect>, falsePositives: seq<Clean>, uncovered: seq<Defect>, converted: seq<string>)

  datatype Fate = WasFound | WasMissed | WasConverted | NotCovered

  predicate RuleAt(findings: seq<Finding>, rule: string, place: string) {
    exists i :: 0 <= i < |findings| && findings[i].rule == rule && LocationOf(findings[i]) == place
  }

  /** An accepted rule measures the target at exactly its place. */
  predicate ConvertedBy(findings: seq<Finding>, d: Defect) {
    d.agent.Some? &&
    exists i :: 0 <= i < |findings| && findings[i].origin == FromRule && LocationOf(findings[i]) == d.place &&
      Measures(d.agent.value, findings[i].count)
  }

  function FateOf(findings: seq<Finding>, d: Defect): Fate {
    if Deterministic(d) then (if RuleAt(findings, d.caughtBy, d.place) then WasFound else WasMissed)
    else if ConvertedBy(findings, d) then WasConverted else NotCovered
  }

  function OfFate(findings: seq<Finding>, ds: seq<Defect>, fate: Fate): seq<Defect> {
    if ds == [] then []
    else
      var n := |ds| - 1;
      OfFate(findings, ds[..n], fate) + (if FateOf(findings, ds[n]) == fate then [ds[n]] else [])
  }

  function DefectIds(ds: seq<Defect>): seq<string> {
    if ds == [] then [] else DefectIds(ds[..|ds| - 1]) + [ds[|ds| - 1].id]
  }

  function Tripped(findings: seq<Finding>, cs: seq<Clean>): seq<Clean> {
    if cs == [] then []
    else
      var n := |cs| - 1;
      Tripped(findings, cs[..n]) + (if RuleAt(findings, cs[n].rule, cs[n].place) then [cs[n]] else [])
  }

  function Checks(m: Manifest, findings: seq<Finding>): ChecksScore {
    ChecksScore(
      DefectIds(OfFate(findings, m.defects, WasFound)), OfFate(findings, m.defects, WasMissed),
      Tripped(findings, m.clean), OfFate(findings, m.defects, NotCovered),
      DefectIds(OfFate(findings, m.defects, WasConverted)))
  }

  lemma FateStep(findings: seq<Finding>, ds: seq<Defect>, i: nat, fate: Fate)
    requires i < |ds|
    ensures var more := OfFate(findings, ds[..i + 1], fate); var so := OfFate(findings, ds[..i], fate);
      if FateOf(findings, ds[i]) == fate then more == so + [ds[i]] && DefectIds(more) == DefectIds(so) + [ds[i].id]
      else more == so
  {
    assert ds[..i + 1][..i] == ds[..i];
    var so := OfFate(findings, ds[..i], fate);
    assert (so + [ds[i]])[..|so|] == so;
    assert so + [] == so;
  }

  /** ScoreChecks. */
  method ScoreChecks(m: Manifest, findings: seq<Finding>) returns (score: ChecksScore)
    ensures score == Checks(m, findings)
  {
    var found: seq<string>, missed: seq<Defect>, uncovered: seq<Defect>, converted: seq<string> := [], [], [], [];
    var i := 0;
    while i < |m.defects|
      invariant 0 <= i <= |m.defects|
      invariant found == DefectIds(OfFate(findings, m.defects[..i], WasFound))
      invariant missed == OfFate(findings, m.defects[..i], WasMissed)
      invariant uncovered == OfFate(findings, m.defects[..i], NotCovered)
      invariant converted == DefectIds(OfFate(findings, m.defects[..i], WasConverted))
    {
      var d := m.defects[i];
      forall fate {
        FateStep(findings, m.defects, i, fate);
      }
      i := i + 1;
      if !Deterministic(d) {
        var byRule := FindRuleMeasuring(findings, d);
        if byRule {
          converted := converted + [d.id];
          continue;
        }
        uncovered := uncovered + [d];
        continue;
      }
      var hit := FindRuleAt(findings, d.caughtBy, d.place);
      if hit {
        found := found + [d.id];
      } else {
        missed := missed + [d];
      }
    }
    assert m.defects[..i] == m.defects;
    var tripped := TrippedClean(m.clean, findings);
    return ChecksScore(found, missed, tripped, uncovered, converted);
  }

  method TrippedClean(clean: seq<Clean>, findings: seq<Finding>) returns (tripped: seq<Clean>)
    ensures tripped == Tripped(findings, clean)
  {
    tripped := [];
    var i := 0;
    while i < |clean|
      invariant 0 <= i <= |clean| && tripped == Tripped(findings, clean[..i])
    {
      assert clean[..i + 1][..i] == clean[..i];
      var hit := FindRuleAt(findings, clean[i].rule, clean[i].place);
      if hit {
        tripped := tripped + [clean[i]];
      }
      i := i + 1;
    }
    assert clean[..i] == clean;
  }

  method FindRuleAt(findings: seq<Finding>, rule: string, place: string) returns (hit: bool)
    ensures hit <==> RuleAt(findings, rule, place)
  {
    for i := 0 to |findings|
      invariant forall k :: 0 <= k < i ==> !(findings[k].rule == rule && LocationOf(findings[k]) == place)
    {
      if findings[i].rule == rule && LocationOf(findings[i]) == place {
        return true;
      }
    }
    return false;
  }

  method FindRuleMeasuring(findings: seq<Finding>, d: Defect) returns (hit: bool)
    ensures hit <==> ConvertedBy(findings, d)
  {
    for i := 0 to |findings|
      invariant d.agent.Some? ==> forall k :: 0 <= k < i ==>
        !(findings[k].origin == FromRule && LocationOf(findings[k]) == d.place && Measures(d.agent.value, findings[k].count))
    {
      if findings[i].origin != FromRule || d.agent.None? {
        continue;
      }
      if LocationOf(findings[i]) == d.place && Measures(d.agent.value, findings[i].count) {
        return true;
      }
    }
    return false;
  }

  /** Each defect is in exactly one of the four lists, in the manifest's order. */
  lemma {:induction false} FatesPartition(findings: seq<Finding>, ds: seq<Defect>, d: Defect, fate: Fate)
    ensures d in OfFate(findings, ds, fate) <==> d in ds && FateOf(findings, d) == fate
    ensures |OfFate(findings, ds, WasFound)| + |OfFate(findings, ds, WasMissed)| +
      |OfFate(findings, ds, WasConverted)| + |OfFate(findings, ds, NotCovered)| == |ds|
    decreases |ds|
  {
    if ds != [] {
      var n := |ds| - 1;
      FatesPartition(findings, ds[..n], d, fate);
      LastOfFate(findings, ds, d, fate);
    }
  }

  /** When a defect is what: found if a check was to catch it and its rule was raised at
      its place; converted if none was, and an accepted rule measures the target there. */
  lemma FatesMean(findings: seq<Finding>, d: Defect)
    ensures FateOf(findings, d) in {WasFound, WasMissed} <==> d.caughtBy !in {"", "none"}
    ensures FateOf(findings, d) == WasFound <==>
      d.caughtBy !in {"", "none"} && exists f :: f in findings && f.rule == d.caughtBy && LocationOf(f) == d.place
    ensures FateOf(findings, d) == WasConverted <==>
      d.caughtBy in {"", "none"} && d.agent.Some? &&
      exists f :: f in findings && f.origin == FromRule && LocationOf(f) == d.place &&
                  (f.count == d.agent.value.count || f.count in d.agent.value.equivalent)
  {
    if f :| f in findings && f.rule == d.caughtBy && LocationOf(f) == d.place {
      var i :| 0 <= i < |findings| && findings[i] == f;
      assert RuleAt(findings, d.caughtBy, d.place);
    }
    if d.agent.Some? {
      if f :| f in findings && f.origin == FromRule && LocationOf(f) == d.place && Measures(d.agent.value, f.count) {
        var i :| 0 <= i < |findings| && findings[i] == f;
        assert ConvertedBy(findings, d);
      }
    }
  }

  lemma LastOfFate(findings: seq<Finding>, ds: seq<Defect>, d: Defect, fate: Fate)
    requires ds != []
    ensures var n := |ds| - 1; var last := ds[n];
      && (d in ds <==> d in ds[..n] || d == last)
      && (d in OfFate(findings, ds, fate) <==> d in OfFate(findings, ds[..n], fate) || (d == last && FateOf(findings, last) == fate))
  {
    assert ds == ds[..|ds| - 1] + [ds[|ds| - 1]];
  }

  // ---- one run -------------------------------------------------------------------------------

  datatype Stopped = Finished | Budget | Refused | ProviderError | CanceledRun

  datatype RunScore = RunScore(
    detected: seq<string>, missed: seq<string>, unclassified: seq<Claim>, checks: ChecksScore,
    failed: bool, stopped: Option<Stopped>)

  /** Which finding each target is credited with: the first fitting one nobody has
      claimed yet. */
  function Credits(targets: seq<Defect>, findings: seq<Finding>): seq<Option<nat>> {
    if targets == [] then []
    else
      var n := |targets| - 1;
      var before := Credits(targets[..n], findings);
      before + [FirstFit(findings, targets[n], Claimed(before), 0)]
  }

  function Claimed(credits: seq<Option<nat>>): set<nat> {
    if credits == [] then {}
    else
      var n := |credits| - 1;
      Claimed(credits[..n]) + (if credits[n].Some? then {credits[n].value} else {})
  }

  function FirstFit(findings: seq<Finding>, d: Defect, claimed: set<nat>, from: nat): (hit: Option<nat>)
    ensures hit.Some? ==> from <= hit.value && Fits(findings, hit.value, d) && hit.value !in claimed
    ensures hit.Some? ==> forall i :: from <= i < hit.value ==> !Fits(findings, i, d) || i in claimed
    ensures hit.None? ==> forall i :: from <= i < |findings| ==> !Fits(findings, i, d) || i in claimed
    decreases |findings| - from
  {
    if from >= |findings| then None
    else if Fits(findings, from, d) && from !in claimed then Some(from)
    else FirstFit(findings, d, claimed, from + 1)
  }

  function Ids(targets: seq<Defect>, credits: seq<Option<nat>>, hit: bool): seq<string>
    requires |targets| == |credits|
  {
    if targets == [] then []
    else
      var n := |targets| - 1;
      Ids(targets[..n], credits[..n], hit) + (if credits[n].Some? == hit then [targets[n].id] else [])
  }

  /** The agent findings nobody claimed, in order. */
  function Unclaimed(findings: seq<Finding>, claimed: set<nat>): seq<nat> {
    if findings == [] then []
    else
      var n := |findings| - 1;
      Unclaimed(findings[..n], claimed) +
        (if findings[n].origin == FromAgent && n !in claimed then [n] else [])
  }

  function CoveringRule(f: Finding, ds: seq<Defect>): string {
    if ds == [] then ""
    else if Deterministic(ds[0]) && Covers(f, ds[0].place) then ds[0].caughtBy
    else CoveringRule(f, ds[1..])
  }

  function KnownNoise(f: Finding, noise: seq<Noise>): string {
    if noise == [] then ""
    else if noise[0].place == LocationOf(f) && noise[0].count == f.count then noise[0].why
    else KnownNoise(f, noise[1..])
  }

  function ClaimOf(m: Manifest, f: Finding): Claim {
    Claim(f.rule, LocationOf(f), f.count, CoveringRule(f, m.defects), KnownNoise(f, m.noise))
  }

  predicate AlreadyCaught(f: Finding, d: Defect) { Deterministic(d) && Covers(f, d.place) }

  predicate FirstToCatch(f: Finding, ds: seq<Defect>, i: nat) {
    i < |ds| && AlreadyCaught(f, ds[i]) && forall j :: 0 <= j < i ==> !AlreadyCaught(f, ds[j])
  }

  /** A claim names the rule of the first deterministic defect that lies where it does. */
  lemma {:induction false} CoveringRuleMeans(f: Finding, ds: seq<Defect>, i: nat)
    ensures FirstToCatch(f, ds, i) ==> CoveringRule(f, ds) == ds[i].caughtBy
    ensures (forall j :: 0 <= j < |ds| ==> !AlreadyCaught(f, ds[j])) ==> CoveringRule(f, ds) == ""
  {
    if ds != [] && !AlreadyCaught(f, ds[0]) {
      assert forall j :: 0 <= j < |ds| - 1 ==> ds[1..][j] == ds[j + 1];
      CoveringRuleMeans(f, ds[1..], if i == 0 then 0 else i - 1);
    }
  }

  predicate Explains(n: Noise, f: Finding) { n.place == LocationOf(f) && n.count == f.count }

  predicate FirstToExplain(f: Finding, noise: seq<Noise>, i: nat) {
    i < |noise| && Explains(noise[i], f) && forall j :: 0 <= j < i ==> !Explains(noise[j], f)
  }

  /** And gives the reason of the first noise entry of its place and count. */
  lemma {:induction false} KnownNoiseMeans(f: Finding, noise: seq<Noise>, i: nat)
    ensures FirstToExplain(f, noise, i) ==> KnownNoise(f, noise) == noise[i].why
    ensures (forall j :: 0 <= j < |noise| ==> !Explains(noise[j], f)) ==> KnownNoise(f, noise) == ""
  {
    if noise != [] && !Explains(noise[0], f) {
      assert forall j :: 0 <= j < |noise| - 1 ==> noise[1..][j] == noise[j + 1];
      KnownNoiseMeans(f, noise[1..], if i == 0 then 0 else i - 1);
    }
  }

  /** The unclaimed agent findings, all of them, in order. */
  lemma {:induction false} UnclaimedAre(findings: seq<Finding>, claimed: set<nat>)
    ensures Positions.Lists(Unclaimed(findings, claimed),
                            set i: nat | i < |findings| && findings[i].origin == FromAgent && i !in claimed)
    decreases |findings|
  {
    if findings != [] {
      var n := |findings| - 1;
      UnclaimedAre(findings[..n], claimed);
      var before := set i: nat | i < n && findings[..n][i].origin == FromAgent && i !in claimed;
      var all := set i: nat | i < |findings| && findings[i].origin == FromAgent && i !in claimed;
      if findings[n].origin == FromAgent && n !in claimed {
        Positions.OneMoreListed(Unclaimed(findings[..n], claimed), before, n);
        assert all == before + {n};
      } else {
        assert all == before;
      }
    }
  }

  /** ScoreRun. */
  method ScoreRun(m: Manifest, findings: seq<Finding>) returns (score: RunScore)
    ensures var targets := AgentTargets(m.defects); var credits := Credits(targets, findings);
      var left := Unclaimed(findings, Claimed(credits));
      && |credits| == |targets|
      && score.detected == Ids(targets, credits, true) && score.missed == Ids(targets, credits, false)
      && |score.unclassified| == |left|
      && (forall i :: 0 <= i < |left| ==> left[i] < |findings| && score.unclassified[i] == ClaimOf(m, findings[left[i]]))
      && score.checks == Checks(m, findings)
  {
    var targets := AgentTargets(m.defects);
    var detected, missed, claimed := CreditTargets(targets, findings);
    var claims := Unclassified(m, findings, claimed);
    var checks := ScoreChecks(m, findings);
    score := RunScore(detected, missed, claims, checks, false, None);
  }

  /** ScoreRun's first loop. */
  method CreditTargets(targets: seq<Defect>, findings: seq<Finding>)
    returns (detected: seq<string>, missed: seq<string>, claimed: set<nat>)
    ensures var credits := Credits(targets, findings);
      |credits| == |targets| && claimed == Claimed(credits) &&
      detected == Ids(targets, credits, true) && missed == Ids(targets, credits, false)
  {
    claimed, detected, missed := {}, [], [];
    ghost var credits: seq<Option<nat>> := [];
    var k := 0;
    while k < |targets|
      invariant 0 <= k <= |targets| && |credits| == k
      invariant credits == Credits(targets[..k], findings) && claimed == Claimed(credits)
      invariant detected == Ids(targets[..k], credits, true) && missed == Ids(targets[..k], credits, false)
    {
      var d := targets[k];
      var hit := FindFit(findings, d, claimed);
      CreditStep(targets, findings, k);
      ClaimedStep(credits, hit);
      IdsStep(targets, k, credits, hit, true);
      IdsStep(targets, k, credits, hit, false);
      credits := credits + [hit];
      if hit.Some? {
        claimed := claimed + {hit.value};
        detected := detected + [d.id];
      } else {
        missed := missed + [d.id];
      }
      k := k + 1;
    }
    assert targets[..k] == targets;
  }

  lemma CreditStep(targets: seq<Defect>, findings: seq<Finding>, k: nat)
    requires k < |targets|
    ensures var before := Credits(targets[..k], findings);
      Credits(targets[..k + 1], findings) == before + [FirstFit(findings, targets[k], Claimed(before), 0)]
  {
    assert targets[..k + 1][..k] == targets[..k];
  }

  lemma ClaimedStep(before: seq<Option<nat>>, hit: Option<nat>)
    ensures Claimed(before + [hit]) == Claimed(before) + (if hit.Some? then {hit.value} else {})
  {
    assert (before + [hit])[..|before|] == before;
  }

  lemma IdsStep(targets: seq<Defect>, k: nat, before: seq<Option<nat>>, hit: Option<nat>, b: bool)
    requires k < |targets| && |before| == k
    ensures Ids(targets[..k + 1], before + [hit], b) ==
      Ids(targets[..k], before, b) + (if hit.Some? == b then [targets[k].id] else [])
  {
    assert targets[..k + 1][..k] == targets[..k];
    assert (before + [hit])[..k] == before;
  }

  method FindFit(findings: seq<Finding>, d: Defect, claimed: set<nat>) returns (hit: Option<nat>)
    ensures hit == FirstFit(findings, d, claimed, 0)
  {
    var i := 0;
    while i < |findings|
      invariant 0 <= i <= |findings|
      invariant FirstFit(findings, d, claimed, 0) == FirstFit(findings, d, claimed, i)
    {
      if findings[i].origin == FromAgent && i !in claimed && MatchesTarget(findings[i], d) {
        return Some(i);
      }
      i := i + 1;
    }
    return None;
  }

  method Unclassified(m: Manifest, findings: seq<Finding>, claimed: set<nat>) returns (claims: seq<Claim>)
    ensures var left := Unclaimed(findings, claimed);
      |claims| == |left| && forall i :: 0 <= i < |left| ==> left[i] < |findings| && claims[i] == ClaimOf(m, findings[left[i]])
  {
    claims := [];
    var i := 0;
    while i < |findings|
      invariant 0 <= i <= |findings|
      invariant var left := Unclaimed(findings[..i], claimed);
        |claims| == |left| && forall k :: 0 <= k < |left| ==> left[k] < i && claims[k] == ClaimOf(m, findings[left[k]])
    {
      assert findings[..i + 1][..i] == findings[..i];
      if findings[i].origin == FromAgent && i !in claimed {
        claims := claims + [ClaimOf(m, findings[i])];
      }
      i := i + 1;
    }
    assert findings[..i] == findings;
  }

  // ---- crediting is one to one and maximal -----------------------------------------------------

  lemma {:induction false} CreditsLength(targets: seq<Defect>, findings: seq<Finding>)
    ensures |Credits(targets, findings)| == |targets|
    decreases |targets|
  {
    if targets != [] {
      CreditsLength(targets[..|targets| - 1], findings);
    }
  }

  lemma {:induction false} ClaimedMeans(credits: seq<Option<nat>>, i: nat)
    ensures i in Claimed(credits) <==> Some(i) in credits
    decreases |credits|
  {
    if credits != [] {
      var n := |credits| - 1;
      ClaimedMeans(credits[..n], i);
      assert credits == credits[..n] + [credits[n]];
    }
  }

  ghost predicate OneToOne(credits: seq<Option<nat>>) {
    forall k, l :: 0 <= k < l < |credits| && credits[k].Some? ==> credits[k] != credits[l]
  }

  ghost predicate CreditsFit(credits: seq<Option<nat>>, targets: seq<Defect>, findings: seq<Finding>)
    requires |credits| == |targets|
  {
    forall k :: 0 <= k < |targets| && credits[k].Some? ==> Fits(findings, credits[k].value, targets[k])
  }

  /** A missed target has no fitting finding that somebody else did not claim. */
  ghost predicate NothingLeftOver(credits: seq<Option<nat>>, targets: seq<Defect>, findings: seq<Finding>)
    requires |credits| == |targets|
  {
    forall k, i :: 0 <= k < |targets| && 0 <= i < |findings| && credits[k].None? && Fits(findings, i, targets[k]) ==>
      i in Claimed(credits)
  }

  lemma OneMoreCredit(before: seq<Option<nat>>, hit: Option<nat>)
    requires OneToOne(before) && (hit.Some? ==> hit.value !in Claimed(before))
    ensures OneToOne(before + [hit])
  {
    if hit.Some? {
      ClaimedMeans(before, hit.value);
    }
  }

  lemma OneMoreFits(before: seq<Option<nat>>, targets: seq<Defect>, findings: seq<Finding>)
    requires targets != [] && |before| == |targets| - 1
    requires CreditsFit(before, targets[..|targets| - 1], findings)
    ensures var hit := FirstFit(findings, targets[|targets| - 1], Claimed(before), 0);
      CreditsFit(before + [hit], targets, findings)
  {
    var n := |targets| - 1;
    var credits := before + [FirstFit(findings, targets[n], Claimed(before), 0)];
    forall k | 0 <= k < |targets| && credits[k].Some? ensures Fits(findings, credits[k].value, targets[k]) {
      if k < n {
        assert targets[..n][k] == targets[k] && before[k] == credits[k];
      }
    }
  }

  lemma NothingMoreLeftOver(before: seq<Option<nat>>, targets: seq<Defect>, findings: seq<Finding>)
    requires targets != [] && |before| == |targets| - 1
    requires NothingLeftOver(before, targets[..|targets| - 1], findings)
    ensures var hit := FirstFit(findings, targets[|targets| - 1], Claimed(before), 0);
      NothingLeftOver(before + [hit], targets, findings)
  {
    var n := |targets| - 1;
    var hit := FirstFit(findings, targets[n], Claimed(before), 0);
    var credits := before + [hit];
    ClaimedStep(before, hit);
    forall k, i | 0 <= k < |targets| && 0 <= i < |findings| && credits[k].None? && Fits(findings, i, targets[k])
      ensures i in Claimed(credits)
    {
      if k < n {
        assert targets[..n][k] == targets[k] && before[k].None?;
      }
    }
  }

  /** A credited target is credited with an agent finding that measures it, no two
      with the same one, and a missed target has no fitting finding left over. */
  lemma {:induction false} CreditingIsMaximal(targets: seq<Defect>, findings: seq<Finding>)
    ensures var credits := Credits(targets, findings);
      && |credits| == |targets| && OneToOne(credits)
      && CreditsFit(credits, targets, findings) && NothingLeftOver(credits, targets, findings)
    decreases |targets|
  {
    if targets != [] {
      var n := |targets| - 1;
      var before := Credits(targets[..n], findings);
      CreditingIsMaximal(targets[..n], findings);
      OneMoreCredit(before, FirstFit(findings, targets[n], Claimed(before), 0));
      OneMoreFits(before, targets, findings);
      NothingMoreLeftOver(before, targets, findings);
    }
  }

  /** What a credit is worth: an agent's finding, at the target's place or naming no
      column of its table, with the target's count or one said to be equivalent. */
  lemma CreditIsEarned(targets: seq<Defect>, findings: seq<Finding>, k: nat)
    requires k < |targets|
    ensures var credits := Credits(targets, findings);
      |credits| == |targets| &&
      (credits[k].Some? ==>
        credits[k].value < |findings| && targets[k].agent.Some? &&
        var f, d := findings[credits[k].value], targets[k];
        && f.origin == FromAgent
        && (LocationOf(f) == d.place || (f.column == "" && TableOf(f) != "" && TableOf(f) + "." <= d.place))
        && (f.count == d.agent.value.count || f.count in d.agent.value.equivalent))
  {
    CreditingIsMaximal(targets, findings);
    var credits := Credits(targets, findings);
    if credits[k].Some? {
      assert Fits(findings, credits[k].value, targets[k]);
    }
  }

  function AgentFindings(findings: seq<Finding>): nat {
    if findings == [] then 0
    else AgentFindings(findings[..|findings| - 1]) + (if findings[|findings| - 1].origin == FromAgent then 1 else 0)
  }

  function ClaimedBelow(claimed: set<nat>, n: nat): set<nat> { set i | i in claimed && i < n }

  lemma BelowStep(claimed: set<nat>, n: nat)
    ensures |ClaimedBelow(claimed, n + 1)| == |ClaimedBelow(claimed, n)| + (if n in claimed then 1 else 0)
  {
    var below := ClaimedBelow(claimed, n);
    assert n !in below;
    assert ClaimedBelow(claimed, n + 1) == if n in claimed then below + {n} else below;
  }

  lemma {:induction false} UnclaimedCount(findings: seq<Finding>, claimed: set<nat>)
    requires forall i :: i in claimed && i < |findings| ==> findings[i].origin == FromAgent
    ensures |ClaimedBelow(claimed, |findings|)| + |Unclaimed(findings, claimed)| == AgentFindings(findings)
    decreases |findings|
  {
    if findings == [] {
      assert ClaimedBelow(claimed, 0) == {};
    } else {
      var n := |findings| - 1;
      UnclaimedCount(findings[..n], claimed);
      BelowStep(claimed, n);
    }
  }

  lemma {:induction false} IdsCount(targets: seq<Defect>, credits: seq<Option<nat>>)
    requires |targets| == |credits|
    ensures |Ids(targets, credits, true)| + |Ids(targets, credits, false)| == |targets|
    ensures OneToOne(credits) ==> |Claimed(credits)| == |Ids(targets, credits, true)|
    decreases |targets|
  {
    if targets != [] {
      var n := |targets| - 1;
      IdsCount(targets[..n], credits[..n]);
      if OneToOne(credits) && credits[n].Some? {
        ClaimedMeans(credits[..n], credits[n].value);
      }
    }
  }

  lemma ClaimedIsAgents(credits: seq<Option<nat>>, targets: seq<Defect>, findings: seq<Finding>, i: nat)
    requires |credits| == |targets| && CreditsFit(credits, targets, findings) && i in Claimed(credits)
    ensures i < |findings| && findings[i].origin == FromAgent
  {
    ClaimedMeans(credits, i);
    var k :| 0 <= k < |credits| && credits[k] == Some(i);
    assert Fits(findings, credits[k].value, targets[k]);
  }

  /** Credited plus unclassified agent findings are all of them, and detected plus
      missed targets are all of them. */
  lemma CreditsAccountForAll(targets: seq<Defect>, findings: seq<Finding>)
    ensures var credits := Credits(targets, findings);
      |credits| == |targets| &&
      |Ids(targets, credits, true)| + |Unclaimed(findings, Claimed(credits))| == AgentFindings(findings) &&
      |Ids(targets, credits, true)| + |Ids(targets, credits, false)| == |targets|
  {
    var credits := Credits(targets, findings);
    CreditingIsMaximal(targets, findings);
    IdsCount(targets, credits);
    forall i | i in Claimed(credits) ensures i < |findings| && findings[i].origin == FromAgent {
      ClaimedIsAgents(credits, targets, findings, i);
    }
    UnclaimedCount(findings, Claimed(credits));
    assert ClaimedBelow(Claimed(credits), |findings|) == Claimed(credits);
  }

  // ---- repeated runs ------------------------------------------------------------------------------

  predicate Scorable(r: RunScore) {
    !r.failed && (r.stopped.None? || (r.stopped.value != ProviderError && r.stopped.value != CanceledRun))
  }

  function Hits(id: string, runs: seq<RunScore>): nat {
    if runs == [] then 0
    else
      var r := runs[|runs| - 1];
      Hits(id, runs[..|runs| - 1]) + (if Scorable(r) && id in r.detected then 1 else 0)
  }

  function Scored(runs: seq<RunScore>): nat {
    if runs == [] then 0 else Scored(runs[..|runs| - 1]) + (if Scorable(runs[|runs| - 1]) then 1 else 0)
  }

  datatype TargetScore = TargetScore(id: string, hits: nat, runs: nat)

  function TargetScores(targets: seq<Defect>, runs: seq<RunScore>): (ts: seq<TargetScore>)
    ensures |ts| == |targets|
    ensures forall i :: 0 <= i < |ts| ==> ts[i] == TargetScore(targets[i].id, Hits(targets[i].id, runs), Scored(runs))
  {
    seq(|targets|, i requires 0 <= i < |targets| => TargetScore(targets[i].id, Hits(targets[i].id, runs), Scored(runs)))
  }

  /** The runs whose checks were carried out. */
  function Completed(runs: seq<RunScore>): seq<RunScore> {
    if runs == [] then []
    else
      var n := |runs| - 1;
      Completed(runs[..n]) + (if runs[n].failed then [] else [runs[n]])
  }

  /** sameChecks: three sizes are compared. */
  predicate SameChecks(a: ChecksScore, b: ChecksScore) {
    |a.found| == |b.found| && |a.missed| == |b.missed| && |a.falsePositives| == |b.falsePositives|
  }

  const NO_CHECKS := ChecksScore([], [], [], [], [])

  datatype Score = Score(targets: seq<TargetScore>, checks: ChecksScore, checksUnstable: bool)

  /** What a scorecard says of the checks: the first completed run's, and whether any
      later one came out with other sizes. */
  ghost predicate ReportsChecks(runs: seq<RunScore>, checks: ChecksScore, unstable: bool) {
    var done := Completed(runs);
    if done == [] then checks == NO_CHECKS && !unstable
    else checks == done[0].checks && (unstable <==> exists k :: 0 <= k < |done| && !SameChecks(checks, done[k].checks))
  }

  lemma OneMoreRun(runs: seq<RunScore>, i: nat, checks: ChecksScore, unstable: bool)
    requires i < |runs| && ReportsChecks(runs[..i], checks, unstable)
    ensures var done, r := Completed(runs[..i]), runs[i];
      if r.failed then ReportsChecks(runs[..i + 1], checks, unstable)
      else if done == [] then ReportsChecks(runs[..i + 1], r.checks, false)
      else ReportsChecks(runs[..i + 1], checks, unstable || !SameChecks(checks, r.checks))
  {
    assert runs[..i + 1][..i] == runs[..i];
    var done, r := Completed(runs[..i]), runs[i];
    if r.failed {
      assert Completed(runs[..i + 1]) == done + [] == done;
    } else {
      var more := Completed(runs[..i + 1]);
      assert more == done + [r] && more[|done|] == r;
      assert forall k :: 0 <= k < |done| ==> more[k] == done[k];
    }
  }

  /** Aggregate: how each target fared, and whether the checks agreed. */
  method Aggregate(m: Manifest, runs: seq<RunScore>) returns (s: Score)
    ensures s.targets == TargetScores(AgentTargets(m.defects), runs)
    ensures ReportsChecks(runs, s.checks, s.checksUnstable)
  {
    var counted, first := 0, true;
    var checks, unstable := NO_CHECKS, false;
    var i := 0;
    while i < |runs|
      invariant 0 <= i <= |runs| && counted == Scored(runs[..i])
      invariant first <==> Completed(runs[..i]) == []
      invariant ReportsChecks(runs[..i], checks, unstable)
    {
      assert runs[..i + 1][..i] == runs[..i];
      OneMoreRun(runs, i, checks, unstable);
      var r := runs[i];
      i := i + 1;
      if r.failed {
        continue;
      }
      if first {
        checks, first := r.checks, false;
      } else if !SameChecks(checks, r.checks) {
        unstable := true;
      }
      if Scorable(r) {
        counted := counted + 1;
      }
    }
    assert runs[..i] == runs;
    var ts := ScoreTargets(AgentTargets(m.defects), runs, counted);
    return Score(ts, checks, unstable);
  }

  method ScoreTargets(targets: seq<Defect>, runs: seq<RunScore>, counted: nat) returns (ts: seq<TargetScore>)
    requires counted == Scored(runs)
    ensures ts == TargetScores(targets, runs)
  {
    ts := [];
    var k := 0;
    while k < |targets|
      invariant 0 <= k <= |targets| && |ts| == k
      invariant forall j :: 0 <= j < k ==> ts[j] == TargetScores(targets, runs)[j]
    {
      var hits := CountHits(targets[k].id, runs);
      ts := ts + [TargetScore(targets[k].id, hits, counted)];
      k := k + 1;
    }
  }

  method CountHits(id: string, runs: seq<RunScore>) returns (hits: nat)
    ensures hits == Hits(id, runs)
  {
    hits := 0;
    var i := 0;
    while i < |runs|
      invariant 0 <= i <= |runs| && hits == Hits(id, runs[..i])
    {
      assert runs[..i + 1][..i] == runs[..i];
      if Scorable(runs[i]) && id in runs[i].detected {
        hits := hits + 1;
      }
      i := i + 1;
    }
    assert runs[..i] == runs;
  }

  ghost predicate DistinctIds(targets: seq<Defect>) {
    forall i, j :: 0 <= i < j < |targets| ==> targets[i].id != targets[j].id
  }

  function IdSet(targets: seq<Defect>): set<string> { set t | t in targets :: t.id }

  ghost predicate NoRepeats(ids: seq<string>) { forall i, j :: 0 <= i < j < |ids| ==> ids[i] != ids[j] }

  /** A run scored against these targets. */
  ghost predicate ScoredAgainst(targets: seq<Defect>, r: RunScore) {
    && NoRepeats(r.detected) && (forall id :: id in r.detected ==> id in IdSet(targets))
    && (forall id :: id in r.missed ==> id in IdSet(targets))
    && |r.detected| + |r.missed| == |targets|
  }

  lemma IdSetMeans(targets: seq<Defect>, id: string)
    ensures id in IdSet(targets) <==> exists i :: 0 <= i < |targets| && targets[i].id == id
  {
    if i :| 0 <= i < |targets| && targets[i].id == id {
      assert targets[i] in targets;
    }
  }

  lemma OneMoreTarget(targets: seq<Defect>)
    requires targets != [] && DistinctIds(targets)
    ensures var n := |targets| - 1;
      IdSet(targets) == IdSet(targets[..n]) + {targets[n].id} && targets[n].id !in IdSet(targets[..n])
  {
    var n := |targets| - 1;
    var init := targets[..n];
    forall id ensures id in IdSet(targets) <==> id in IdSet(init) + {targets[n].id} {
      IdSetMeans(targets, id);
      IdSetMeans(init, id);
      if i :| 0 <= i < n && init[i].id == id {
        assert targets[i].id == id;
      }
      if i :| 0 <= i < |targets| && targets[i].id == id {
        assert i < n ==> init[i].id == id;
      }
    }
    IdSetMeans(init, targets[n].id);
  }

  /** ScoreRun's results are. */
  lemma {:induction false} IdsAreTargets(targets: seq<Defect>, credits: seq<Option<nat>>, hit: bool)
    requires |targets| == |credits| && DistinctIds(targets)
    ensures NoRepeats(Ids(targets, credits, hit))
    ensures forall id :: id in Ids(targets, credits, hit) ==> id in IdSet(targets)
    decreases |targets|
  {
    if targets != [] {
      var n := |targets| - 1;
      IdsAreTargets(targets[..n], credits[..n], hit);
      OneMoreTarget(targets);
    }
  }

  lemma ScoresAreAgainstTargets(targets: seq<Defect>, findings: seq<Finding>, r: RunScore)
    requires DistinctIds(targets) && |Credits(targets, findings)| == |targets|
    requires r.detected == Ids(targets, Credits(targets, findings), true)
    requires r.missed == Ids(targets, Credits(targets, findings), false)
    ensures ScoredAgainst(targets, r)
  {
    IdsAreTargets(targets, Credits(targets, findings), true);
    IdsAreTargets(targets, Credits(targets, findings), false);
    IdsCount(targets, Credits(targets, findings));
  }

  function TotalHits(targets: seq<Defect>, runs: seq<RunScore>): nat {
    if targets == [] then 0
    else TotalHits(targets[..|targets| - 1], runs) + Hits(targets[|targets| - 1].id, runs)
  }

  function TotalDetected(runs: seq<RunScore>): nat {
    if runs == [] then 0
    else
      var r := runs[|runs| - 1];
      TotalDetected(runs[..|runs| - 1]) + (if Scorable(r) then |r.detected| else 0)
  }

  function FoundIn(targets: seq<Defect>, ids: seq<string>): nat {
    if targets == [] then 0
    else FoundIn(targets[..|targets| - 1], ids) + (if targets[|targets| - 1].id in ids then 1 else 0)
  }

  lemma {:induction false} FoundInMeans(targets: seq<Defect>, ids: seq<string>)
    requires DistinctIds(targets)
    ensures FoundIn(targets, ids) == |set id | id in IdSet(targets) && id in ids|
    decreases |targets|
  {
    var all := set id | id in IdSet(targets) && id in ids;
    if targets == [] {
      assert all == {};
    } else {
      var n := |targets| - 1;
      FoundInMeans(targets[..n], ids);
      OneMoreTarget(targets);
      CommonStep(IdSet(targets[..n]), targets[n].id, ids);
    }
  }

  lemma CommonStep(some: set<string>, one: string, ids: seq<string>)
    requires one !in some
    ensures |set id | id in some + {one} && id in ids| == |set id | id in some && id in ids| + (if one in ids then 1 else 0)
  {
    var before := set id | id in some && id in ids;
    assert (set id | id in some + {one} && id in ids) == if one in ids then before + {one} else before;
  }

  lemma {:induction false} NoRepeatsCount(ids: seq<string>)
    requires NoRepeats(ids)
    ensures |set id | id in ids| == |ids|
    decreases |ids|
  {
    var all := set id | id in ids;
    if ids == [] {
      assert all == {};
    } else {
      var n := |ids| - 1;
      NoRepeatsCount(ids[..n]);
      assert ids == ids[..n] + [ids[n]];
      assert all == (set id | id in ids[..n]) + {ids[n]};
    }
  }

  lemma DetectedAreFound(targets: seq<Defect>, r: RunScore)
    requires DistinctIds(targets) && ScoredAgainst(targets, r)
    ensures FoundIn(targets, r.detected) == |r.detected|
  {
    FoundInMeans(targets, r.detected);
    NoRepeatsCount(r.detected);
    assert (set id | id in IdSet(targets) && id in r.detected) == (set id | id in r.detected);
  }

  lemma {:induction false} HitsStep(targets: seq<Defect>, runs: seq<RunScore>)
    requires runs != []
    ensures var r := runs[|runs| - 1];
      TotalHits(targets, runs) ==
        TotalHits(targets, runs[..|runs| - 1]) + (if Scorable(r) then FoundIn(targets, r.detected) else 0)
    decreases |targets|
  {
    if targets != [] {
      HitsStep(targets[..|targets| - 1], runs);
    }
  }

  /** Counting hits target by target or run by run gives the same number. */
  lemma {:induction false} HitsAreDetections(targets: seq<Defect>, runs: seq<RunScore>)
    requires DistinctIds(targets) && forall r :: r in runs ==> ScoredAgainst(targets, r)
    ensures TotalHits(targets, runs) == TotalDetected(runs)
    decreases |runs|
  {
    if runs == [] {
      NoRunsNoHits(targets);
    } else {
      var n := |runs| - 1;
      assert runs == runs[..n] + [runs[n]];
      HitsAreDetections(targets, runs[..n]);
      HitsStep(targets, runs);
      DetectedAreFound(targets, runs[n]);
    }
  }

  lemma {:induction false} NoRunsNoHits(targets: seq<Defect>)
    ensures TotalHits(targets, []) == 0
    decreases |targets|
  {
    if targets != [] {
      NoRunsNoHits(targets[..|targets| - 1]);
    }
  }

  // ---- the averages -----------------------------------------------------------------------------

  function Share(part: nat, whole: nat): real { if whole == 0 then 0.0 else part as real / whole as real }

  function Recall(r: RunScore): real { Share(|r.detected|, |r.detected| + |r.missed|) }

  function SumRecall(runs: seq<RunScore>): real {
    if runs == [] then 0.0
    else
      var r := runs[|runs| - 1];
      SumRecall(runs[..|runs| - 1]) + (if Scorable(r) then Recall(r) else 0.0)
  }

  function Mean(sum: real, n: nat): real { if n == 0 then 0.0 else sum / n as real }

  method MeanRecall(runs: seq<RunScore>) returns (mean: real)
    ensures mean == Mean(SumRecall(runs), Scored(runs))
  {
    var sum, n, i := 0.0, 0, 0;
    while i < |runs|
      invariant 0 <= i <= |runs| && sum == SumRecall(runs[..i]) && n == Scored(runs[..i])
    {
      assert runs[..i + 1][..i] == runs[..i];
      if Scorable(runs[i]) {
        sum := sum + Recall(runs[i]);
        n := n + 1;
      }
      i := i + 1;
    }
    assert runs[..i] == runs;
    return Mean(sum, n);
  }

  function Wanted(ids: seq<string>, want: set<string>): nat {
    if ids == [] then 0 else Wanted(ids[..|ids| - 1], want) + (if ids[|ids| - 1] in want then 1 else 0)
  }

  function WantedTotal(r: RunScore, want: set<string>): nat { Wanted(r.detected, want) + Wanted(r.missed, want) }

  function SumRecallOf(runs: seq<RunScore>, want: set<string>): real {
    if runs == [] then 0.0
    else
      var r := runs[|runs| - 1];
      SumRecallOf(runs[..|runs| - 1], want) +
        (if Scorable(r) && WantedTotal(r, want) > 0 then Share(Wanted(r.detected, want), WantedTotal(r, want)) else 0.0)
  }

  function ScoredOf(runs: seq<RunScore>, want: set<string>): nat {
    if runs == [] then 0
    else
      var r := runs[|runs| - 1];
      ScoredOf(runs[..|runs| - 1], want) + (if Scorable(r) && WantedTotal(r, want) > 0 then 1 else 0)
  }

  method CountWanted(ids: seq<string>, want: set<string>) returns (n: nat)
    ensures n == Wanted(ids, want)
  {
    n := 0;
    var i := 0;
    while i < |ids|
      invariant 0 <= i <= |ids| && n == Wanted(ids[..i], want)
    {
      assert ids[..i + 1][..i] == ids[..i];
      if ids[i] in want {
        n := n + 1;
      }
      i := i + 1;
    }
    assert ids[..i] == ids;
  }

  function MeanOf(runs: seq<RunScore>, want: set<string>): real {
    if want == {} then 0.0 else Mean(SumRecallOf(runs, want), ScoredOf(runs, want))
  }

  method MeanRecallOf(runs: seq<RunScore>, targets: seq<Defect>) returns (mean: real)
    ensures mean == MeanOf(runs, IdSet(targets))
  {
    if targets == [] {
      return 0.0;
    }
    var want := IdSet(targets);
    assert targets[0].id in want;
    var sum, n, i := 0.0, 0, 0;
    while i < |runs|
      invariant 0 <= i <= |runs| && sum == SumRecallOf(runs[..i], want) && n == ScoredOf(runs[..i], want)
    {
      assert runs[..i + 1][..i] == runs[..i];
      var r := runs[i];
      i := i + 1;
      if !Scorable(r) {
        continue;
      }
      var found := CountWanted(r.detected, want);
      var others := CountWanted(r.missed, want);
      if found + others == 0 {
        continue;
      }
      sum := sum + found as real / (found + others) as real;
      n := n + 1;
    }
    assert runs[..i] == runs;
    return Mean(sum, n);
  }

  lemma {:induction false} AllWanted(ids: seq<string>, want: set<string>)
    requires forall id :: id in ids ==> id in want
    ensures Wanted(ids, want) == |ids|
    decreases |ids|
  {
    if ids != [] {
      AllWanted(ids[..|ids| - 1], want);
    }
  }

  lemma {:induction false} SumsOverAllTargets(targets: seq<Defect>, runs: seq<RunScore>)
    requires targets != [] && forall r :: r in runs ==> ScoredAgainst(targets, r)
    ensures SumRecallOf(runs, IdSet(targets)) == SumRecall(runs) && ScoredOf(runs, IdSet(targets)) == Scored(runs)
    decreases |runs|
  {
    if runs != [] {
      var n := |runs| - 1;
      assert runs == runs[..n] + [runs[n]];
      SumsOverAllTargets(targets, runs[..n]);
      assert runs[n] in runs;
      AllWanted(runs[n].detected, IdSet(targets));
      AllWanted(runs[n].missed, IdSet(targets));
    }
  }

  lemma {:induction false} NoTargetsNoRecall(runs: seq<RunScore>)
    requires forall r :: r in runs ==> ScoredAgainst([], r)
    ensures SumRecall(runs) == 0.0
    decreases |runs|
  {
    if runs != [] {
      var n := |runs| - 1;
      assert runs == runs[..n] + [runs[n]];
      NoTargetsNoRecall(runs[..n]);
      assert runs[n] in runs;
    }
  }

  /** Recall averaged over all the targets is the overall mean recall. */
  lemma MeanOverAllTargets(targets: seq<Defect>, runs: seq<RunScore>)
    requires forall r :: r in runs ==> ScoredAgainst(targets, r)
    ensures MeanOf(runs, IdSet(targets)) == Mean(SumRecall(runs), Scored(runs))
  {
    if targets == [] {
      NoTargetsNoRecall(runs);
      assert IdSet(targets) == {};
    } else {
      assert targets[0].id in IdSet(targets);
      SumsOverAllTargets(targets, runs);
    }
  }

  // ---- the averages, run by run --------------------------------------------------------------

  ghost function WantedIn(ids: seq<string>, want: set<string>): set<nat> { set i: nat | i < |ids| && ids[i] in want }

  lemma {:induction false} WantedIsCardinality(ids: seq<string>, want: set<string>)
    ensures Wanted(ids, want) == |WantedIn(ids, want)|
    decreases |ids|
  {
    if ids == [] {
      assert WantedIn(ids, want) == {};
    } else {
      var n := |ids| - 1;
      WantedIsCardinality(ids[..n], want);
      assert WantedIn(ids, want) == WantedIn(ids[..n], want) + (if ids[n] in want then {n} else {});
    }
  }

  lemma {:induction false} SumsOfTwo(a: seq<RunScore>, b: seq<RunScore>, want: set<string>)
    ensures SumRecallOf(a + b, want) == SumRecallOf(a, want) + SumRecallOf(b, want)
    ensures ScoredOf(a + b, want) == ScoredOf(a, want) + ScoredOf(b, want)
    ensures SumRecall(a + b) == SumRecall(a) + SumRecall(b) && Scored(a + b) == Scored(a) + Scored(b)
    decreases |b|
  {
    if b == [] {
      assert a + b == a;
    } else {
      var n := |b| - 1;
      SumsOfTwo(a, b[..n], want);
      assert (a + b)[..|a + b| - 1] == a + b[..n] && (a + b)[|a + b| - 1] == b[n];
    }
  }

  lemma OneRun(r: RunScore, want: set<string>)
    ensures SumRecallOf([r], want) ==
      (if Scorable(r) && WantedTotal(r, want) > 0 then Share(Wanted(r.detected, want), WantedTotal(r, want)) else 0.0)
    ensures ScoredOf([r], want) == if Scorable(r) && WantedTotal(r, want) > 0 then 1 else 0
    ensures SumRecall([r]) == (if Scorable(r) then Recall(r) else 0.0) && Scored([r]) == if Scorable(r) then 1 else 0
  {
    assert [r][..0] == [];
  }

  /** A run that failed, or that its provider or a cancellation stopped, changes no mean,
      wherever it stands; nor does one that has none of the wanted targets change theirs. */
  lemma LeftOutOfMeans(a: seq<RunScore>, r: RunScore, b: seq<RunScore>, want: set<string>)
    requires r.failed || r.stopped in {Some(ProviderError), Some(CanceledRun)} ||
             (WantedIn(r.detected, want) == {} && WantedIn(r.missed, want) == {})
    ensures MeanOf(a + [r] + b, want) == MeanOf(a + b, want)
    ensures !Scorable(r) ==> Mean(SumRecall(a + [r] + b), Scored(a + [r] + b)) == Mean(SumRecall(a + b), Scored(a + b))
  {
    WantedIsCardinality(r.detected, want);
    WantedIsCardinality(r.missed, want);
    OneRun(r, want);
    SumsOfTwo(a, [r], want);
    SumsOfTwo(a + [r], b, want);
    SumsOfTwo(a, b, want);
  }

  /** The mean over one run: of the wanted targets it was scored against, the share that
      was detected. */
  lemma OneRunsMean(r: RunScore, want: set<string>)
    requires Scorable(r)
    ensures var found, all := |WantedIn(r.detected, want)|, |WantedIn(r.detected, want)| + |WantedIn(r.missed, want)|;
      MeanOf([r], want) == if want == {} || all == 0 then 0.0 else found as real / all as real
  {
    WantedIsCardinality(r.detected, want);
    WantedIsCardinality(r.missed, want);
    OneRun(r, want);
  }

  /** A mean weighed by how many runs count in it. */
  function Weighed(runs: seq<RunScore>, want: set<string>): real { MeanOf(runs, want) * ScoredOf(runs, want) as real }

  /** And over more runs: the mean of all is the weighed mean of its parts'. */
  lemma MeansCombine(a: seq<RunScore>, b: seq<RunScore>, want: set<string>)
    ensures ScoredOf(a + b, want) == ScoredOf(a, want) + ScoredOf(b, want)
    ensures Weighed(a + b, want) == Weighed(a, want) + Weighed(b, want)
  {
    SumsOfTwo(a, b, want);
    MeanTimes(a, want);
    MeanTimes(b, want);
    MeanTimes(a + b, want);
  }

  lemma {:induction false} NothingScored(runs: seq<RunScore>, want: set<string>)
    requires ScoredOf(runs, want) == 0
    ensures SumRecallOf(runs, want) == 0.0
    decreases |runs|
  {
    if runs != [] {
      NothingScored(runs[..|runs| - 1], want);
    }
  }

  lemma MeanTimes(runs: seq<RunScore>, want: set<string>)
    ensures Weighed(runs, want) == if want == {} then 0.0 else SumRecallOf(runs, want)
  {
    if ScoredOf(runs, want) == 0 {
      NothingScored(runs, want);
    } else if want != {} {
      DivideBack(SumRecallOf(runs, want), ScoredOf(runs, want) as real);
    }
  }

  lemma DivideBack(sum: real, n: real)
    requires n != 0.0
    ensures sum / n * n == sum
  {
  }

  /** Over one target alone the mean is not the overall one: a run that found "a" and
      missed "b" has recall 1 for the first, 0 for the second and 1/2 for both. */
  lemma SubsetMeansDiffer(r: RunScore)
    requires Scorable(r) && r.detected == ["a"] && r.missed == ["b"]
    ensures MeanOf([r], {"a"}) == 1.0 && MeanOf([r], {"b"}) == 0.0 && MeanOf([r], {"a", "b"}) == 0.5
  {
    assert "a"[0] != "b"[0];
    WantedOfOne("a", {"a"});
    WantedOfOne("b", {"a"});
    WantedOfOne("a", {"b"});
    WantedOfOne("b", {"b"});
    WantedOfOne("a", {"a", "b"});
    WantedOfOne("b", {"a", "b"});
    OneRun(r, {"a"});
    OneRun(r, {"b"});
    OneRun(r, {"a", "b"});
  }

  lemma WantedOfOne(id: string, want: set<string>)
    ensures Wanted([id], want) == if id in want then 1 else 0
  {
    assert [id][..0] == [];
  }

  function CoveredTargets(targets: seq<Defect>, runs: seq<RunScore>): nat {
    if targets == [] then 0
    else CoveredTargets(targets[..|targets| - 1], runs) + (if Hits(targets[|targets| - 1].id, runs) > 0 then 1 else 0)
  }

  function CoveredScores(ts: seq<TargetScore>): nat {
    if ts == [] then 0 else CoveredScores(ts[..|ts| - 1]) + (if ts[|ts| - 1].hits > 0 then 1 else 0)
  }

  method CoverageOf(ts: seq<TargetScore>) returns (share: real)
    ensures share == Share(CoveredScores(ts), |ts|)
  {
    var hit, i := 0, 0;
    while i < |ts|
      invariant 0 <= i <= |ts| && hit == CoveredScores(ts[..i])
    {
      assert ts[..i + 1][..i] == ts[..i];
      if ts[i].hits > 0 {
        hit := hit + 1;
      }
      i := i + 1;
    }
    assert ts[..i] == ts;
    return Share(hit, |ts|);
  }

  lemma {:induction false} CoveredScoresAreTargets(targets: seq<Defect>, runs: seq<RunScore>)
    ensures CoveredScores(TargetScores(targets, runs)) == CoveredTargets(targets, runs)
    decreases |targets|
  {
    if targets != [] {
      var n := |targets| - 1;
      CoveredScoresAreTargets(targets[..n], runs);
      assert TargetScores(targets, runs)[..n] == TargetScores(targets[..n], runs);
    }
  }

  /** CoverageOf what Aggregate says of these targets. */
  function Coverage(targets: seq<Defect>, runs: seq<RunScore>): real {
    var ts := TargetScores(targets, runs);
    Share(CoveredScores(ts), |ts|)
  }

  lemma {:induction false} DetectedMeansHit(id: string, runs: seq<RunScore>, r: RunScore)
    requires r in runs && Scorable(r) && id in r.detected
    ensures Hits(id, runs) > 0
    decreases |runs|
  {
    var n := |runs| - 1;
    assert runs == runs[..n] + [runs[n]];
    if r != runs[n] {
      DetectedMeansHit(id, runs[..n], r);
    }
  }

  /** Hit means detected by some run that counts. */
  lemma {:induction false} HitMeansDetected(id: string, runs: seq<RunScore>)
    ensures Hits(id, runs) > 0 <==> exists r :: r in runs && Scorable(r) && id in r.detected
    decreases |runs|
  {
    if runs != [] {
      var n := |runs| - 1;
      assert runs == runs[..n] + [runs[n]];
      HitMeansDetected(id, runs[..n]);
    }
  }

  ghost predicate EverDetected(runs: seq<RunScore>, id: string) {
    exists r :: r in runs && Scorable(r) && id in r.detected
  }

  ghost function EverCovered(targets: seq<Defect>, runs: seq<RunScore>): set<nat> {
    set i: nat | i < |targets| && EverDetected(runs, targets[i].id)
  }

  lemma LastCovered(targets: seq<Defect>, runs: seq<RunScore>)
    requires targets != []
    ensures var n := |targets| - 1;
      EverCovered(targets, runs) == EverCovered(targets[..n], runs) + (if EverDetected(runs, targets[n].id) then {n} else {})
  {
  }

  /** Coverage counts the targets that some run that counts detected. */
  lemma {:induction false} CoveredAre(targets: seq<Defect>, runs: seq<RunScore>)
    ensures CoveredTargets(targets, runs) == |EverCovered(targets, runs)|
    decreases |targets|
  {
    if targets == [] {
      assert EverCovered(targets, runs) == {};
    } else {
      var n := |targets| - 1;
      CoveredAre(targets[..n], runs);
      HitMeansDetected(targets[n].id, runs);
      LastCovered(targets, runs);
      assert n !in EverCovered(targets[..n], runs);
    }
  }

  lemma {:induction false} FoundAreCovered(targets: seq<Defect>, runs: seq<RunScore>, r: RunScore)
    requires r in runs && Scorable(r)
    ensures FoundIn(targets, r.detected) <= CoveredTargets(targets, runs)
    decreases |targets|
  {
    if targets != [] {
      var n := |targets| - 1;
      FoundAreCovered(targets[..n], runs, r);
      if targets[n].id in r.detected {
        DetectedMeansHit(targets[n].id, runs, r);
      }
    }
  }

  lemma ShareGrows(a: nat, b: nat, n: nat)
    requires a <= b
    ensures Share(a, n) <= Share(b, n)
  {
    if n > 0 {
      assert b as real / n as real - a as real / n as real == (b - a) as real / n as real;
    }
  }

  lemma {:induction false} SumRecallBounded(targets: seq<Defect>, all: seq<RunScore>, runs: seq<RunScore>)
    requires DistinctIds(targets) && forall r :: r in runs ==> r in all && ScoredAgainst(targets, r)
    ensures SumRecall(runs) <= Scored(runs) as real * Coverage(targets, all)
    decreases |runs|
  {
    if runs != [] {
      var n := |runs| - 1;
      assert runs == runs[..n] + [runs[n]];
      SumRecallBounded(targets, all, runs[..n]);
      if Scorable(runs[n]) {
        RecallBounded(targets, all, runs[n]);
        OneMoreTimes(Scored(runs[..n]), Coverage(targets, all));
      }
    }
  }

  lemma RecallBounded(targets: seq<Defect>, all: seq<RunScore>, r: RunScore)
    requires DistinctIds(targets) && r in all && Scorable(r) && ScoredAgainst(targets, r)
    ensures Recall(r) <= Coverage(targets, all)
  {
    CoveredScoresAreTargets(targets, all);
    DetectedAreFound(targets, r);
    FoundAreCovered(targets, all, r);
    ShareGrows(|r.detected|, CoveredTargets(targets, all), |targets|);
  }

  lemma OneMoreTimes(n: nat, x: real)
    ensures (n + 1) as real * x == n as real * x + x
  {
    assert (n + 1) as real == n as real + 1.0;
  }

  /** One audit finds on average no more than what some audit finds. */
  lemma MeanRecallWithinCoverage(targets: seq<Defect>, runs: seq<RunScore>)
    requires DistinctIds(targets) && forall r :: r in runs ==> ScoredAgainst(targets, r)
    ensures Mean(SumRecall(runs), Scored(runs)) <= Coverage(targets, runs)
  {
    SumRecallBounded(targets, runs, runs);
    var n := Scored(runs);
    if n > 0 {
      DividesOut(SumRecall(runs), n as real, Coverage(targets, runs));
    } else {
      CoverageNotNegative(targets, runs);
    }
  }

  lemma CoverageNotNegative(targets: seq<Defect>, runs: seq<RunScore>)
    ensures Coverage(targets, runs) >= 0.0
  {
    CoveredScoresAreTargets(targets, runs);
    ShareGrows(0, CoveredTargets(targets, runs), |targets|);
    assert Share(0, |targets|) == 0.0;
  }

  lemma DividesOut(x: real, n: real, y: real)
    requires n > 0.0 && x <= n * y
    ensures x / n <= y
  {
    var q := x / n;
    assert q * n == x;
    Scales(y, q, n, n * y, x);
  }
}
