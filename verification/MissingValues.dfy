/**
  The missing-values check (checkMissingValues, standsOut and wrongSideOfZero in
  internal/checks/column.go) over what the profiler measured (readBasics and
  readSentinels in internal/profile/column.go).  The number the check claims is
  proved to be the number its own evidence query returns.
*/
module MissingValues {
  import opened Wrappers
  import opened Reals
  import opened SqlLogic
  import opened Profile
  import Findings

  datatype ValueCount = ValueCount(value: string, count: nat)

  datatype NumericStats = NumericStats(count: nat, minReal: real)

  datatype Column = Column(
    total: nat, nulls: nat, blanks: nat,
    sentinels: seq<ValueCount>, topValues: seq<ValueCount>, numeric: Option<NumericStats>)

  // ---- what the profiler measures ----------------------------------------------------------

  /** count(*) - count(col) */
  function Nulls(cells: seq<Cell>): nat {
    if cells == [] then 0
    else Nulls(cells[..|cells| - 1]) + (if cells[|cells| - 1].None? then 1 else 0)
  }

  /** sum(CASE WHEN col IS NOT NULL AND trim(col) = '' THEN 1 ELSE 0 END) */
  function Blanks(e: Engine, cells: seq<Cell>): nat {
    if cells == [] then 0
    else
      var c := cells[|cells| - 1];
      Blanks(e, cells[..|cells| - 1]) + (if c.Some? && e.trim(c.value) == "" then 1 else 0)
  }

  /** The size of the group of v in GROUP BY lower(trim(col)). */
  function GroupSize(e: Engine, cells: seq<Cell>, v: string): nat {
    if cells == [] then 0
    else
      var c := cells[|cells| - 1];
      GroupSize(e, cells[..|cells| - 1], v) + (if c.Some? && Fold(e, c.value) == v then 1 else 0)
  }

  ghost predicate DistinctValues(vs: seq<ValueCount>) {
    forall i, j :: 0 <= i < j < |vs| ==> vs[i].value != vs[j].value
  }

  /** The column as profiled: readBasics' counts, and readSentinels' groups of the
      placeholder values that occur. */
  ghost predicate Profiled(e: Engine, cells: seq<Cell>, c: Column) {
    && c.total == |cells| && c.nulls == Nulls(cells) && c.blanks == Blanks(e, cells)
    && DistinctValues(c.sentinels)
    && (forall s :: s in c.sentinels ==>
         s.value in TEXT_PLACEHOLDERS + NUMERIC_PLACEHOLDERS && s.count == GroupSize(e, cells, s.value) && s.count > 0)
  }

  /** A number that is no magic number: what readNumericDetail calls measured. */
  predicate Measured(e: Engine, c: Cell) {
    IsNumber(e, c) && !FoldsInto(e, c, NUMERIC_PLACEHOLDERS)
  }

  predicate IsNumber(e: Engine, c: Cell) { HasContent(e, c) && e.toDouble(c.value).Some? }

  /** readNumericDetail's count of numbers, and the least of the measured ones, or 0. */
  ghost predicate NumericProfiled(e: Engine, cells: seq<Cell>, n: NumericStats) {
    && (n.count == 0 <==> forall c :: c in cells ==> !IsNumber(e, c))
    && (if forall c :: c in cells ==> !Measured(e, c) then n.minReal == 0.0
        else (exists c :: c in cells && Measured(e, c) && e.toDouble(c.value).value == n.minReal) &&
             (forall c :: c in cells && Measured(e, c) ==> n.minReal <= e.toDouble(c.value).value))
  }

  // ---- which placeholders count -------------------------------------------------------------

  predicate IsNumeric(v: string) { v in NUMERIC_PLACEHOLDERS }

  predicate TopBeats(e: Engine, top: ValueCount, s: ValueCount) {
    !IsNumeric(e.goLower(e.goTrim(top.value))) && top.count >= s.count
  }

  /** standsOut: more repeated than any real value. */
  method StandsOut(e: Engine, c: Column, s: ValueCount) returns (ok: bool)
    ensures ok == Outstanding(e, c, s)
  {
    var i := 0;
    while i < |c.topValues|
      invariant 0 <= i <= |c.topValues|
      invariant forall k :: 0 <= k < i ==> !TopBeats(e, c.topValues[k], s)
    {
      var v := c.topValues[i];
      i := i + 1;
      if IsNumeric(e.goLower(e.goTrim(v.value))) {
        continue;
      }
      if v.count >= s.count {
        assert TopBeats(e, c.topValues[i - 1], s);
        return false;
      }
    }
    return true;
  }

  predicate Outstanding(e: Engine, c: Column, s: ValueCount) {
    forall k :: 0 <= k < |c.topValues| ==> !TopBeats(e, c.topValues[k], s)
  }

  /** wrongSideOfZero: a negative number where nothing real is negative. */
  predicate WrongSideOfZero(parse: string -> Option<real>, c: Column, s: ValueCount) {
    c.numeric.Some? && c.numeric.value.count != 0 && c.numeric.value.minReal >= 0.0 &&
    parse(s.value).Some? && parse(s.value).value < 0.0
  }

  /** In terms of the column: it holds numbers, none that is no magic number itself is
      negative, and the placeholder is. */
  lemma WrongSideOfZeroMeans(e: Engine, parse: string -> Option<real>, cells: seq<Cell>, c: Column, s: ValueCount)
    requires c.numeric.Some? && NumericProfiled(e, cells, c.numeric.value)
    ensures WrongSideOfZero(parse, c, s) <==>
      && (exists v :: v in cells && IsNumber(e, v))
      && (forall v :: v in cells && Measured(e, v) ==> e.toDouble(v.value).value >= 0.0)
      && parse(s.value).Some? && parse(s.value).value < 0.0
  {
  }

  /** When a placeholder counts as missing: text always; a number if no value that is no
      magic number itself is as frequent, or it is on the wrong side of zero. */
  lemma CountsMeans(e: Engine, parse: string -> Option<real>, cells: seq<Cell>, c: Column, s: ValueCount)
    requires c.numeric.Some? ==> NumericProfiled(e, cells, c.numeric.value)
    ensures Counts(e, parse, c, s) <==>
      || s.value !in NUMERIC_PLACEHOLDERS
      || (forall top :: top in c.topValues && e.goLower(e.goTrim(top.value)) !in NUMERIC_PLACEHOLDERS ==> top.count < s.count)
      || (c.numeric.Some? && (exists v :: v in cells && IsNumber(e, v)) &&
          (forall v :: v in cells && Measured(e, v) ==> e.toDouble(v.value).value >= 0.0) &&
          parse(s.value).Some? && parse(s.value).value < 0.0)
  {
    if c.numeric.Some? {
      WrongSideOfZeroMeans(e, parse, cells, c, s);
    }
    OutstandingMeans(e, c, s);
  }

  lemma OutstandingMeans(e: Engine, c: Column, s: ValueCount)
    ensures Outstanding(e, c, s) <==>
      forall top :: top in c.topValues && e.goLower(e.goTrim(top.value)) !in NUMERIC_PLACEHOLDERS ==> top.count < s.count
  {
    if Outstanding(e, c, s) {
      forall top | top in c.topValues && e.goLower(e.goTrim(top.value)) !in NUMERIC_PLACEHOLDERS ensures top.count < s.count {
        var k :| 0 <= k < |c.topValues| && c.topValues[k] == top;
        assert !TopBeats(e, c.topValues[k], s);
      }
    } else {
      var k :| 0 <= k < |c.topValues| && TopBeats(e, c.topValues[k], s);
      assert c.topValues[k] in c.topValues;
    }
  }

  predicate Counts(e: Engine, parse: string -> Option<real>, c: Column, s: ValueCount) {
    !IsNumeric(s.value) || Outstanding(e, c, s) || WrongSideOfZero(parse, c, s)
  }

  function Counted(e: Engine, parse: string -> Option<real>, c: Column, ss: seq<ValueCount>): seq<string> {
    if ss == [] then []
    else
      var n := |ss| - 1;
      Counted(e, parse, c, ss[..n]) + (if Counts(e, parse, c, ss[n]) then [ss[n].value] else [])
  }

  function CountedTotal(e: Engine, parse: string -> Option<real>, c: Column, ss: seq<ValueCount>): nat {
    if ss == [] then 0
    else
      var n := |ss| - 1;
      CountedTotal(e, parse, c, ss[..n]) + (if Counts(e, parse, c, ss[n]) then ss[n].count else 0)
  }

  // ---- the check --------------------------------------------------------------------------------

  datatype Severity = Info | Warning

  datatype Claim = Claim(severity: Severity, count: nat, total: nat, placeholders: seq<string>, evidence: Pred)

  /** The evidence query's condition: NOT nonblank OR lower(trim(col)) IN (...). */
  function Evidence(counted: seq<string>): (p: Pred)
    ensures forall db: Database :: Names(db, p)
  {
    var absent := Neg(SqlNonBlank());
    assert forall db: Database :: Names(db, absent);
    if counted == [] then absent
    else
      var placeholder := SqlFoldedIn(counted);
      Either(absent, placeholder)
  }

  function Missing(e: Engine, parse: string -> Option<real>, c: Column): nat {
    c.nulls + c.blanks + CountedTotal(e, parse, c, c.sentinels)
  }

  /** checkMissingValues */
  method CheckMissingValues(e: Engine, parse: string -> Option<real>, c: Column) returns (claim: Option<Claim>)
    ensures claim.Some? ==>
      var k := claim.value; var m := Missing(e, parse, c);
      && k.count == m && k.total == c.total && 0 < m && m != c.total
      && k.placeholders == Counted(e, parse, c, c.sentinels) && k.evidence == Evidence(k.placeholders)
      && (k.severity == Warning <==> 2 * m >= c.total)
    ensures claim.None? <==>
      var m := Missing(e, parse, c);
      c.total == 0 || m == 0 || m == c.total || (20 * m < c.total && CountedTotal(e, parse, c, c.sentinels) == 0)
  {
    var counted: seq<string> := [];
    var textTotal, numericTotal := 0, 0;
    var i := 0;
    while i < |c.sentinels|
      invariant 0 <= i <= |c.sentinels|
      invariant counted == Counted(e, parse, c, c.sentinels[..i])
      invariant textTotal + numericTotal == CountedTotal(e, parse, c, c.sentinels[..i])
    {
      var sv := c.sentinels[i];
      CountedStep(e, parse, c, i);
      var stands := StandsOut(e, c, sv);
      if !IsNumeric(sv.value) {
        counted := counted + [sv.value];
        textTotal := textTotal + sv.count;
      } else if stands || WrongSideOfZero(parse, c, sv) {
        counted := counted + [sv.value];
        numericTotal := numericTotal + sv.count;
      }
      i := i + 1;
    }
    assert c.sentinels[..i] == c.sentinels;
    var placeholders := textTotal + numericTotal;
    var missing := c.nulls + c.blanks + placeholders;
    if c.total == 0 || missing == 0 || missing == c.total {
      return None;
    }
    var share := missing as real / c.total as real;
    ShareCompares(missing, c.total, share);
    var severity := Info;
    if share >= 0.5 {
      severity := Warning;
    } else if share < 0.05 && placeholders == 0 {
      return None;
    }
    return Some(Claim(severity, missing, c.total, counted, Evidence(counted)));
  }

  lemma CountedStep(e: Engine, parse: string -> Option<real>, c: Column, i: nat)
    requires i < |c.sentinels|
    ensures var ss, s := c.sentinels, c.sentinels[i]; var counts := Counts(e, parse, c, s);
      && Counted(e, parse, c, ss[..i + 1]) == Counted(e, parse, c, ss[..i]) + (if counts then [s.value] else [])
      && CountedTotal(e, parse, c, ss[..i + 1]) == CountedTotal(e, parse, c, ss[..i]) + (if counts then s.count else 0)
  {
    assert c.sentinels[..i + 1][..i] == c.sentinels[..i];
  }

  lemma ShareCompares(m: nat, n: nat, share: real)
    requires n > 0 && share == m as real / n as real
    ensures share >= 0.5 <==> 2 * m >= n
    ensures share < 0.05 <==> 20 * m < n
  {
    var x, y := m as real, n as real;
    assert share * y == x;
    RealShare(x, y, share);
    assert (2 * m) as real == 2.0 * x && (20 * m) as real == 20.0 * x;
  }

  lemma RealShare(x: real, y: real, share: real)
    requires y > 0.0 && share * y == x
    ensures share >= 0.5 <==> 2.0 * x >= y
    ensures share < 0.05 <==> 20.0 * x < y
  {
    Scales(share, 0.5, y, x, 0.5 * y);
    Scales(share, 0.05, y, x, 0.05 * y);
    Thresholds(x, y);
  }

  lemma Thresholds(x: real, y: real)
    ensures x < 0.5 * y <==> 2.0 * x < y
    ensures x < 0.05 * y <==> 20.0 * x < y
  {
  }

  // ---- the claim is what the evidence counts ------------------------------------------------------

  function SumOfGroups(e: Engine, cells: seq<Cell>, values: seq<string>): nat {
    if values == [] then 0
    else SumOfGroups(e, cells, values[..|values| - 1]) + GroupSize(e, cells, values[|values| - 1])
  }

  ghost predicate Distinct(values: seq<string>) {
    forall i, j :: 0 <= i < j < |values| ==> values[i] != values[j]
  }

  lemma {:induction false} CountedMeans(e: Engine, parse: string -> Option<real>, c: Column, ss: seq<ValueCount>, v: string)
    requires DistinctValues(ss)
    ensures Distinct(Counted(e, parse, c, ss))
    ensures v in Counted(e, parse, c, ss) <==> exists s :: s in ss && s.value == v && Counts(e, parse, c, s)
    decreases |ss|
  {
    if ss != [] {
      var n := |ss| - 1;
      CountedMeans(e, parse, c, ss[..n], v);
      CountedMeans(e, parse, c, ss[..n], ss[n].value);
      assert ss == ss[..n] + [ss[n]];
      forall s | s in ss[..n] ensures s.value != ss[n].value {
        var i :| 0 <= i < n && ss[i] == s;
      }
    }
  }

  lemma {:induction false} CountedTotalIsSum(e: Engine, parse: string -> Option<real>, c: Column, ss: seq<ValueCount>, cells: seq<Cell>)
    requires forall s :: s in ss ==> s.count == GroupSize(e, cells, s.value)
    ensures CountedTotal(e, parse, c, ss) == SumOfGroups(e, cells, Counted(e, parse, c, ss))
    decreases |ss|
  {
    if ss != [] {
      var n := |ss| - 1;
      CountedTotalIsSum(e, parse, c, ss[..n], cells);
      assert ss[n] in ss;
      var before := Counted(e, parse, c, ss[..n]);
      SumLast(e, cells, before, ss[n].value);
      assert before + [] == before;
    }
  }

  lemma SumLast(e: Engine, cells: seq<Cell>, values: seq<string>, v: string)
    ensures SumOfGroups(e, cells, values + [v]) == SumOfGroups(e, cells, values) + GroupSize(e, cells, v)
  {
    assert (values + [v])[..|values|] == values;
  }

  /** One more row adds one to the sum exactly when its folded value is listed. */
  lemma {:induction false} SumStep(e: Engine, init: seq<Cell>, c: Cell, values: seq<string>)
    requires Distinct(values)
    ensures SumOfGroups(e, init + [c], values) ==
      SumOfGroups(e, init, values) + (if FoldsInto(e, c, values) then 1 else 0)
    decreases |values|
  {
    if values != [] {
      var n := |values| - 1;
      SumStep(e, init, c, values[..n]);
      assert (init + [c])[..|init|] == init;
      assert values == values[..n] + [values[n]];
      assert values[n] !in values[..n];
    }
  }

  /** The evidence is TRUE of a row exactly when its cell is null, blank or listed. */
  lemma EvidenceMeans(e: Engine, db: Database, counted: seq<string>, row: Row)
    ensures Eval(e, db, Evidence(counted), row) == True <==>
      !HasContent(e, row.cell) || FoldsInto(e, row.cell, counted)
  {
    NonBlankMeansContent(e, db, row);
    if counted != [] {
      FoldedInMeans(e, db, counted, row);
    }
  }

  /** Nulls, blanks and the listed placeholder groups are disjoint and together are
      the rows the evidence query counts. */
  lemma {:induction false} EvidenceCountsMissing(e: Engine, db: Database, table: string, cells: seq<Cell>, counted: seq<string>)
    requires Distinct(counted) && e.lower("") !in counted
    ensures Count(e, db, Evidence(counted), table, cells) ==
      Nulls(cells) + Blanks(e, cells) + SumOfGroups(e, cells, counted)
    decreases |cells|
  {
    if cells == [] {
      NoGroups(e, counted);
    } else {
      var n := |cells| - 1;
      var init, c := cells[..n], cells[n];
      EvidenceCountsMissing(e, db, table, init, counted);
      OneMoreMissing(e, init, c, counted);
      assert cells == init + [c];
      EvidenceStep(e, db, table, cells, counted);
    }
  }

  lemma EvidenceStep(e: Engine, db: Database, table: string, cells: seq<Cell>, counted: seq<string>)
    requires cells != []
    ensures var n := |cells| - 1;
      Count(e, db, Evidence(counted), table, cells) ==
        Count(e, db, Evidence(counted), table, cells[..n]) +
        (if !HasContent(e, cells[n]) || FoldsInto(e, cells[n], counted) then 1 else 0)
  {
    var n := |cells| - 1;
    EvidenceMeans(e, db, counted, Row(table, n, cells[n]));
    CountStep(e, db, Evidence(counted), table, cells);
  }

  /** A row is missing in one way only. */
  lemma OneMoreMissing(e: Engine, init: seq<Cell>, c: Cell, counted: seq<string>)
    requires Distinct(counted) && e.lower("") !in counted
    ensures var cells := init + [c];
      Nulls(cells) + Blanks(e, cells) + SumOfGroups(e, cells, counted) ==
        Nulls(init) + Blanks(e, init) + SumOfGroups(e, init, counted) +
        (if !HasContent(e, c) || FoldsInto(e, c, counted) then 1 else 0)
  {
    SumStep(e, init, c, counted);
    assert (init + [c])[..|init|] == init;
    if c.Some? && e.trim(c.value) == "" {
      assert !FoldsInto(e, c, counted);
    }
  }

  lemma CountStep(e: Engine, db: Database, p: Pred, table: string, cells: seq<Cell>)
    requires Names(db, p) && cells != []
    ensures var n := |cells| - 1;
      Count(e, db, p, table, cells) ==
        Count(e, db, p, table, cells[..n]) + (if Eval(e, db, p, Row(table, n, cells[n])) == True then 1 else 0)
  {
    var n := |cells| - 1;
    assert Verdicts(e, db, p, table, cells)[..n] == Verdicts(e, db, p, table, cells[..n]);
  }

  lemma {:induction false} NoGroups(e: Engine, values: seq<string>)
    ensures SumOfGroups(e, [], values) == 0
    decreases |values|
  {
    if values != [] {
      NoGroups(e, values[..|values| - 1]);
    }
  }

  lemma BlankIsNotCounted(e: Engine, parse: string -> Option<real>, c: Column, cells: seq<Cell>)
    requires Profiled(e, cells, c)
    ensures Distinct(Counted(e, parse, c, c.sentinels)) && "" !in Counted(e, parse, c, c.sentinels)
  {
    CountedMeans(e, parse, c, c.sentinels, "");
    assert "" !in TEXT_PLACEHOLDERS + NUMERIC_PLACEHOLDERS;
  }

  /** The check's number and its evidence agree on every column: "" is not a
      placeholder, and the engine lowers "" to itself. */
  lemma ClaimIsEvidenceCount(e: Engine, db: Database, parse: string -> Option<real>, table: string, cells: seq<Cell>, c: Column)
    requires Profiled(e, cells, c) && e.lower("") == ""
    ensures Missing(e, parse, c) ==
      Count(e, db, Evidence(Counted(e, parse, c, c.sentinels)), table, cells)
  {
    var counted := Counted(e, parse, c, c.sentinels);
    BlankIsNotCounted(e, parse, c, cells);
    CountedTotalIsSum(e, parse, c, c.sentinels, cells);
    EvidenceCountsMissing(e, db, table, cells, counted);
  }

  /** So when Verify asks the engine again it keeps the finding as it is. */
  lemma VerifyKeepsClaim(e: Engine, db: Database, parse: string -> Option<real>, table: string, cells: seq<Cell>, c: Column,
                         f: Findings.Finding, answers: Findings.Answers)
    requires Profiled(e, cells, c) && e.lower("") == ""
    requires f.query != "" && f.count == Missing(e, parse, c)
    requires answers(f.query) == Some(Count(e, db, Evidence(Counted(e, parse, c, c.sentinels)), table, cells))
    ensures Findings.Stands(answers, f) && Findings.Checked(answers, f) == f.(verified := true)
  {
    ClaimIsEvidenceCount(e, db, parse, table, cells, c);
  }
}
