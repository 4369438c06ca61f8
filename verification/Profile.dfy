/** The predicates and placeholder lists the profiler shares with the checks
    (internal/profile/column.go). */
module Profile {
  import opened Wrappers
  import opened SqlLogic

  const TEXT_PLACEHOLDERS: seq<string> := [
    "n/a", "n.a.", "na", "null", "nil", "none", "-", "--", "?", "??",
    "unknown", "unspecified", "tbd", "tbc", "not applicable", "not available",
    "#n/a", "missing", "."]

  const NUMERIC_PLACEHOLDERS: seq<string> := [
    "-1", "-99", "-999", "-9999", "999", "9999", "99999", "999999", "9999999",
    "0000-00-00"]

  function Literals(values: seq<string>): (r: seq<Scalar>)
    ensures |r| == |values| && forall i :: 0 <= i < |values| ==> r[i] == Lit(values[i])
  {
    seq(|values|, i requires 0 <= i < |values| => Lit(values[i]))
  }

  const FOLDED: Scalar := Lower(Trim(Col))

  /** SQLNonBlank: (col IS NOT NULL AND trim(col) <> '') */
  function SqlNonBlank(): (p: Pred)
    ensures forall db: Database :: Names(db, p)
  {
    var present, filled := IsNotNull(Col), Differs(Trim(Col), Lit(""));
    assert forall db: Database :: Names(db, present) && Names(db, filled);
    Both(present, filled)
  }

  /** lower(trim(col)) IN (...) */
  function SqlFoldedIn(values: seq<string>): (p: Pred)
    ensures forall db: Database :: Names(db, p)
  {
    In(FOLDED, Literals(values))
  }

  /** SQLIsSentinel */
  function SqlIsSentinel(): (p: Pred)
    ensures forall db: Database :: Names(db, p)
  {
    SqlFoldedIn(TEXT_PLACEHOLDERS)
  }

  // ---- what they mean ------------------------------------------------------------

  /** A value that carries content: neither NULL nor blank. */
  predicate HasContent(e: Engine, v: Cell) { v.Some? && e.trim(v.value) != "" }

  function Fold(e: Engine, v: string): string { e.lower(e.trim(v)) }

  predicate FoldsInto(e: Engine, v: Cell, values: seq<string>) { v.Some? && Fold(e, v.value) in values }

  lemma FoldedCell(e: Engine, v: Cell)
    ensures EvalScalar(e, FOLDED, v) == if v.None? then None else Some(Fold(e, v.value))
  {
    assert EvalScalar(e, Trim(Col), v) == if v.None? then None else Some(e.trim(v.value));
  }

  lemma NonBlankMeansContent(e: Engine, db: Database, row: Row)
    ensures Eval(e, db, SqlNonBlank(), row) == Known(HasContent(e, row.cell))
  {
    var present, filled := IsNotNull(Col), Differs(Trim(Col), Lit(""));
    assert SqlNonBlank() == Both(present, filled);
    assert Eval(e, db, present, row) == Known(row.cell.Some?);
    assert EvalScalar(e, Trim(Col), row.cell) == if row.cell.None? then None else Some(e.trim(row.cell.value));
  }

  lemma LiteralCandidates(e: Engine, values: seq<string>, v: Cell)
    ensures var cs := EvalScalars(e, Literals(values), v);
      |cs| == |values| && None !in cs && (forall x :: Some(x) in cs <==> x in values)
  {
    var cs := EvalScalars(e, Literals(values), v);
    forall x ensures Some(x) in cs <==> x in values {
      if x in values {
        var i :| 0 <= i < |values| && values[i] == x;
        assert cs[i] == Some(x);
      }
    }
  }

  lemma FoldedInMeans(e: Engine, db: Database, values: seq<string>, row: Row)
    requires values != []
    ensures Eval(e, db, SqlFoldedIn(values), row) ==
      (if row.cell.None? then Unknown else Known(Fold(e, row.cell.value) in values))
  {
    LiteralCandidates(e, values, row.cell);
    FoldedCell(e, row.cell);
    InMeans(EvalScalar(e, FOLDED, row.cell), EvalScalars(e, Literals(values), row.cell));
  }
}
