/**
  Applying the rules in force to a dataset (Evaluate, evaluateOne and sqlColumn
  in internal/rules/evaluate.go): which columns a rule reaches, how many rows
  break it there, and the report of a rule that reached nothing.
*/
module Evaluate {
  import opened Wrappers
  import opened SqlLogic
  import opened Profile
  import opened Rules
  import Glob
  import Strings
  import Positions

  datatype Column = Column(name: string, original: string)

  datatype Table = Table(name: string, display: string, rowCount: nat, columns: seq<Column>)

  /** Where a rule is applied: a column of a table, or a table as a whole. */
  datatype Site = Site(table: Table, column: Option<Column>)

  datatype Outcome =
    | Broken(rule: string, table: string, column: Option<string>, rows: nat)
    | Invalid(rule: string, table: string, column: Option<string>)
    | NeverApplied(rule: string)

  predicate Globs(e: Engine, pattern: string, name: string) {
    Glob.Matches(e.goLower(pattern), e.goLower(name))
  }

  predicate ReachesTable(e: Engine, r: Rule, t: Table) {
    Globs(e, r.table, t.display) || Globs(e, r.table, t.name)
  }

  predicate ReachesColumn(e: Engine, r: Rule, c: Column) {
    Globs(e, r.column, c.name) || Globs(e, r.column, c.original)
  }

  /** A table is reached by its name here or by the name it came with, and a column
      likewise: without stars, by exactly those, whatever their case. */
  lemma ReachedByEitherName(e: Engine, r: Rule, t: Table, c: Column)
    ensures '*' !in e.goLower(r.table) ==>
      (ReachesTable(e, r, t) <==> e.goLower(r.table) == e.goLower(t.display) || e.goLower(r.table) == e.goLower(t.name))
    ensures '*' !in e.goLower(r.column) ==>
      (ReachesColumn(e, r, c) <==> e.goLower(r.column) == e.goLower(c.name) || e.goLower(r.column) == e.goLower(c.original))
  {
    if '*' !in e.goLower(r.table) {
      Glob.NoStarMeansEqual(e.goLower(r.table), e.goLower(t.display));
      Glob.NoStarMeansEqual(e.goLower(r.table), e.goLower(t.name));
    }
    if '*' !in e.goLower(r.column) {
      Glob.NoStarMeansEqual(e.goLower(r.column), e.goLower(c.name));
      Glob.NoStarMeansEqual(e.goLower(r.column), e.goLower(c.original));
    }
  }

  /** The dataset's tables are loaded: one list of cells per column, all as long
      as the table. */
  ghost predicate Loaded(db: Database, t: Table) {
    t.name in db &&
    forall c :: c in t.columns ==> c.name in db[t.name] && |db[t.name][c.name]| == t.rowCount
  }

  function NameOf(c: Option<Column>): Option<string> {
    match c case None => None case Some(col) => Some(col.name)
  }

  function CellsAt(db: Database, s: Site): seq<Cell> {
    if s.column.Some? && s.table.name in db && s.column.value.name in db[s.table.name]
    then db[s.table.name][s.column.value.name]
    else seq(s.table.rowCount, _ => None)
  }

  /** evaluateOne */
  function EvaluateOne(e: Engine, db: Database, r: Rule, s: Site): Result<seq<Outcome>, string> {
    var target := Target(s.table.name, if s.column.Some? then s.column.value.name else "");
    match ViolationPredicate(e, r, target)
    case Err(why) => Err(why)
    case Ok(p) =>
      var g := Bind(db, s.table.name, Guarded(r, s.column.Some?, p));
      if !Names(db, g) then
        Ok([Invalid(r.id, s.table.name, NameOf(s.column))])
      else
        var n := Count(e, db, g, s.table.name, CellsAt(db, s));
        if n == 0 then Ok([]) else Ok([Broken(r.id, s.table.name, NameOf(s.column), n)])
  }

  /** The rows of a column that break a rule and are not exempt from it. */
  ghost function BreakingRows(e: Engine, db: Database, r: Rule, cells: seq<Cell>): set<nat> {
    set i: nat | i < |cells| && Breaks(e, r, cells, i, Referenced(db, r)) && !Exempt(e, r, cells[i])
  }

  /** What a references rule points to is not there: the referenced table, or the
      column both there and in the rule's own table. */
  predicate ReferenceMissing(db: Database, r: Rule, own: string) {
    r.expectation == References &&
    match Cut(r.references)
    case None => true
    case Some(ref) =>
      ref.table !in db || (ref.column !in db[ref.table] && !(own in db && ref.column in db[own]))
  }

  /** The referenced table lacks the column and the rule's own table has one of that
      name: in the subquery it is the outer row's. */
  predicate Captured(db: Database, r: Rule, own: string) {
    r.expectation == References &&
    match Cut(r.references)
    case None => false
    case Some(ref) => ref.table in db && ref.column !in db[ref.table] && own in db && ref.column in db[own]
  }

  /** What a captured reference selects: a row with content, not exempt, whenever the
      referenced table is empty, and otherwise if it differs from a value in the row's
      own column of that name. */
  predicate CapturedBreaks(e: Engine, db: Database, r: Rule, ref: Reference, own: string, v: Cell, at: nat) {
    var other := OuterCell(db, own, ref.column, at);
    HasContent(e, v) && !Exempt(e, r, v) &&
    (HasRows(db, ref.table) ==> other.Some? && Comparable(e, r, v.value) != Comparable(e, r, other.value))
  }

  ghost function CapturedRows(e: Engine, db: Database, r: Rule, own: string, cells: seq<Cell>): set<nat>
    requires Captured(db, r, own)
  {
    set i: nat | i < |cells| && CapturedBreaks(e, db, r, Cut(r.references).value, own, cells[i], i)
  }

  function Reported(r: Rule, t: Table, c: Column, rows: nat): Result<seq<Outcome>, string> {
    Ok(if rows == 0 then [] else [Broken(r.id, t.name, Some(c.name), rows)])
  }

  /** What applying a column rule reports: that it is invalid, where neither the table
      it refers to nor its own has the column; a count of rows compared with themselves,
      where only its own has; nothing, where the column it refers to holds a NULL; and
      otherwise a count of exactly the rows that break its declaration.  No finding is
      reported exactly when the count is none. */
  lemma EvaluateOneCountsBreakingRows(e: Engine, db: Database, r: Rule, t: Table, c: Column)
    requires WellFormed(r) && r.valuesFrom == "" && r.expectation != Sql
    requires Loaded(db, t) && c in t.columns
    requires r.ignoreCase ==> FoldsAgree(e)
    ensures var cells := db[t.name][c.name];
      EvaluateOne(e, db, r, Site(t, Some(c))) ==
        if ReferenceMissing(db, r, t.name) then Ok([Invalid(r.id, t.name, Some(c.name))])
        else if Captured(db, r, t.name) then Reported(r, t, c, |CapturedRows(e, db, r, t.name, cells)|)
        else if r.expectation == References && None in Referenced(db, r) then Reported(r, t, c, 0)
        else Reported(r, t, c, |BreakingRows(e, db, r, cells)|)
  {
    var target := Target(t.name, c.name);
    AcceptedRulesCompile(e, r, target);
    var p := ViolationPredicate(e, r, target).value;
    BindGuarded(db, t.name, r, p);
    if ReferenceMissing(db, r, t.name) || Captured(db, r, t.name) {
      ReferenceBinds(e, db, r, target);
      if Captured(db, r, t.name) {
        CapturedCount(e, db, r, t, c);
      } else {
        NothingBinds(db, r, t.name, p);
      }
    } else {
      NamesItsColumns(e, db, r, target);
      NamesBindThemselves(db, t.name, p);
      SelectedRows(e, db, r, t, c);
    }
  }

  /** A reference to what is not there is reported, as the comment promises, if and
      only if the rule's own table has no column of that name either. */
  lemma MissingReferenceIsReportedIff(e: Engine, db: Database, r: Rule, t: Table, c: Column)
    requires WellFormed(r) && r.valuesFrom == "" && r.expectation == References
    requires Loaded(db, t) && c in t.columns && (r.ignoreCase ==> FoldsAgree(e))
    requires var ref := Cut(r.references); ref.Some? ==> ref.value.table !in db || ref.value.column !in db[ref.value.table]
    ensures EvaluateOne(e, db, r, Site(t, Some(c))) == Ok([Invalid(r.id, t.name, Some(c.name))]) <==> !Captured(db, r, t.name)
  {
    EvaluateOneCountsBreakingRows(e, db, r, t, c);
  }

  ghost function RowsWithContent(e: Engine, r: Rule, cells: seq<Cell>): set<nat> {
    set i: nat | i < |cells| && HasContent(e, cells[i]) && !Exempt(e, r, cells[i])
  }

  /** Captured by the rule's own column, it passes whatever that holds if the referenced
      table has rows, and flags every row with content if it has none. */
  lemma OwnColumnCaptured(e: Engine, db: Database, r: Rule, t: Table, c: Column)
    requires WellFormed(r) && r.valuesFrom == "" && Captured(db, r, t.name)
    requires Loaded(db, t) && c in t.columns && (r.ignoreCase ==> FoldsAgree(e))
    requires Cut(r.references).value.column == c.name
    ensures EvaluateOne(e, db, r, Site(t, Some(c))) ==
      Reported(r, t, c,
               if HasRows(db, Cut(r.references).value.table) then 0 else |RowsWithContent(e, r, db[t.name][c.name])|)
  {
    EvaluateOneCountsBreakingRows(e, db, r, t, c);
    var cells := db[t.name][c.name];
    assert CapturedRows(e, db, r, t.name, cells) ==
      if HasRows(db, Cut(r.references).value.table) then {} else RowsWithContent(e, r, cells);
  }

  /** Two tables of one row: `own` with a column the other, `parent`, lacks. */
  function TwoTables(own: string, parent: string, column: string, key: string, v: Cell, w: Cell): Database {
    map[own := map[column := [v]], parent := map[key := [w]]]
  }

  function Refers(own: string, parent: string, column: string): Rule {
    Rule("r", own, column, References, [], "", "", None, None, parent + "." + column, "", false, false)
  }

  /** A rule that orders.customer_id refers to customers.customer_id, where customers has
      only an id: whatever the two rows hold, nothing is reported. */
  lemma DanglingReferencePasses(e: Engine, v: Cell, w: Cell)
    ensures var t := Table("orders", "orders", 1, [Column("customer_id", "customer_id")]);
      EvaluateOne(e, TwoTables("orders", "customers", "customer_id", "id", v, w),
                  Refers("orders", "customers", "customer_id"), Site(t, Some(t.columns[0]))) == Ok([])
  {
    var own, parent, column, key := "orders", "customers", "customer_id", "id";
    assert |own| != |parent| && |column| != |key| && |own| > 0 && |column| > 0 && '.' !in parent;
    DanglingPasses(e, own, parent, column, key, v, w);
  }

  lemma CutInTwo(parent: string, column: string)
    requires '.' !in parent
    ensures var s := parent + "." + column; '.' in s && Cut(s) == Some(Reference(parent, column))
  {
    var s, i := parent + "." + column, |parent|;
    assert s[i] == '.' && Strings.At(s, i, ".");
    forall k | 0 <= k < i ensures !Strings.At(s, k, ".") {
      assert s[k..k + 1][0] == parent[k];
    }
    Strings.FirstIsIndexOf(s, ".", i);
    assert s[..i] == parent && s[i + 1..] == column;
  }

  lemma DanglingPasses(e: Engine, own: string, parent: string, column: string, key: string, v: Cell, w: Cell)
    requires own != parent && column != key && own != "" && column != "" && '.' !in parent
    ensures var t := Table(own, own, 1, [Column(column, column)]);
      EvaluateOne(e, TwoTables(own, parent, column, key, v, w),
                  Refers(own, parent, column), Site(t, Some(t.columns[0]))) == Ok([])
  {
    var r, db := Refers(own, parent, column), TwoTables(own, parent, column, key, v, w);
    var t := Table(own, own, 1, [Column(column, column)]);
    CutInTwo(parent, column);
    assert db[parent][key] != [];
    OwnColumnCaptured(e, db, r, t, t.columns[0]);
  }

  lemma BindGuarded(db: Database, own: string, r: Rule, p: Pred)
    ensures Bind(db, own, Guarded(r, true, p)) == Guarded(r, true, Bind(db, own, p))
  {
    if r.allowMissing {
      var present := Both(SqlNonBlank(), Neg(SqlIsSentinel()));
      assert Names(db, Neg(SqlIsSentinel()));
      NamesBindThemselves(db, own, present);
    }
  }

  /** The subquery of a references rule whose column the referenced table lacks. */
  lemma ReferenceBinds(e: Engine, db: Database, r: Rule, c: Target)
    requires r.expectation == References && ViolationPredicate(e, r, c).Ok?
    requires ReferenceMissing(db, r, c.table) || Captured(db, r, c.table)
    ensures var ref := Cut(r.references).value; var left := ComparableLeft(r);
      Bind(db, c.table, ViolationPredicate(e, r, c).value) ==
        Both(SqlNonBlank(), Neg(
          if Captured(db, r, c.table) then InOuter(left, left, ref.table, c.table, ref.column)
          else InSelect(left, left, ref.table, ref.column, Always)))
  {
    var ref := Cut(r.references).value;
    var select := InSelect(ComparableLeft(r), ComparableLeft(r), ref.table, ref.column, Always);
    assert ViolationPredicate(e, r, c).value == Both(SqlNonBlank(), Neg(select));
    ContentBindsItself(db, c.table, Neg(select));
    SelectBinds(db, c.table, ComparableLeft(r), ref);
  }

  lemma ContentBindsItself(db: Database, own: string, q: Pred)
    ensures Bind(db, own, Both(SqlNonBlank(), q)) == Both(SqlNonBlank(), Bind(db, own, q))
  {
    NamesBindThemselves(db, own, SqlNonBlank());
  }

  lemma SelectBinds(db: Database, own: string, left: Scalar, ref: Reference)
    ensures Bind(db, own, Neg(InSelect(left, left, ref.table, ref.column, Always))) ==
      Neg(if ref.table in db && ref.column !in db[ref.table] && own in db && ref.column in db[own]
          then InOuter(left, left, ref.table, own, ref.column)
          else InSelect(left, left, ref.table, ref.column, Always))
  {
    var select := InSelect(left, left, ref.table, ref.column, Always);
    assert Bind(db, own, Neg(select)) == Neg(Bind(db, own, select));
  }

  lemma NothingBinds(db: Database, r: Rule, own: string, p: Pred)
    requires ReferenceMissing(db, r, own) && Cut(r.references).Some?
    requires var ref := Cut(r.references).value;
      Bind(db, own, p) == Both(SqlNonBlank(), Neg(InSelect(ComparableLeft(r), ComparableLeft(r), ref.table, ref.column, Always)))
    ensures !Names(db, Guarded(r, true, Bind(db, own, p)))
  {
    var ref := Cut(r.references).value;
    var select := InSelect(ComparableLeft(r), ComparableLeft(r), ref.table, ref.column, Always);
    assert Names(db, Neg(select)) <==> Names(db, select);
    if Names(db, Guarded(r, true, Bind(db, own, p))) {
      GuardNamesMore(db, r, Bind(db, own, p));
    }
  }

  /** NOT IN the outer row's value once for each row of the referenced table. */
  lemma OuterMeans(e: Engine, db: Database, r: Rule, ref: Reference, row: Row)
    requires ref.table in db && row.table in db && ref.column in db[row.table] && row.cell.Some?
    ensures var p := InOuter(ComparableLeft(r), ComparableLeft(r), ref.table, row.table, ref.column);
      var other := OuterCell(db, row.table, ref.column, row.index);
      Eval(e, db, Neg(p), row) == True <==>
        (HasRows(db, ref.table) ==> other.Some? && Comparable(e, r, row.cell.value) != Comparable(e, r, other.value))
  {
    var other := OuterCell(db, row.table, ref.column, row.index);
    ComparableCell(e, r, row.cell);
    ComparableCell(e, r, other);
    var candidates := if HasRows(db, ref.table) then [EvalScalar(e, ComparableLeft(r), other)] else [];
    InMeans(Some(Comparable(e, r, row.cell.value)), candidates);
  }

  lemma OuterNames(db: Database, left: Scalar, ref: Reference, own: string)
    requires ref.table in db && own in db && ref.column in db[own]
    ensures Names(db, Both(SqlNonBlank(), Neg(InOuter(left, left, ref.table, own, ref.column))))
  {
    assert Names(db, InOuter(left, left, ref.table, own, ref.column));
    assert Names(db, Neg(InOuter(left, left, ref.table, own, ref.column)));
  }

  lemma CapturedCount(e: Engine, db: Database, r: Rule, t: Table, c: Column)
    requires Captured(db, r, t.name) && Loaded(db, t) && c in t.columns
    ensures var ref := Cut(r.references).value; var left := ComparableLeft(r);
      var g := Guarded(r, true, Both(SqlNonBlank(), Neg(InOuter(left, left, ref.table, t.name, ref.column))));
      Names(db, g) &&
      Count(e, db, g, t.name, db[t.name][c.name]) == |CapturedRows(e, db, r, t.name, db[t.name][c.name])|
  {
    var ref, left, cells := Cut(r.references).value, ComparableLeft(r), db[t.name][c.name];
    var q := Neg(InOuter(left, left, ref.table, t.name, ref.column));
    OuterNames(db, left, ref, t.name);
    var p := Both(SqlNonBlank(), q);
    var g := Guarded(r, true, p);
    assert Names(db, g);
    var verdicts := Verdicts(e, db, g, t.name, cells);
    CountIsCardinality(verdicts);
    forall i | 0 <= i < |cells| ensures verdicts[i] == True <==> CapturedBreaks(e, db, r, ref, t.name, cells[i], i) {
      var row := Row(t.name, i, cells[i]);
      GuardedMeans(e, db, r, p, row);
      ContentGuard(e, db, q, row);
      if HasContent(e, cells[i]) {
        OuterMeans(e, db, r, ref, row);
      }
    }
    assert (set i: nat | i < |verdicts| && verdicts[i] == True) == CapturedRows(e, db, r, t.name, cells);
  }

  lemma NamesItsColumns(e: Engine, db: Database, r: Rule, c: Target)
    requires WellFormed(r) && r.valuesFrom == "" && r.expectation != Sql && ViolationPredicate(e, r, c).Ok?
    requires c.table in db && c.column in db[c.table]
    requires !ReferenceMissing(db, r, c.table) && !Captured(db, r, c.table)
    ensures Names(db, ViolationPredicate(e, r, c).value)
  {
    if r.expectation != References {
      OwnColumnOnly(e, db, r, c);
    } else {
      var ref := Cut(r.references).value;
      var select := InSelect(ComparableLeft(r), ComparableLeft(r), ref.table, ref.column, Always);
      assert ViolationPredicate(e, r, c).value == Both(SqlNonBlank(), Neg(select));
      assert Names(db, select);
      assert Names(db, Neg(select));
    }
  }

  /** The rows counted: those breaking the declaration, or none over a NULL reference. */
  lemma SelectedRows(e: Engine, db: Database, r: Rule, t: Table, c: Column)
    requires WellFormed(r) && r.valuesFrom == "" && r.expectation != Sql
    requires Loaded(db, t) && c in t.columns && (r.ignoreCase ==> FoldsAgree(e))
    requires ViolationPredicate(e, r, Target(t.name, c.name)).Ok?
    requires Names(db, Guarded(r, true, ViolationPredicate(e, r, Target(t.name, c.name)).value))
    ensures var cells := db[t.name][c.name];
      Count(e, db, Guarded(r, true, ViolationPredicate(e, r, Target(t.name, c.name)).value), t.name, cells) ==
        if r.expectation == References && None in Referenced(db, r) then 0 else |BreakingRows(e, db, r, cells)|
  {
    var target := Target(t.name, c.name);
    var p := ViolationPredicate(e, r, target).value;
    var g, cells := Guarded(r, true, p), db[t.name][c.name];
    var silent := r.expectation == References && None in Referenced(db, r);
    GuardNamesMore(db, r, p);
    var verdicts := Verdicts(e, db, g, t.name, cells);
    CountIsCardinality(verdicts);
    forall i | 0 <= i < |cells|
      ensures verdicts[i] == True <==>
        Breaks(e, r, cells, i, Referenced(db, r)) && !Exempt(e, r, cells[i]) && !silent
    {
      CompiledMeansDeclared(e, db, r, target, i);
    }
    assert (set i: nat | i < |verdicts| && verdicts[i] == True) == if silent then {} else BreakingRows(e, db, r, cells);
  }

  lemma GuardNamesMore(db: Database, r: Rule, p: Pred)
    requires Names(db, Guarded(r, true, p))
    ensures Names(db, p)
  {
  }

  /** Only a references rule reads anything outside its own column. */
  lemma OwnColumnOnly(e: Engine, db: Database, r: Rule, c: Target)
    requires r.expectation != References && ViolationPredicate(e, r, c).Ok?
    requires c.table in db && c.column in db[c.table]
    ensures Names(db, ViolationPredicate(e, r, c).value)
  {
    var p := ViolationPredicate(e, r, c).value;
    assert forall q: Pred {:trigger Names(db, Both(SqlNonBlank(), q))} :: Names(db, q) ==> Names(db, Both(SqlNonBlank(), q));
    if p.Both? && (p.q.Neg? || p.q.Either?) {
      if p.q.Neg? {
        assert Names(db, p.q.p);
      } else {
        assert Names(db, p.q.p) && Names(db, p.q.q);
      }
      assert Names(db, p.q);
    }
  }

  // ---- which sites a rule reaches ---------------------------------------------------

  /** sqlColumn: the first match, not every match. */
  method SqlColumn(e: Engine, r: Rule, t: Table) returns (c: Option<Column>, ok: bool)
    ensures ok == (SqlSites(e, r, t) != [])
    ensures ok ==> SqlSites(e, r, t) == [Site(t, c)]
    ensures ok <==> r.column == "" || exists col :: col in t.columns && ReachesColumn(e, r, col)
    ensures ok ==> SqlTarget(e, r, t, c)
  {
    if r.column == "" {
      return None, true;
    }
    var i := 0;
    while i < |t.columns|
      invariant 0 <= i <= |t.columns|
      invariant forall j :: 0 <= j < i ==> !ReachesColumn(e, r, t.columns[j])
      invariant MatchedColumns(e, r, t.columns) == MatchedColumns(e, r, t.columns[i..])
    {
      var reached := ColumnReached(e, r, t.columns[i]);
      assert t.columns[i..][0] == t.columns[i] && t.columns[i..][1..] == t.columns[i + 1..];
      if reached {
        assert FirstReached(e, r, t, i);
        return Some(t.columns[i]), true;
      }
      i := i + 1;
    }
    return None, false;
  }

  method ColumnReached(e: Engine, r: Rule, c: Column) returns (ok: bool)
    ensures ok <==> ReachesColumn(e, r, c)
  {
    ok := Glob.MatchGlob(e.goLower, r.column, c.name);
    if !ok {
      ok := Glob.MatchGlob(e.goLower, r.column, c.original);
    }
  }

  method TableReached(e: Engine, r: Rule, t: Table) returns (ok: bool)
    ensures ok <==> ReachesTable(e, r, t)
  {
    ok := Glob.MatchGlob(e.goLower, r.table, t.display);
    if !ok {
      ok := Glob.MatchGlob(e.goLower, r.table, t.name);
    }
  }

  function MatchedColumns(e: Engine, r: Rule, cs: seq<Column>): seq<Column> {
    if cs == [] then []
    else (if ReachesColumn(e, r, cs[0]) then [cs[0]] else []) + MatchedColumns(e, r, cs[1..])
  }

  function SqlSites(e: Engine, r: Rule, t: Table): seq<Site> {
    if r.column == "" then [Site(t, None)]
    else
      var hits := MatchedColumns(e, r, t.columns);
      if hits == [] then [] else [Site(t, Some(hits[0]))]
  }

  function ColumnSites(t: Table, cs: seq<Column>): seq<Site> {
    if cs == [] then [] else [Site(t, Some(cs[0]))] + ColumnSites(t, cs[1..])
  }

  function TableSites(e: Engine, r: Rule, t: Table): seq<Site> {
    if !ReachesTable(e, r, t) then []
    else if r.expectation == Sql then SqlSites(e, r, t)
    else ColumnSites(t, MatchedColumns(e, r, t.columns))
  }

  function Sites(e: Engine, r: Rule, ts: seq<Table>): seq<Site> {
    if ts == [] then [] else TableSites(e, r, ts[0]) + Sites(e, r, ts[1..])
  }

  /** What applying one rule at some sites reports; an error ends the evaluation. */
  function RunSites(e: Engine, db: Database, r: Rule, sites: seq<Site>): Result<seq<Outcome>, string> {
    if sites == [] then Ok([])
    else
      var head, tail := EvaluateOne(e, db, r, sites[0]), RunSites(e, db, r, sites[1..]);
      if head.Err? then head else if tail.Err? then tail else Ok(head.value + tail.value)
  }

  function RunRule(e: Engine, db: Database, ts: seq<Table>, r: Rule): Result<seq<Outcome>, string> {
    var sites := Sites(e, r, ts);
    if sites == [] then Ok([NeverApplied(r.id)]) else RunSites(e, db, r, sites)
  }

  /** The results in order, up to the first error. */
  function Chain(results: seq<Result<seq<Outcome>, string>>): Result<seq<Outcome>, string> {
    if results == [] then Ok([])
    else if results[0].Err? then results[0]
    else Prepend(results[0].value, Chain(results[1..]))
  }

  function RuleResults(e: Engine, db: Database, ts: seq<Table>, rules: seq<Rule>): (results: seq<Result<seq<Outcome>, string>>)
    ensures |results| == |rules| && forall i :: 0 <= i < |rules| ==> results[i] == RunRule(e, db, ts, rules[i])
  {
    seq(|rules|, i requires 0 <= i < |rules| => RunRule(e, db, ts, rules[i]))
  }

  lemma {:induction false} MatchedColumnsMeans(e: Engine, r: Rule, cs: seq<Column>, c: Column)
    ensures c in MatchedColumns(e, r, cs) <==> c in cs && ReachesColumn(e, r, c)
  {
    if cs != [] {
      MatchedColumnsMeans(e, r, cs[1..], c);
      assert cs == [cs[0]] + cs[1..];
    }
  }

  lemma {:induction false} ColumnSitesMeans(t: Table, cs: seq<Column>, s: Site)
    ensures s in ColumnSites(t, cs) <==> s.table == t && s.column.Some? && s.column.value in cs
  {
    if cs != [] {
      ColumnSitesMeans(t, cs[1..], s);
      assert cs == [cs[0]] + cs[1..];
    }
  }

  /** A column of a table the rule's globs reach. */
  predicate SiteReached(e: Engine, r: Rule, ts: seq<Table>, s: Site) {
    && s.table in ts && ReachesTable(e, r, s.table)
    && s.column.Some? && s.column.value in s.table.columns && ReachesColumn(e, r, s.column.value)
  }

  /** A column rule is applied at exactly the columns its globs reach. */
  lemma {:induction false} SitesMeans(e: Engine, r: Rule, ts: seq<Table>, s: Site)
    requires r.expectation != Sql
    ensures s in Sites(e, r, ts) <==> SiteReached(e, r, ts, s)
  {
    if ts != [] {
      SitesMeans(e, r, ts[1..], s);
      assert ts == [ts[0]] + ts[1..];
      ColumnSitesMeans(ts[0], MatchedColumns(e, r, ts[0].columns), s);
      if s.column.Some? {
        MatchedColumnsMeans(e, r, ts[0].columns, s.column.value);
      }
    }
  }

  lemma {:induction false} NoOutcomeIsNeverApplied(e: Engine, db: Database, r: Rule, sites: seq<Site>)
    requires RunSites(e, db, r, sites).Ok?
    ensures forall o :: o in RunSites(e, db, r, sites).value ==> !o.NeverApplied?
  {
    if sites != [] {
      NoOutcomeIsNeverApplied(e, db, r, sites[1..]);
    }
  }

  /** A column rule is reported as never applied exactly when no column of any
      table in the dataset is one it targets. */
  lemma NeverAppliedIff(e: Engine, db: Database, ts: seq<Table>, r: Rule)
    requires r.expectation != Sql && RunRule(e, db, ts, r).Ok?
    ensures NeverApplied(r.id) in RunRule(e, db, ts, r).value <==>
      forall t, c :: t in ts && c in t.columns && ReachesTable(e, r, t) ==> !ReachesColumn(e, r, c)
  {
    var sites := Sites(e, r, ts);
    if sites == [] {
      forall t, c | t in ts && c in t.columns && ReachesTable(e, r, t) ensures !ReachesColumn(e, r, c) {
        SitesMeans(e, r, ts, Site(t, Some(c)));
      }
    } else {
      NoOutcomeIsNeverApplied(e, db, r, sites);
      SitesMeans(e, r, ts, sites[0]);
      assert sites[0].column.value in sites[0].table.columns;
    }
  }

  // ---- how often and in what order ------------------------------------------------------

  /** Where a raw sql rule is applied at a table: on the whole of it when the rule names
      no column, and otherwise on the first column it reaches. */
  ghost predicate SqlTarget(e: Engine, r: Rule, t: Table, c: Option<Column>) {
    if r.column == "" then c.None?
    else exists i :: 0 <= i < |t.columns| && FirstReached(e, r, t, i) && c == Some(t.columns[i])
  }

  predicate FirstReached(e: Engine, r: Rule, t: Table, i: nat)
    requires i < |t.columns|
  {
    ReachesColumn(e, r, t.columns[i]) && forall j :: 0 <= j < i ==> !ReachesColumn(e, r, t.columns[j])
  }

  /** It applies to a table it reaches, if the column it names, when it names one, is
      there. */
  predicate SqlApplies(e: Engine, r: Rule, t: Table) {
    ReachesTable(e, r, t) && (r.column == "" || exists c :: c in t.columns && ReachesColumn(e, r, c))
  }

  lemma {:induction false} FirstMatched(e: Engine, r: Rule, t: Table, from: nat)
    requires from <= |t.columns| && forall j :: 0 <= j < from ==> !ReachesColumn(e, r, t.columns[j])
    ensures var hits := MatchedColumns(e, r, t.columns[from..]);
      if hits == [] then forall c :: c in t.columns ==> !ReachesColumn(e, r, c)
      else exists i :: 0 <= i < |t.columns| && FirstReached(e, r, t, i) && hits[0] == t.columns[i]
    decreases |t.columns| - from
  {
    if from < |t.columns| {
      assert t.columns[from..][0] == t.columns[from] && t.columns[from..][1..] == t.columns[from + 1..];
      if ReachesColumn(e, r, t.columns[from]) {
        assert FirstReached(e, r, t, from);
      } else {
        FirstMatched(e, r, t, from + 1);
      }
    }
  }

  /** At one table: once, at its target, or not at all. */
  lemma SqlSiteOf(e: Engine, r: Rule, t: Table)
    requires r.expectation == Sql
    ensures var sites := TableSites(e, r, t);
      if SqlApplies(e, r, t) then |sites| == 1 && sites[0].table == t && SqlTarget(e, r, t, sites[0].column)
      else sites == []
  {
    FirstMatched(e, r, t, 0);
    assert t.columns[0..] == t.columns;
    var hits := MatchedColumns(e, r, t.columns);
    if hits != [] {
      MatchedColumnsMeans(e, r, t.columns, hits[0]);
    }
  }

  ghost function SqlTables(e: Engine, r: Rule, ts: seq<Table>, n: nat): set<nat>
    requires n <= |ts|
  {
    set i: nat | i < n && SqlApplies(e, r, ts[i])
  }

  ghost predicate TargetAt(e: Engine, r: Rule, ts: seq<Table>, s: Site, i: nat) {
    i < |ts| && s.table == ts[i] && SqlTarget(e, r, s.table, s.column)
  }

  /** The k-th site is the target at the table in position at[k]. */
  ghost predicate SqlSitesAt(e: Engine, r: Rule, ts: seq<Table>, sites: seq<Site>, at: seq<nat>) {
    |at| == |sites| && forall k :: 0 <= k < |at| ==> TargetAt(e, r, ts, sites[k], at[k])
  }

  /** Sites of one table more. */
  lemma LastSqlSite(e: Engine, r: Rule, ts: seq<Table>, n: nat)
    requires n < |ts| && r.expectation == Sql
    ensures var sites, before := Sites(e, r, ts[..n + 1]), Sites(e, r, ts[..n]);
      if SqlApplies(e, r, ts[n])
      then |sites| == |before| + 1 && sites[..|before|] == before && TargetAt(e, r, ts, sites[|before|], n)
      else sites == before
  {
    assert ts[..n + 1][..n] == ts[..n];
    SitesUpToLast(e, r, ts[..n + 1]);
    SqlSiteOf(e, r, ts[n]);
  }

  lemma LastSqlTable(e: Engine, r: Rule, ts: seq<Table>, n: nat)
    requires n < |ts|
    ensures SqlTables(e, r, ts, n + 1) == SqlTables(e, r, ts, n) + (if SqlApplies(e, r, ts[n]) then {n} else {})
  {
  }

  lemma OneMoreTarget(e: Engine, r: Rule, ts: seq<Table>, before: seq<Site>, sites: seq<Site>, at: seq<nat>, i: nat)
    requires SqlSitesAt(e, r, ts, before, at)
    requires |sites| == |before| + 1 && sites[..|before|] == before && TargetAt(e, r, ts, sites[|before|], i)
    ensures SqlSitesAt(e, r, ts, sites, at + [i])
  {
    forall k | 0 <= k < |at| ensures TargetAt(e, r, ts, sites[k], at[k]) {
      assert sites[k] == before[k];
    }
  }

  lemma {:induction false} SqlSitesUpTo(e: Engine, r: Rule, ts: seq<Table>, n: nat) returns (at: seq<nat>)
    requires n <= |ts| && r.expectation == Sql
    ensures Positions.Lists(at, SqlTables(e, r, ts, n)) && SqlSitesAt(e, r, ts, Sites(e, r, ts[..n]), at)
  {
    at := [];
    if n > 0 {
      at := SqlSitesUpTo(e, r, ts, n - 1);
      LastSqlSite(e, r, ts, n - 1);
      LastSqlTable(e, r, ts, n - 1);
      if SqlApplies(e, r, ts[n - 1]) {
        Positions.OneMoreListed(at, SqlTables(e, r, ts, n - 1), n - 1);
        OneMoreTarget(e, r, ts, Sites(e, r, ts[..n - 1]), Sites(e, r, ts[..n]), at, n - 1);
        at := at + [n - 1];
      }
    }
  }

  /** A raw sql rule is applied once at each table it applies to, in their order, and
      nowhere else. */
  lemma SqlSitesAre(e: Engine, r: Rule, ts: seq<Table>) returns (at: seq<nat>)
    requires r.expectation == Sql
    ensures Positions.Lists(at, SqlTables(e, r, ts, |ts|)) && SqlSitesAt(e, r, ts, Sites(e, r, ts), at)
  {
    at := SqlSitesUpTo(e, r, ts, |ts|);
    assert ts[..|ts|] == ts;
  }

  /** The rows a raw sql rule counts: those its clause is TRUE of, on a column without
      the exempt ones. */
  ghost function ClauseRows(e: Engine, db: Database, r: Rule, t: Table, c: Option<Column>): set<nat> {
    set i: nat | i < t.rowCount && e.clause(r.clause, t.name, i) == True &&
                 (c.Some? ==> i < |CellsAt(db, Site(t, c))| && !Exempt(e, r, CellsAt(db, Site(t, c))[i]))
  }

  lemma SqlCountsRows(e: Engine, db: Database, r: Rule, t: Table, c: Option<Column>)
    requires r.expectation == Sql && Loaded(db, t) && (c.Some? ==> c.value in t.columns)
    ensures var n := |ClauseRows(e, db, r, t, c)|;
      EvaluateOne(e, db, r, Site(t, c)) == Ok(if n == 0 then [] else [Broken(r.id, t.name, NameOf(c), n)])
  {
    var p := Clause(r.clause);
    var g, cells := Guarded(r, c.Some?, p), CellsAt(db, Site(t, c));
    assert Names(db, p) && Names(db, g);
    NamesBindThemselves(db, t.name, g);
    var verdicts := Verdicts(e, db, g, t.name, cells);
    CountIsCardinality(verdicts);
    forall i | 0 <= i < |cells|
      ensures verdicts[i] == True <==> e.clause(r.clause, t.name, i) == True && (c.Some? ==> !Exempt(e, r, cells[i]))
    {
      var row := Row(t.name, i, cells[i]);
      assert Eval(e, db, p, row) == e.clause(r.clause, t.name, i);
      if c.Some? {
        GuardedMeans(e, db, r, p, row);
      }
    }
    assert (set i: nat | i < |verdicts| && verdicts[i] == True) == ClauseRows(e, db, r, t, c);
  }

  lemma {:induction false} RunSitesHolds(e: Engine, db: Database, r: Rule, sites: seq<Site>, o: Outcome)
    requires forall s :: s in sites ==> EvaluateOne(e, db, r, s).Ok?
    ensures RunSites(e, db, r, sites).Ok?
    ensures o in RunSites(e, db, r, sites).value <==> exists s :: s in sites && o in EvaluateOne(e, db, r, s).value
    decreases |sites|
  {
    if sites != [] {
      assert sites == [sites[0]] + sites[1..];
      RunSitesHolds(e, db, r, sites[1..], o);
    }
  }

  lemma RunRuleHolds(e: Engine, db: Database, ts: seq<Table>, r: Rule, o: Outcome)
    requires forall s :: s in Sites(e, r, ts) ==> EvaluateOne(e, db, r, s).Ok?
    ensures RunRule(e, db, ts, r).Ok?
    ensures o in RunRule(e, db, ts, r).value <==>
      if Sites(e, r, ts) == [] then o == NeverApplied(r.id)
      else exists s :: s in Sites(e, r, ts) && o in EvaluateOne(e, db, r, s).value
  {
    if Sites(e, r, ts) == [] {
      assert RunRule(e, db, ts, r).value == [NeverApplied(r.id)];
    } else {
      RunSitesHolds(e, db, r, Sites(e, r, ts), o);
    }
  }

  /** A finding of a raw sql rule at a table. */
  ghost predicate SqlFinding(e: Engine, db: Database, r: Rule, t: Table, o: Outcome) {
    exists c :: SqlTarget(e, r, t, c) && ClauseRows(e, db, r, t, c) != {} &&
                o == Broken(r.id, t.name, NameOf(c), |ClauseRows(e, db, r, t, c)|)
  }

  /** Its sites are targets at tables it applies to, one for each. */
  lemma SqlSitesMean(e: Engine, r: Rule, ts: seq<Table>)
    requires r.expectation == Sql
    ensures var sites := Sites(e, r, ts);
      && (forall s :: s in sites ==> s.table in ts && SqlApplies(e, r, s.table) && SqlTarget(e, r, s.table, s.column))
      && (forall t :: t in ts && SqlApplies(e, r, t) ==> exists s :: s in sites && s.table == t)
  {
    var sites := Sites(e, r, ts);
    var at := SqlSitesAre(e, r, ts);
    forall s | s in sites ensures s.table in ts && SqlApplies(e, r, s.table) && SqlTarget(e, r, s.table, s.column) {
      var k :| 0 <= k < |sites| && sites[k] == s;
      assert at[k] in at && TargetAt(e, r, ts, s, at[k]) && ts[at[k]] in ts;
    }
    forall t | t in ts && SqlApplies(e, r, t) ensures exists s :: s in sites && s.table == t {
      var i :| 0 <= i < |ts| && ts[i] == t;
      assert i in at;
      var k :| 0 <= k < |at| && at[k] == i;
      assert TargetAt(e, r, ts, sites[k], i) && sites[k] in sites;
    }
  }

  /** The whole of what a raw sql rule reports: that it was never applied, exactly when
      it applies to no table; and otherwise, at each table it applies to, how many rows
      its clause is TRUE of, where there are any. */
  lemma SqlRuleReports(e: Engine, db: Database, ts: seq<Table>, r: Rule, o: Outcome)
    requires r.expectation == Sql && forall t :: t in ts ==> Loaded(db, t)
    ensures RunRule(e, db, ts, r).Ok?
    ensures o in RunRule(e, db, ts, r).value <==>
      if forall t :: t in ts ==> !SqlApplies(e, r, t) then o == NeverApplied(r.id)
      else exists t :: t in ts && SqlApplies(e, r, t) && SqlFinding(e, db, r, t, o)
  {
    SqlSitesMean(e, r, ts);
    forall s | s in Sites(e, r, ts)
      ensures EvaluateOne(e, db, r, s).Ok? && (o in EvaluateOne(e, db, r, s).value <==> SqlFinding(e, db, r, s.table, o))
    {
      SqlFindingAt(e, db, r, s, o);
    }
    RunRuleHolds(e, db, ts, r, o);
    if Sites(e, r, ts) != [] {
      assert Sites(e, r, ts)[0] in Sites(e, r, ts);
    }
  }

  /** And of any other rule: that it was never applied, or what applying it at each
      column it reaches reports. */
  lemma ColumnRuleReports(e: Engine, db: Database, ts: seq<Table>, r: Rule, o: Outcome)
    requires WellFormed(r) && r.valuesFrom == "" && r.expectation != Sql && (r.ignoreCase ==> FoldsAgree(e))
    requires forall t :: t in ts ==> Loaded(db, t)
    ensures RunRule(e, db, ts, r).Ok?
    ensures o in RunRule(e, db, ts, r).value <==>
      if forall s :: !SiteReached(e, r, ts, s) then o == NeverApplied(r.id)
      else exists s :: SiteReached(e, r, ts, s) && EvaluateOne(e, db, r, s).Ok? && o in EvaluateOne(e, db, r, s).value
  {
    forall s ensures s in Sites(e, r, ts) <==> SiteReached(e, r, ts, s) {
      SitesMeans(e, r, ts, s);
    }
    forall s | s in Sites(e, r, ts) ensures EvaluateOne(e, db, r, s).Ok? {
      EvaluateOneCountsBreakingRows(e, db, r, s.table, s.column.value);
    }
    RunRuleHolds(e, db, ts, r, o);
    if Sites(e, r, ts) != [] {
      assert Sites(e, r, ts)[0] in Sites(e, r, ts);
    }
  }

  lemma SqlFindingAt(e: Engine, db: Database, r: Rule, s: Site, o: Outcome)
    requires r.expectation == Sql && Loaded(db, s.table) && SqlTarget(e, r, s.table, s.column)
    ensures EvaluateOne(e, db, r, s).Ok?
    ensures o in EvaluateOne(e, db, r, s).value <==> SqlFinding(e, db, r, s.table, o)
  {
    SqlCountsRows(e, db, r, s.table, s.column);
    forall c | SqlTarget(e, r, s.table, c) ensures c == s.column {
    }
  }

  ghost function ReachedIn(e: Engine, r: Rule, cs: seq<Column>): set<nat> {
    set j: nat | j < |cs| && ReachesColumn(e, r, cs[j])
  }

  /** The columns of one table that a rule reaches, each once, in their order. */
  lemma {:induction false} ReachedColumnsAre(e: Engine, r: Rule, cs: seq<Column>) returns (at: seq<nat>)
    ensures var hits := MatchedColumns(e, r, cs);
      Positions.Lists(at, ReachedIn(e, r, cs)) && |at| == |hits| &&
      forall k :: 0 <= k < |at| ==> at[k] < |cs| && hits[k] == cs[at[k]]
    decreases |cs|
  {
    at := [];
    if cs != [] {
      var n := |cs| - 1;
      at := ReachedColumnsAre(e, r, cs[..n]);
      LastMatched(e, r, cs);
      assert ReachedIn(e, r, cs) == ReachedIn(e, r, cs[..n]) + (if ReachesColumn(e, r, cs[n]) then {n} else {});
      if ReachesColumn(e, r, cs[n]) {
        Positions.OneMoreListed(at, ReachedIn(e, r, cs[..n]), n);
        at := at + [n];
      }
    }
  }

  lemma {:induction false} ColumnSitesAre(t: Table, cs: seq<Column>)
    ensures |ColumnSites(t, cs)| == |cs|
    ensures forall k :: 0 <= k < |cs| ==> ColumnSites(t, cs)[k] == Site(t, Some(cs[k]))
  {
    if cs != [] {
      ColumnSitesAre(t, cs[1..]);
    }
  }

  /** So at one table a rule is applied once at each column it reaches, in their order. */
  lemma ColumnSitesAt(e: Engine, r: Rule, t: Table) returns (at: seq<nat>)
    requires r.expectation != Sql && ReachesTable(e, r, t)
    ensures var sites := TableSites(e, r, t);
      Positions.Lists(at, ReachedIn(e, r, t.columns)) && |at| == |sites| &&
      forall k :: 0 <= k < |at| ==> at[k] < |t.columns| && sites[k] == Site(t, Some(t.columns[at[k]]))
  {
    at := ReachedColumnsAre(e, r, t.columns);
    ColumnSitesAre(t, MatchedColumns(e, r, t.columns));
  }

  lemma {:induction false} LastMatched(e: Engine, r: Rule, cs: seq<Column>)
    requires cs != []
    ensures var n := |cs| - 1;
      MatchedColumns(e, r, cs) == MatchedColumns(e, r, cs[..n]) + (if ReachesColumn(e, r, cs[n]) then [cs[n]] else [])
    decreases |cs|
  {
    if |cs| > 1 {
      LastMatched(e, r, cs[1..]);
      assert cs[1..][..|cs| - 2] == cs[..|cs| - 1][1..];
      var first := if ReachesColumn(e, r, cs[0]) then [cs[0]] else [];
      Strings.ConcatAssociates(first, MatchedColumns(e, r, cs[..|cs| - 1][1..]),
                               if ReachesColumn(e, r, cs[|cs| - 1]) then [cs[|cs| - 1]] else []);
    } else {
      assert cs[..0] == [] && cs[1..] == [];
    }
  }

  // ---- the loops of Evaluate ----------------------------------------------------------

  function Prepend(out: seq<Outcome>, rest: Result<seq<Outcome>, string>): Result<seq<Outcome>, string> {
    if rest.Err? then rest else Ok(out + rest.value)
  }

  lemma PrependNothing(rest: Result<seq<Outcome>, string>)
    ensures Prepend([], rest) == rest
  {
    if rest.Ok? {
      assert [] + rest.value == rest.value;
    }
  }

  lemma PrependTwice(a: seq<Outcome>, b: seq<Outcome>, rest: Result<seq<Outcome>, string>)
    ensures Prepend(a, Prepend(b, rest)) == Prepend(a + b, rest)
  {
    if rest.Ok? {
      assert a + (b + rest.value) == (a + b) + rest.value;
    }
  }

  lemma RunSitesStep(e: Engine, db: Database, r: Rule, s: Site, rest: seq<Site>)
    ensures RunSites(e, db, r, [s] + rest) ==
      (if EvaluateOne(e, db, r, s).Err? then EvaluateOne(e, db, r, s)
       else Prepend(EvaluateOne(e, db, r, s).value, RunSites(e, db, r, rest)))
  {
    assert ([s] + rest)[1..] == rest;
  }

  function ColumnsLeft(e: Engine, r: Rule, t: Table, j: nat): seq<Site>
    requires j <= |t.columns|
  {
    ColumnSites(t, MatchedColumns(e, r, t.columns[j..]))
  }

  lemma ColumnsLeftStep(e: Engine, r: Rule, t: Table, j: nat)
    requires j < |t.columns|
    ensures ColumnsLeft(e, r, t, j) ==
      (if ReachesColumn(e, r, t.columns[j]) then [Site(t, Some(t.columns[j]))] else []) + ColumnsLeft(e, r, t, j + 1)
  {
    assert t.columns[j..][0] == t.columns[j] && t.columns[j..][1..] == t.columns[j + 1..];
    if ReachesColumn(e, r, t.columns[j]) {
      var later := MatchedColumns(e, r, t.columns[j + 1..]);
      assert ([t.columns[j]] + later)[1..] == later;
    } else {
      var later := MatchedColumns(e, r, t.columns[j + 1..]);
      assert [] + later == later;
      assert MatchedColumns(e, r, t.columns[j..]) == later;
    }
  }

  /** One turn of the columns loop. */
  lemma ColumnTurn(e: Engine, db: Database, r: Rule, t: Table, j: nat, found: seq<Outcome>)
    requires j < |t.columns|
    ensures var one := EvaluateOne(e, db, r, Site(t, Some(t.columns[j])));
      var later := RunSites(e, db, r, ColumnsLeft(e, r, t, j + 1));
      Prepend(found, RunSites(e, db, r, ColumnsLeft(e, r, t, j))) ==
        if !ReachesColumn(e, r, t.columns[j]) then Prepend(found, later)
        else if one.Err? then one else Prepend(found + one.value, later)
  {
    ColumnsLeftStep(e, r, t, j);
    var site := Site(t, Some(t.columns[j]));
    var later := ColumnsLeft(e, r, t, j + 1);
    if ReachesColumn(e, r, t.columns[j]) {
      RunSitesStep(e, db, r, site, later);
      var one := EvaluateOne(e, db, r, site);
      if one.Ok? {
        PrependTwice(found, one.value, RunSites(e, db, r, later));
      }
    } else {
      assert [] + later == later;
    }
  }

  lemma LeftToReach(e: Engine, r: Rule, t: Table, j: nat)
    requires j < |t.columns|
    ensures ColumnsLeft(e, r, t, j) != [] <==> ReachesColumn(e, r, t.columns[j]) || ColumnsLeft(e, r, t, j + 1) != []
  {
    ColumnsLeftStep(e, r, t, j);
  }

  /** The columns loop for one table. */
  method RunColumns(e: Engine, db: Database, r: Rule, t: Table)
    returns (out: Result<seq<Outcome>, string>, applied: nat)
    ensures applied > 0 <==> ColumnsLeft(e, r, t, 0) != []
    ensures out == RunSites(e, db, r, ColumnsLeft(e, r, t, 0))
  {
    var found: seq<Outcome> := [];
    applied := 0;
    var j := 0;
    PrependNothing(RunSites(e, db, r, ColumnsLeft(e, r, t, 0)));
    while j < |t.columns|
      invariant 0 <= j <= |t.columns|
      invariant applied > 0 || ColumnsLeft(e, r, t, j) != [] <==> ColumnsLeft(e, r, t, 0) != []
      invariant RunSites(e, db, r, ColumnsLeft(e, r, t, 0)) == Prepend(found, RunSites(e, db, r, ColumnsLeft(e, r, t, j)))
    {
      LeftToReach(e, r, t, j);
      ColumnTurn(e, db, r, t, j, found);
      var reached := ColumnReached(e, r, t.columns[j]);
      if reached {
        applied := applied + 1;
        var one := EvaluateOne(e, db, r, Site(t, Some(t.columns[j])));
        if one.Err? {
          return one, applied;
        }
        found := found + one.value;
      }
      j := j + 1;
    }
    assert found + [] == found;
    return Ok(found), applied;
  }

  lemma {:induction false} RunSitesTogether(e: Engine, db: Database, r: Rule, a: seq<Site>, b: seq<Site>)
    ensures RunSites(e, db, r, a + b) ==
      (if RunSites(e, db, r, a).Err? then RunSites(e, db, r, a)
       else Prepend(RunSites(e, db, r, a).value, RunSites(e, db, r, b)))
    decreases |a|
  {
    if a == [] {
      assert [] + b == b;
      PrependNothing(RunSites(e, db, r, b));
    } else {
      RunSitesTogether(e, db, r, a[1..], b);
      assert a + b == [a[0]] + (a[1..] + b) && a == [a[0]] + a[1..];
      RunSitesStep(e, db, r, a[0], a[1..] + b);
      RunSitesStep(e, db, r, a[0], a[1..]);
      AfterOne(EvaluateOne(e, db, r, a[0]), RunSites(e, db, r, a[1..]), RunSites(e, db, r, b));
    }
  }

  /** What comes first, then the rest, then the tail. */
  lemma AfterOne(one: Result<seq<Outcome>, string>, rest: Result<seq<Outcome>, string>, tail: Result<seq<Outcome>, string>)
    ensures var both := if one.Err? then one else Prepend(one.value, rest);
      (if one.Err? then one else Prepend(one.value, if rest.Err? then rest else Prepend(rest.value, tail))) ==
      if both.Err? then both else Prepend(both.value, tail)
  {
    if one.Ok? && rest.Ok? {
      PrependTwice(one.value, rest.value, tail);
    }
  }

  lemma {:induction false} ChainGoesOn(done: seq<Result<seq<Outcome>, string>>, next: Result<seq<Outcome>, string>,
                                       rest: seq<Result<seq<Outcome>, string>>)
    requires Chain(done).Ok?
    ensures next.Ok? ==> Chain(done + [next]) == Ok(Chain(done).value + next.value)
    ensures next.Err? ==> Chain(done + [next] + rest) == next
    decreases |done|
  {
    if done == [] {
      assert [] + [next] == [next] && ([next] + rest)[0] == next;
      assert [next][1..] == [] && Chain([]) == Ok([]);
      if next.Ok? {
        assert next.value + [] == next.value && [] + next.value == next.value;
      }
    } else {
      ChainGoesOn(done[1..], next, rest);
      assert (done + [next])[1..] == done[1..] + [next];
      assert (done + [next] + rest)[1..] == done[1..] + [next] + rest;
      if next.Ok? {
        assert done[0].value + (Chain(done[1..]).value + next.value) == Chain(done).value + next.value;
      }
    }
  }

  lemma ChainStep(all: seq<Result<seq<Outcome>, string>>, i: nat)
    requires i < |all| && Chain(all[..i]).Ok?
    ensures all[i].Ok? ==> Chain(all[..i + 1]) == Ok(Chain(all[..i]).value + all[i].value)
    ensures all[i].Err? ==> Chain(all) == all[i]
  {
    ChainGoesOn(all[..i], all[i], all[i + 1..]);
    Strings.TakeOneMore(all, i);
  }

  /** One table for one rule. */
  method RunTable(e: Engine, db: Database, r: Rule, t: Table)
    returns (out: Result<seq<Outcome>, string>, applied: nat)
    ensures out == RunSites(e, db, r, TableSites(e, r, t))
    ensures applied > 0 <==> TableSites(e, r, t) != []
  {
    var reached := TableReached(e, r, t);
    if !reached {
      return Ok([]), 0;
    }
    if r.expectation == Sql {
      var c, ok := SqlColumn(e, r, t);
      if !ok {
        return Ok([]), 0;
      }
      out := EvaluateOne(e, db, r, Site(t, c));
      RunSitesStep(e, db, r, Site(t, c), []);
      assert [Site(t, c)] + [] == [Site(t, c)];
      if out.Ok? {
        assert out.value + [] == out.value;
      }
      return out, 1;
    }
    assert t.columns[0..] == t.columns;
    assert TableSites(e, r, t) == ColumnsLeft(e, r, t, 0);
    out, applied := RunColumns(e, db, r, t);
  }

  function TableResults(e: Engine, db: Database, r: Rule, ts: seq<Table>): (results: seq<Result<seq<Outcome>, string>>)
    ensures |results| == |ts|
    ensures forall i :: 0 <= i < |ts| ==> results[i] == RunSites(e, db, r, TableSites(e, r, ts[i]))
  {
    seq(|ts|, i requires 0 <= i < |ts| => RunSites(e, db, r, TableSites(e, r, ts[i])))
  }

  /** No table has a column the rule reaches. */
  predicate NothingReached(e: Engine, r: Rule, ts: seq<Table>) {
    ts == [] || (NothingReached(e, r, ts[..|ts| - 1]) && TableSites(e, r, ts[|ts| - 1]) == [])
  }

  lemma NothingReachedStep(e: Engine, r: Rule, ts: seq<Table>, i: nat)
    requires i < |ts|
    ensures NothingReached(e, r, ts[..i + 1]) <==> NothingReached(e, r, ts[..i]) && TableSites(e, r, ts[i]) == []
  {
    assert ts[..i + 1][..i] == ts[..i];
  }

  lemma {:induction false} SitesOfOneMore(e: Engine, r: Rule, ts: seq<Table>, t: Table)
    ensures Sites(e, r, ts + [t]) == Sites(e, r, ts) + TableSites(e, r, t)
    decreases |ts|
  {
    var none: seq<Site> := [];
    if ts == [] {
      assert ts + [t] == [t] && [t][1..] == [];
      assert Sites(e, r, [t]) == TableSites(e, r, t) + none;
    } else {
      SitesOfOneMore(e, r, ts[1..], t);
      assert (ts + [t])[1..] == ts[1..] + [t];
      Strings.ConcatAssociates(TableSites(e, r, ts[0]), Sites(e, r, ts[1..]), TableSites(e, r, t));
    }
  }

  lemma {:induction false} NoSitesMeans(e: Engine, r: Rule, ts: seq<Table>)
    ensures Sites(e, r, ts) == [] <==> NothingReached(e, r, ts)
    decreases |ts|
  {
    if ts != [] {
      var n := |ts| - 1;
      NoSitesMeans(e, r, ts[..n]);
      SitesUpToLast(e, r, ts);
    }
  }

  lemma SitesUpToLast(e: Engine, r: Rule, ts: seq<Table>)
    requires ts != []
    ensures var n := |ts| - 1; Sites(e, r, ts) == Sites(e, r, ts[..n]) + TableSites(e, r, ts[n])
  {
    var n := |ts| - 1;
    assert ts == ts[..n] + [ts[n]];
    SitesOfOneMore(e, r, ts[..n], ts[n]);
  }

  lemma {:induction false} TablesTogether(e: Engine, db: Database, r: Rule, ts: seq<Table>)
    ensures RunSites(e, db, r, Sites(e, r, ts)) == Chain(TableResults(e, db, r, ts))
    decreases |ts|
  {
    if ts != [] {
      TablesTogether(e, db, r, ts[1..]);
      assert TableResults(e, db, r, ts)[1..] == TableResults(e, db, r, ts[1..]);
      RunSitesTogether(e, db, r, TableSites(e, r, ts[0]), Sites(e, r, ts[1..]));
    }
  }

  /** The tables loop for one rule. */
  method RunTables(e: Engine, db: Database, r: Rule, ts: seq<Table>)
    returns (out: Result<seq<Outcome>, string>, applied: nat)
    ensures out == Chain(TableResults(e, db, r, ts))
    ensures out.Ok? ==> (applied == 0 <==> NothingReached(e, r, ts))
  {
    ghost var all := TableResults(e, db, r, ts);
    var found: seq<Outcome> := [];
    applied := 0;
    var i := 0;
    while i < |ts|
      invariant 0 <= i <= |ts|
      invariant Chain(all[..i]) == Ok(found)
      invariant applied == 0 <==> NothingReached(e, r, ts[..i])
    {
      var one, n := RunTable(e, db, r, ts[i]);
      NothingReachedStep(e, r, ts, i);
      applied := applied + n;
      ChainStep(all, i);
      if one.Err? {
        return one, applied;
      }
      found := found + one.value;
      i := i + 1;
    }
    assert all[..i] == all && ts[..i] == ts;
    return Ok(found), applied;
  }

  /** One rule, and the report of a rule that reached nothing. */
  method RunOneRule(e: Engine, db: Database, ts: seq<Table>, r: Rule) returns (out: Result<seq<Outcome>, string>)
    ensures out == RunRule(e, db, ts, r)
  {
    var applied: nat;
    out, applied := RunTables(e, db, r, ts);
    TablesTogether(e, db, r, ts);
    NoSitesMeans(e, r, ts);
    if out.Ok? && applied == 0 {
      return Ok([NeverApplied(r.id)]);
    }
  }

  /** Evaluate: every rule, every table, every column it reaches, in order. */
  method EvaluateAll(e: Engine, db: Database, ts: seq<Table>, rules: seq<Rule>) returns (out: Result<seq<Outcome>, string>)
    ensures out == Chain(RuleResults(e, db, ts, rules))
  {
    ghost var all := RuleResults(e, db, ts, rules);
    var found: seq<Outcome> := [];
    var i := 0;
    while i < |rules|
      invariant 0 <= i <= |rules|
      invariant Chain(all[..i]) == Ok(found)
    {
      var one := RunOneRule(e, db, ts, rules[i]);
      ChainStep(all, i);
      if one.Err? {
        return one;
      }
      found := found + one.value;
      i := i + 1;
    }
    assert all[..i] == all;
    return Ok(found);
  }
}
