/**
  Rules and their compilation to SQL predicates (internal/rules/rules.go,
  internal/rules/evaluate.go).  A rule declares an expectation; the compiler
  writes a predicate selecting the rows that break it.  The two are proved to
  agree row by row, in three-valued logic.
*/
module Rules {
  import opened Wrappers
  import opened Strings
  import opened SqlLogic
  import opened Profile

  datatype Expectation =
    | NotNull | Unique | Positive | NonNegative | OneOf | Matching | Range | NotFuture | References | Sql
    | Unstated | Unrecognized(name: string)

  const FROM_CURRENT := "current"

  datatype Rule = Rule(
    id: string, table: string, column: string, expectation: Expectation,
    values: seq<string>, valuesFrom: string, pattern: string,
    min: Option<real>, max: Option<real>,
    references: string, clause: string,
    ignoreCase: bool, allowMissing: bool)

  // ---- Validate -------------------------------------------------------------------

  datatype Flaw =
    | NoId | DuplicateId | NoTable | NoExpectation | NoColumn | UnknownSource | SourceWithoutOneOf
    | ValuesTwice | NoValues | NoPattern | NoBounds | MinAboveMax | BadReference | NoClause | UnknownExpectation

  function BodyFlaw(r: Rule): Option<Flaw> {
    match r.expectation
    case OneOf =>
      if r.values != [] && r.valuesFrom != "" then Some(ValuesTwice)
      else if r.values == [] && r.valuesFrom == "" then Some(NoValues) else None
    case Matching => if r.pattern == "" then Some(NoPattern) else None
    case Range =>
      if r.min.None? && r.max.None? then Some(NoBounds)
      else if r.min.Some? && r.max.Some? && r.min.value > r.max.value then Some(MinAboveMax) else None
    case References => if '.' !in r.references then Some(BadReference) else None
    case Sql => if r.clause == "" then Some(NoClause) else None
    case Unrecognized(_) => Some(UnknownExpectation)
    case _ => None
  }

  function FlawOf(r: Rule, duplicate: bool): Option<Flaw> {
    if r.id == "" then Some(NoId)
    else if duplicate then Some(DuplicateId)
    else if r.table == "" then Some(NoTable)
    else if r.expectation == Unstated then Some(NoExpectation)
    else if r.expectation != Sql && r.column == "" then Some(NoColumn)
    else if r.valuesFrom != "" && r.valuesFrom != FROM_CURRENT then Some(UnknownSource)
    else if r.valuesFrom != "" && r.expectation != OneOf then Some(SourceWithoutOneOf)
    else BodyFlaw(r)
  }

  /** What a rule has to be to be applicable at all. */
  predicate WellFormed(r: Rule) {
    && r.id != "" && r.table != ""
    && !r.expectation.Unstated? && !r.expectation.Unrecognized?
    && (r.column != "" || r.expectation == Sql)
    && (r.valuesFrom == "" || (r.valuesFrom == FROM_CURRENT && r.expectation == OneOf))
    && (r.expectation == OneOf ==> (r.values == [] <==> r.valuesFrom != ""))
    && (r.expectation == Matching ==> r.pattern != "")
    && (r.expectation == Range ==> r.min.Some? || r.max.Some?)
    && (r.expectation == Range && r.min.Some? && r.max.Some? ==> r.min.value <= r.max.value)
    && (r.expectation == References ==> '.' in r.references)
    && (r.expectation == Sql ==> r.clause != "")
  }

  ghost predicate DistinctIds(rules: seq<Rule>) {
    forall i, j :: 0 <= i < j < |rules| ==> rules[i].id != rules[j].id
  }

  /** The checks, taken in their order, ask exactly for a well-formed rule. */
  lemma FlawlessIsWellFormed(r: Rule)
    ensures FlawOf(r, false).None? <==> WellFormed(r)
    ensures FlawOf(r, true).Some?
  {
  }

  /** What is wrong with a rule, each on its own. */
  predicate HasFlaw(r: Rule, duplicate: bool, flaw: Flaw) {
    match flaw
    case NoId => r.id == ""
    case DuplicateId => duplicate
    case NoTable => r.table == ""
    case NoExpectation => r.expectation.Unstated?
    case NoColumn => r.column == "" && !r.expectation.Sql?
    case UnknownSource => r.valuesFrom != "" && r.valuesFrom != "current"
    case SourceWithoutOneOf => r.valuesFrom != "" && !r.expectation.OneOf?
    case ValuesTwice => r.expectation.OneOf? && r.values != [] && r.valuesFrom != ""
    case NoValues => r.expectation.OneOf? && r.values == [] && r.valuesFrom == ""
    case NoPattern => r.expectation.Matching? && r.pattern == ""
    case NoBounds => r.expectation.Range? && r.min.None? && r.max.None?
    case MinAboveMax => r.expectation.Range? && r.min.Some? && r.max.Some? && r.max.value < r.min.value
    case BadReference => r.expectation.References? && '.' !in r.references
    case NoClause => r.expectation.Sql? && r.clause == ""
    case UnknownExpectation => r.expectation.Unrecognized?
  }

  /** The order in which it is looked for; what concerns one expectation comes last. */
  function Turn(flaw: Flaw): nat {
    match flaw
    case NoId => 0 case DuplicateId => 1 case NoTable => 2 case NoExpectation => 3 case NoColumn => 4
    case UnknownSource => 5 case SourceWithoutOneOf => 6 case _ => 7
  }

  /** Exact: the flaw named is one the rule has, and the first of those it has. */
  lemma FirstFlawIsNamed(r: Rule, duplicate: bool, flaw: Flaw)
    ensures FlawOf(r, duplicate) == Some(flaw) <==>
      HasFlaw(r, duplicate, flaw) && forall other :: HasFlaw(r, duplicate, other) && other != flaw ==> Turn(flaw) < Turn(other)
    ensures FlawOf(r, duplicate).None? <==> forall other :: !HasFlaw(r, duplicate, other)
  {
    var named := FlawOf(r, duplicate);
    if named.Some? {
      assert HasFlaw(r, duplicate, named.value);
    }
  }

  /** File.Validate: the first rule that cannot be applied, and why. */
  method Validate(rules: seq<Rule>) returns (flaw: Option<(nat, Flaw)>)
    ensures flaw.None? <==> DistinctIds(rules) && forall i :: 0 <= i < |rules| ==> WellFormed(rules[i])
    ensures flaw.Some? ==> var (at, why) := flaw.value;
      && at < |rules| && DistinctIds(rules[..at]) && (forall i :: 0 <= i < at ==> WellFormed(rules[i]))
      && Some(why) == FlawOf(rules[at], exists i :: 0 <= i < at && rules[i].id == rules[at].id)
  {
    var seen: set<string> := {};
    var i := 0;
    while i < |rules|
      invariant 0 <= i <= |rules|
      invariant DistinctIds(rules[..i])
      invariant forall k :: 0 <= k < i ==> WellFormed(rules[k])
      invariant forall x :: x in seen <==> exists k :: 0 <= k < i && rules[k].id == x
    {
      var r := rules[i];
      var why := FlawOf(r, r.id in seen);
      FlawlessIsWellFormed(r);
      if why.Some? {
        if r.id in seen {
          var k :| 0 <= k < i && rules[k].id == r.id;
          assert !DistinctIds(rules);
        } else {
          assert !WellFormed(r);
        }
        return Some((i, why.value));
      }
      seen := seen + {r.id};
      TakeOneMore(rules, i);
      i := i + 1;
    }
    assert rules[..i] == rules;
    return None;
  }

  // ---- the compiler ------------------------------------------------------------------

  datatype Reference = Reference(table: string, column: string)

  /** strings.Cut(s, ".") */
  function Cut(s: string): Option<Reference> {
    var i := IndexOf(s, ".");
    if i < 0 then None else Some(Reference(s[..i], s[i + 1..]))
  }

  function ComparableLeft(r: Rule): Scalar { if r.ignoreCase then FOLDED else Col }

  function GoFold(e: Engine, v: string): string { e.goLower(e.goTrim(v)) }

  /** comparableList: fills the permitted values as literals. */
  method ComparableList(e: Engine, r: Rule) returns (lhs: Scalar, values: seq<Scalar>)
    ensures lhs == ComparableLeft(r) && values == Literals(PermittedTexts(e, r))
  {
    lhs := Col;
    if r.ignoreCase {
      lhs := FOLDED;
    }
    values := [];
    var i := 0;
    while i < |r.values|
      invariant 0 <= i <= |r.values| && |values| == i
      invariant forall k :: 0 <= k < i ==> values[k] == Lit(PermittedTexts(e, r)[k])
    {
      values := values + [Lit(if r.ignoreCase then GoFold(e, r.values[i]) else r.values[i])];
      i := i + 1;
    }
  }

  function PermittedTexts(e: Engine, r: Rule): (texts: seq<string>)
    ensures |texts| == |r.values|
  {
    seq(|r.values|, i requires 0 <= i < |r.values| => if r.ignoreCase then GoFold(e, r.values[i]) else r.values[i])
  }

  datatype Target = Target(table: string, column: string)

  /** violationPredicate, for the column `c` of table `t`. */
  function ViolationPredicate(e: Engine, r: Rule, c: Target): Result<Pred, string> {
    match r.expectation
    case NotNull => Ok(Neg(SqlNonBlank()))
    case Unique => Ok(Both(SqlNonBlank(), InRepeated(Col, Col, c.table, c.column, SqlNonBlank())))
    case Positive => Ok(Both(SqlNonBlank(), Number(Col, true, SqlLogic.AtMost(0.0))))
    case NonNegative => Ok(Both(SqlNonBlank(), Number(Col, true, Below(0.0))))
    case OneOf =>
      if r.values == [] then Err("its values were never materialized")
      else Ok(Both(SqlNonBlank(), Neg(In(ComparableLeft(r), Literals(PermittedTexts(e, r))))))
    case Matching => Ok(Both(SqlNonBlank(), Neg(FullMatch(Trim(Col), r.pattern))))
    case Range =>
      var low := if r.min.Some? then [Number(Col, false, Below(r.min.value))] else [];
      var high := if r.max.Some? then [Number(Col, false, Above(r.max.value))] else [];
      var conds := low + high;
      if conds == [] then Err("neither min nor max")
      else Ok(Both(SqlNonBlank(), if |conds| == 1 then conds[0] else Either(conds[0], conds[1])))
    case NotFuture => Ok(Both(SqlNonBlank(), AfterNow(Col)))
    case References =>
      (match Cut(r.references)
       case None => Err("references must be written as table.column")
       case Some(ref) =>
         Ok(Both(SqlNonBlank(),
                 Neg(InSelect(ComparableLeft(r), ComparableLeft(r), ref.table, ref.column, Always)))))
    case Sql => Ok(Clause(r.clause))
    case Unstated => Err("unknown expectation")
    case Unrecognized(_) => Err("unknown expectation")
  }

  /** evaluateOne's exemption of missing values, where the rule asks for it. */
  function Guarded(r: Rule, onColumn: bool, p: Pred): (g: Pred)
    ensures forall db: Database :: Names(db, p) ==> Names(db, g)
  {
    if onColumn && r.allowMissing then
      var present := Both(SqlNonBlank(), Neg(SqlIsSentinel()));
      assert forall db: Database :: Names(db, Neg(SqlIsSentinel()));
      assert forall db: Database :: Names(db, present);
      Both(present, p)
    else p
  }

  // ---- what a rule declares -------------------------------------------------------------

  predicate IsPlaceholder(e: Engine, v: Cell) { FoldsInto(e, v, TEXT_PLACEHOLDERS) }

  function Comparable(e: Engine, r: Rule, v: string): string { if r.ignoreCase then Fold(e, v) else v }

  /** Where a number is asked for, text that is none counts as zero. */
  function AsNumber(e: Engine, v: string): real {
    match e.toDouble(v) case None => 0.0 case Some(x) => x
  }

  predicate OutOfRange(r: Rule, x: real) {
    (r.min.Some? && x < r.min.value) || (r.max.Some? && x > r.max.value)
  }

  /** The expectation, declared on cells.  `cells` is the whole column, `at` a row
      of it, and `referenced` the column a references rule points to. */
  predicate Breaks(e: Engine, r: Rule, cells: seq<Cell>, at: nat, referenced: seq<Cell>)
    requires at < |cells|
  {
    var v := cells[at];
    match r.expectation
    case NotNull => !HasContent(e, v)
    case _ => HasContent(e, v) && BreaksWithContent(e, r, cells, at, referenced)
  }

  predicate BreaksWithContent(e: Engine, r: Rule, cells: seq<Cell>, at: nat, referenced: seq<Cell>)
    requires at < |cells| && HasContent(e, cells[at])
  {
    var v := cells[at].value;
    match r.expectation
    case Unique => exists j :: 0 <= j < |cells| && j != at && cells[j] == cells[at]
    case Positive => !(AsNumber(e, v) > 0.0)
    case NonNegative => !(AsNumber(e, v) >= 0.0)
    case OneOf => forall w :: w in r.values ==> Comparable(e, r, v) != Comparable(e, r, w)
    case Matching => !e.fullMatch(e.trim(v), r.pattern)
    case Range => e.toDouble(v).Some? && OutOfRange(r, e.toDouble(v).value)
    case NotFuture => e.toTimestamp(v).Some? && e.toTimestamp(v).value > e.now
    case References =>
      forall w :: w in referenced && w.Some? ==> Comparable(e, r, v) != Comparable(e, r, w.value)
    case _ => false
  }

  predicate Exempt(e: Engine, r: Rule, v: Cell) {
    r.allowMissing && (!HasContent(e, v) || IsPlaceholder(e, v))
  }

  /** Go's folding of a permitted value and the engine's folding of a cell agree. */
  ghost predicate FoldsAgree(e: Engine) { forall v :: GoFold(e, v) == Fold(e, v) }

  function Referenced(db: Database, r: Rule): seq<Cell> {
    match Cut(r.references)
    case None => []
    case Some(ref) => if ref.table in db && ref.column in db[ref.table] then db[ref.table][ref.column] else []
  }

  lemma ComparableCell(e: Engine, r: Rule, v: Cell)
    ensures EvalScalar(e, ComparableLeft(r), v) == if v.None? then None else Some(Comparable(e, r, v.value))
  {
    FoldedCell(e, v);
  }

  // ---- compiled meaning equals declared meaning ----------------------------------------

  /** Whatever Validate accepts compiles, once its values are filled in. */
  lemma AcceptedRulesCompile(e: Engine, r: Rule, c: Target)
    requires WellFormed(r) && r.valuesFrom == ""
    ensures ViolationPredicate(e, r, c).Ok?
  {
    if r.expectation == References {
      var i :| 0 <= i < |r.references| && r.references[i] == '.';
      assert At(r.references, i, ".");
      IndexOfMeans(r.references, ".");
    }
  }

  lemma OneOfMeans(e: Engine, db: Database, r: Rule, row: Row)
    requires r.values != [] && row.cell.Some?
    requires r.ignoreCase ==> FoldsAgree(e)
    ensures Eval(e, db, In(ComparableLeft(r), Literals(PermittedTexts(e, r))), row) ==
      Known(exists w :: w in r.values && Comparable(e, r, row.cell.value) == Comparable(e, r, w))
  {
    var texts := PermittedTexts(e, r);
    var key := Comparable(e, r, row.cell.value);
    ComparableCell(e, r, row.cell);
    LiteralCandidates(e, texts, row.cell);
    InMeans(Some(key), EvalScalars(e, Literals(texts), row.cell));
    if key in texts {
      var i :| 0 <= i < |texts| && texts[i] == key;
      assert r.values[i] in r.values && Comparable(e, r, r.values[i]) == key;
    }
    if w :| w in r.values && key == Comparable(e, r, w) {
      var i :| 0 <= i < |r.values| && r.values[i] == w;
      assert texts[i] == key;
    }
  }

  /** Among the cells with content of a column, which ones another row repeats. */
  lemma RepeatedContent(e: Engine, db: Database, table: string, cells: seq<Cell>, at: nat)
    requires at < |cells| && HasContent(e, cells[at])
    ensures In3(cells[at], Repeated(Pick(Verdicts(e, db, SqlNonBlank(), table, cells), cells))) ==
      Known(exists j :: 0 <= j < |cells| && j != at && cells[j] == cells[at])
  {
    var verdicts := Verdicts(e, db, SqlNonBlank(), table, cells);
    forall j | 0 <= j < |cells| ensures verdicts[j] == Known(HasContent(e, cells[j])) {
      ContentVerdicts(e, db, table, cells, j);
    }
    InRepeatedMeans(verdicts, cells, at);
  }

  lemma ColumnItself(e: Engine, cells: seq<Cell>)
    ensures Values(e, Col, cells) == cells
  {
  }

  lemma UniqueMeans(e: Engine, db: Database, c: Target, at: nat)
    requires c.table in db && c.column in db[c.table] && at < |db[c.table][c.column]|
    requires HasContent(e, db[c.table][c.column][at])
    ensures var cells := db[c.table][c.column];
      Eval(e, db, InRepeated(Col, Col, c.table, c.column, SqlNonBlank()), Row(c.table, at, cells[at])) ==
        Known(exists j :: 0 <= j < |cells| && j != at && cells[j] == cells[at])
  {
    var cells := db[c.table][c.column];
    var unique := InRepeated(Col, Col, c.table, c.column, SqlNonBlank());
    var verdicts := Verdicts(e, db, SqlNonBlank(), c.table, cells);
    ColumnItself(e, cells);
    assert Eval(e, db, unique, Row(c.table, at, cells[at])) == In3(cells[at], Repeated(Pick(verdicts, cells)));
    RepeatedContent(e, db, c.table, cells, at);
  }

  /** NOT IN over an unfiltered subquery: true only if nothing matches and, besides,
      the referenced column holds no NULL. */
  lemma ReferencesMeans(e: Engine, db: Database, r: Rule, ref: Reference, row: Row)
    requires ref.table in db && ref.column in db[ref.table] && row.cell.Some?
    ensures var source := db[ref.table][ref.column];
      Eval(e, db, Neg(InSelect(ComparableLeft(r), ComparableLeft(r), ref.table, ref.column, Always)), row) == True <==>
        None !in source &&
        forall w :: w in source && w.Some? ==> Comparable(e, r, row.cell.value) != Comparable(e, r, w.value)
  {
    ComparableCell(e, r, row.cell);
    ReferencedKeys(e, db, r, ref, Comparable(e, r, row.cell.value));
  }

  lemma ReferencedKeys(e: Engine, db: Database, r: Rule, ref: Reference, key: string)
    requires ref.table in db && ref.column in db[ref.table]
    ensures var source := db[ref.table][ref.column];
      var picked := Pick(Verdicts(e, db, Always, ref.table, source), Values(e, ComparableLeft(r), source));
      In3(Some(key), picked) == False <==>
        None !in source && forall w :: w in source && w.Some? ==> key != Comparable(e, r, w.value)
  {
    var source := db[ref.table][ref.column];
    var verdicts, values := Verdicts(e, db, Always, ref.table, source), Values(e, ComparableLeft(r), source);
    InPickMeans(verdicts, values, key);
    YieldsReferenced(e, db, r, ref, None);
    YieldsReferenced(e, db, r, ref, Some(key));
  }

  lemma YieldsReferenced(e: Engine, db: Database, r: Rule, ref: Reference, x: Cell)
    requires ref.table in db && ref.column in db[ref.table]
    ensures var source := db[ref.table][ref.column];
      Yields(Verdicts(e, db, Always, ref.table, source), Values(e, ComparableLeft(r), source), x) <==>
        exists w :: w in source && x == (if w.None? then None else Some(Comparable(e, r, w.value)))
  {
    var source := db[ref.table][ref.column];
    var verdicts, values := Verdicts(e, db, Always, ref.table, source), Values(e, ComparableLeft(r), source);
    forall j | 0 <= j < |source|
      ensures verdicts[j] == True
      ensures values[j] == if source[j].None? then None else Some(Comparable(e, r, source[j].value))
    {
      ComparableCell(e, r, source[j]);
    }
    if j :| 0 <= j < |source| && values[j] == x {
      assert source[j] in source;
    }
    if w :| w in source && x == (if w.None? then None else Some(Comparable(e, r, w.value))) {
      var j :| 0 <= j < |source| && source[j] == w;
      assert verdicts[j] == True && values[j] == x;
    }
  }

  ghost predicate SelectsBreaking(e: Engine, db: Database, r: Rule, c: Target, at: nat, p: Pred)
    requires c.table in db && c.column in db[c.table] && at < |db[c.table][c.column]| && Names(db, p)
  {
    var cells := db[c.table][c.column];
    Eval(e, db, p, Row(c.table, at, cells[at])) == True <==>
      Breaks(e, r, cells, at, Referenced(db, r)) && (r.expectation == References ==> None !in Referenced(db, r))
  }

  lemma ContentGuard(e: Engine, db: Database, q: Pred, row: Row)
    requires Names(db, Both(SqlNonBlank(), q))
    ensures Eval(e, db, Both(SqlNonBlank(), q), row) == True <==>
      HasContent(e, row.cell) && Eval(e, db, q, row) == True
  {
    NonBlankMeansContent(e, db, row);
  }

  lemma RangeMeans(e: Engine, db: Database, r: Rule, c: Target, cells: seq<Cell>, at: nat, q: Pred)
    requires at < |cells| && HasContent(e, cells[at]) && r.expectation == Range
    requires ViolationPredicate(e, r, c) == Ok(Both(SqlNonBlank(), q)) && Names(db, q)
    ensures Eval(e, db, q, Row(c.table, at, cells[at])) == True <==> BreaksWithContent(e, r, cells, at, [])
  {
    var row := Row(c.table, at, cells[at]);
    if r.min.Some? && r.max.Some? {
      var low, high := Number(Col, false, Below(r.min.value)), Number(Col, false, Above(r.max.value));
      assert q == Either(low, high);
      assert Eval(e, db, q, row) == Or3(Eval(e, db, low, row), Eval(e, db, high, row));
    }
  }

  /** The expectations about one value on its own. */
  lemma ValueExpectationMeans(e: Engine, db: Database, r: Rule, c: Target, cells: seq<Cell>, at: nat, q: Pred)
    requires at < |cells| && HasContent(e, cells[at])
    requires r.expectation in {Positive, NonNegative, Matching, Range, NotFuture}
    requires ViolationPredicate(e, r, c) == Ok(Both(SqlNonBlank(), q)) && Names(db, q)
    ensures Eval(e, db, q, Row(c.table, at, cells[at])) == True <==> BreaksWithContent(e, r, cells, at, [])
  {
    if r.expectation == Range {
      RangeMeans(e, db, r, c, cells, at, q);
    } else if r.expectation == Matching {
      assert EvalScalar(e, Trim(Col), cells[at]) == Some(e.trim(cells[at].value));
    }
  }

  lemma ConditionMeans(e: Engine, db: Database, r: Rule, c: Target, at: nat, q: Pred)
    requires WellFormed(r) && r.expectation != Sql && r.expectation != NotNull
    requires c.table in db && c.column in db[c.table] && at < |db[c.table][c.column]|
    requires HasContent(e, db[c.table][c.column][at])
    requires r.ignoreCase ==> FoldsAgree(e)
    requires ViolationPredicate(e, r, c) == Ok(Both(SqlNonBlank(), q)) && Names(db, q)
    ensures var cells := db[c.table][c.column];
      Eval(e, db, q, Row(c.table, at, cells[at])) == True <==>
        BreaksWithContent(e, r, cells, at, Referenced(db, r)) &&
        (r.expectation == References ==> None !in Referenced(db, r))
  {
    var cells := db[c.table][c.column];
    var row := Row(c.table, at, cells[at]);
    if r.expectation == Unique {
      UniqueMeans(e, db, c, at);
    } else if r.expectation == OneOf {
      OneOfMeans(e, db, r, row);
      assert q == Neg(In(ComparableLeft(r), Literals(PermittedTexts(e, r))));
    } else if r.expectation == References {
      ReferencesMeans(e, db, r, Cut(r.references).value, row);
    } else {
      ValueExpectationMeans(e, db, r, c, cells, at, q);
    }
  }

  lemma PredicateSelectsBreaking(e: Engine, db: Database, r: Rule, c: Target, at: nat)
    requires WellFormed(r) && r.valuesFrom == "" && r.expectation != Sql
    requires c.table in db && c.column in db[c.table] && at < |db[c.table][c.column]|
    requires r.ignoreCase ==> FoldsAgree(e)
    requires ViolationPredicate(e, r, c).Ok? && Names(db, ViolationPredicate(e, r, c).value)
    ensures SelectsBreaking(e, db, r, c, at, ViolationPredicate(e, r, c).value)
  {
    var cells := db[c.table][c.column];
    var row := Row(c.table, at, cells[at]);
    var p := ViolationPredicate(e, r, c).value;
    if r.expectation == NotNull {
      NonBlankMeansContent(e, db, row);
    } else {
      assert p.Both? && p.p == SqlNonBlank();
      ContentGuard(e, db, p.q, row);
      if HasContent(e, cells[at]) {
        ConditionMeans(e, db, r, c, at, p.q);
      }
    }
  }

  /** The main theorem: TRUE in three-valued logic exactly on the rows that break
      the declaration and are not exempt as missing.  A references rule selects
      them exactly when its referenced column holds no NULL; with a NULL there it
      selects nothing. */
  lemma CompiledMeansDeclared(e: Engine, db: Database, r: Rule, c: Target, at: nat)
    requires WellFormed(r) && r.valuesFrom == "" && r.expectation != Sql
    requires c.table in db && c.column in db[c.table] && at < |db[c.table][c.column]|
    requires r.ignoreCase ==> FoldsAgree(e)
    requires ViolationPredicate(e, r, c).Ok? && Names(db, ViolationPredicate(e, r, c).value)
    ensures var cells := db[c.table][c.column];
      Eval(e, db, Guarded(r, true, ViolationPredicate(e, r, c).value), Row(c.table, at, cells[at])) == True <==>
        Breaks(e, r, cells, at, Referenced(db, r)) && !Exempt(e, r, cells[at]) &&
        (r.expectation == References ==> None !in Referenced(db, r))
  {
    PredicateSelectsBreaking(e, db, r, c, at);
    GuardedMeans(e, db, r, ViolationPredicate(e, r, c).value, Row(c.table, at, db[c.table][c.column][at]));
  }

  /** allow_missing removes exactly the null, blank and placeholder rows. */
  lemma GuardedMeans(e: Engine, db: Database, r: Rule, p: Pred, row: Row)
    requires Names(db, p)
    ensures Eval(e, db, Guarded(r, true, p), row) == True <==> Eval(e, db, p, row) == True && !Exempt(e, r, row.cell)
  {
    if r.allowMissing {
      PresentMeans(e, db, row);
    }
  }

  lemma PresentMeans(e: Engine, db: Database, row: Row)
    requires Names(db, Both(SqlNonBlank(), Neg(SqlIsSentinel())))
    ensures Eval(e, db, Both(SqlNonBlank(), Neg(SqlIsSentinel())), row) == True <==>
      HasContent(e, row.cell) && !IsPlaceholder(e, row.cell)
  {
    NonBlankMeansContent(e, db, row);
    FoldedInMeans(e, db, TEXT_PLACEHOLDERS, row);
  }

  /** The orphan predicate of a proposed reference (evaluateReference) filters its
      subquery, so NULLs in the parent column do not matter to it. */
  function OrphanPredicate(parent: Reference): (p: Pred)
    ensures forall db: Database :: parent.table in db && parent.column in db[parent.table] ==> Names(db, p)
  {
    var select := InSelect(FOLDED, FOLDED, parent.table, parent.column, SqlNonBlank());
    assert forall db: Database :: parent.table in db && parent.column in db[parent.table] ==> Names(db, select);
    assert forall db: Database :: parent.table in db && parent.column in db[parent.table] ==> Names(db, Neg(select));
    Both(SqlNonBlank(), Neg(select))
  }

  lemma OrphanMeansUnmatched(e: Engine, db: Database, parent: Reference, row: Row)
    requires parent.table in db && parent.column in db[parent.table]
    ensures var source := db[parent.table][parent.column];
      Eval(e, db, OrphanPredicate(parent), row) == True <==>
        HasContent(e, row.cell) &&
        forall w :: w in source && HasContent(e, w) ==> Fold(e, row.cell.value) != Fold(e, w.value)
  {
    var select := InSelect(FOLDED, FOLDED, parent.table, parent.column, SqlNonBlank());
    ContentGuard(e, db, Neg(select), row);
    assert OrphanPredicate(parent) == Both(SqlNonBlank(), Neg(select));
    if HasContent(e, row.cell) {
      SelectMeans(e, db, parent, row);
      assert Eval(e, db, Neg(select), row) == Not3(Eval(e, db, select, row));
    }
  }

  lemma SelectMeans(e: Engine, db: Database, parent: Reference, row: Row)
    requires parent.table in db && parent.column in db[parent.table] && HasContent(e, row.cell)
    ensures var source := db[parent.table][parent.column];
      Eval(e, db, InSelect(FOLDED, FOLDED, parent.table, parent.column, SqlNonBlank()), row) ==
        Known(exists w :: w in source && HasContent(e, w) && Fold(e, row.cell.value) == Fold(e, w.value))
  {
    FoldedCell(e, row.cell);
    SelectedFolds(e, db, parent, Fold(e, row.cell.value));
  }

  lemma SelectedFolds(e: Engine, db: Database, parent: Reference, key: string)
    requires parent.table in db && parent.column in db[parent.table]
    ensures var source := db[parent.table][parent.column];
      In3(Some(key), Pick(Verdicts(e, db, SqlNonBlank(), parent.table, source), Values(e, FOLDED, source))) ==
        Known(exists w :: w in source && HasContent(e, w) && key == Fold(e, w.value))
  {
    var source := db[parent.table][parent.column];
    InPickMeans(Verdicts(e, db, SqlNonBlank(), parent.table, source), Values(e, FOLDED, source), key);
    YieldsContent(e, db, parent.table, source, None);
    YieldsContent(e, db, parent.table, source, Some(key));
  }

  lemma ContentVerdicts(e: Engine, db: Database, table: string, source: seq<Cell>, j: nat)
    requires j < |source|
    ensures Verdicts(e, db, SqlNonBlank(), table, source)[j] == Known(HasContent(e, source[j]))
  {
    NonBlankMeansContent(e, db, Row(table, j, source[j]));
  }

  lemma YieldsContent(e: Engine, db: Database, table: string, source: seq<Cell>, x: Cell)
    ensures Yields(Verdicts(e, db, SqlNonBlank(), table, source), Values(e, FOLDED, source), x) <==>
      exists w :: w in source && HasContent(e, w) && x == Some(Fold(e, w.value))
  {
    var verdicts, values := Verdicts(e, db, SqlNonBlank(), table, source), Values(e, FOLDED, source);
    forall j | 0 <= j < |source|
      ensures verdicts[j] == Known(HasContent(e, source[j]))
      ensures source[j].Some? ==> values[j] == Some(Fold(e, source[j].value))
    {
      ContentVerdicts(e, db, table, source, j);
      FoldedCell(e, source[j]);
    }
    if j :| 0 <= j < |source| && verdicts[j] == True && values[j] == x {
      assert source[j] in source;
    }
    if w :| w in source && HasContent(e, w) && x == Some(Fold(e, w.value)) {
      var j :| 0 <= j < |source| && source[j] == w;
      assert verdicts[j] == True && values[j] == x;
    }
  }
}
