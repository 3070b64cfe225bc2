/** pages/api/admin/analytics.ts: the admin dashboard's statistics. The
    handler builds one WHERE clause from the optional filters, keeping its
    `?` placeholders in lock-step with a parameter list, splices it into each
    of its queries (twice where a query has a sub-select) and sums the daily
    trend counts. */
module Analytics {
  import opened Base
  import opened Rows
  import opened Sql

  /** The query parameters; an absent one is "". */
  datatype Filters = Filters(startDate: string, endDate: string, status: string, kind: string)

  /** `WHERE 1=1` */
  const BaseClause: Sql.Text := [Word("WHERE"), Word("1=1")]
  /** `status` and `type` take this value to mean "no filter". */
  const NoFilter := "all"

  /** ` AND <column> <op> ?` */
  function Condition(column: string, op: string): Sql.Text
  {
    [Word("AND"), Word(column), Word(op)] + [Hole]
  }

  lemma ConditionHoles(column: string, op: string)
    ensures Holes(Condition(column, op)) == 1
  {
    var words: Sql.Text := [Word("AND"), Word(column), Word(op)];
    PlainHoles(words);
    HolesAppend(words, [Hole]);
    assert [Hole][1..] == [];
  }

  /** Which filters add a term: a present start or end date, and a present
      status or type other than 'all'. */
  predicate HasStart(f: Filters) { f.startDate != "" }
  predicate HasEnd(f: Filters) { f.endDate != "" }
  predicate HasStatus(f: Filters) { f.status != "" && f.status != NoFilter }
  predicate HasKind(f: Filters) { f.kind != "" && f.kind != NoFilter }

  const StartCondition := Condition("createdAt", ">=")
  const EndCondition := Condition("createdAt", "<=")
  const StatusCondition := Condition("status", "=")
  const KindCondition := Condition("complaintType", "=")

  /** A piece that is there only when its filter is. */
  function Part<T>(present: bool, piece: seq<T>): seq<T>
  {
    if present then piece else []
  }

  /** The clause the filters call for: one AND-term per filter present, in
      the fixed order start date, end date, status, type. */
  function Clause(f: Filters): Sql.Text
  {
    BaseClause + Part(HasStart(f), StartCondition) + Part(HasEnd(f), EndCondition) +
    Part(HasStatus(f), StatusCondition) + Part(HasKind(f), KindCondition)
  }

  /** The parameters, one per term and in the same order. */
  function Params(f: Filters): seq<string>
  {
    Part(HasStart(f), [f.startDate]) + Part(HasEnd(f), [f.endDate]) +
    Part(HasStatus(f), [f.status]) + Part(HasKind(f), [f.kind])
  }

  /** Appending a one-placeholder piece when present adds one placeholder. */
  lemma AppendPart(clause: Sql.Text, present: bool, c: Sql.Text)
    requires Holes(c) == 1
    ensures Holes(clause + Part(present, c)) == Holes(clause) + |Part(present, [0])|
  {
    HolesAppend(clause, Part(present, c));
    if !present {
      PlainHoles([]);
    }
  }

  /** A clause without placeholders followed by four optional
      one-placeholder pieces holds one placeholder per piece present. */
  lemma FourParts(base: Sql.Text, pa: bool, a: Sql.Text, pb: bool, b: Sql.Text, pc: bool, c: Sql.Text, pd: bool, d: Sql.Text)
    requires Plain(base) && Holes(a) == 1 && Holes(b) == 1 && Holes(c) == 1 && Holes(d) == 1
    ensures Holes(base + Part(pa, a) + Part(pb, b) + Part(pc, c) + Part(pd, d)) ==
            |Part(pa, [0]) + Part(pb, [0]) + Part(pc, [0]) + Part(pd, [0])|
  {
    PlainHoles(base);
    AppendPart(base, pa, a);
    AppendPart(base + Part(pa, a), pb, b);
    AppendPart(base + Part(pa, a) + Part(pb, b), pc, c);
    AppendPart(base + Part(pa, a) + Part(pb, b) + Part(pc, c), pd, d);
  }

  /** The clause holds exactly as many placeholders as there are parameters. */
  lemma ClauseLockStep(f: Filters)
    ensures Holes(Clause(f)) == |Params(f)|
  {
    ConditionHoles("createdAt", ">=");
    ConditionHoles("createdAt", "<=");
    ConditionHoles("status", "=");
    ConditionHoles("complaintType", "=");
    FourParts(BaseClause, HasStart(f), StartCondition, HasEnd(f), EndCondition,
              HasStatus(f), StatusCondition, HasKind(f), KindCondition);
  }

  /** A status or type of 'all' filters nothing: it adds no term and no
      parameter, exactly as if it were absent; and there are never more than
      four parameters. */
  lemma AllAddsNothing(f: Filters)
    ensures Clause(f.(status := NoFilter)) == Clause(f.(status := "")) && Params(f.(status := NoFilter)) == Params(f.(status := ""))
    ensures Clause(f.(kind := NoFilter)) == Clause(f.(kind := "")) && Params(f.(kind := NoFilter)) == Params(f.(kind := ""))
    ensures |Params(f)| <= 4
  {
  }

  /** Without filters the clause is `WHERE 1=1` and nothing is bound; with
      all four the parameters are the four values in order. */
  lemma ClauseExtremes(f: Filters)
    ensures !HasStart(f) && !HasEnd(f) && !HasStatus(f) && !HasKind(f) ==> Clause(f) == BaseClause && Params(f) == []
    ensures HasStart(f) && HasEnd(f) && HasStatus(f) && HasKind(f) ==> Params(f) == [f.startDate, f.endDate, f.status, f.kind]
  {
  }

  /** `whereClause +=` and `params.push` for each filter present. The result
      is the clause and parameter list the filters call for, and the two stay
      in lock-step. */
  method BuildWhere(f: Filters) returns (clause: Sql.Text, params: seq<string>)
    ensures clause == Clause(f) && params == Params(f)
    ensures Holes(clause) == |params|
  {
    clause, params := BaseClause, [];
    if f.startDate != "" {
      clause, params := clause + StartCondition, params + [f.startDate];
    }
    assert clause == BaseClause + Part(HasStart(f), StartCondition);
    if f.endDate != "" {
      clause, params := clause + EndCondition, params + [f.endDate];
    }
    assert clause == BaseClause + Part(HasStart(f), StartCondition) + Part(HasEnd(f), EndCondition);
    if f.status != "" && f.status != NoFilter {
      clause, params := clause + StatusCondition, params + [f.status];
    }
    assert clause == BaseClause + Part(HasStart(f), StartCondition) + Part(HasEnd(f), EndCondition) +
                     Part(HasStatus(f), StatusCondition);
    if f.kind != "" && f.kind != NoFilter {
      clause, params := clause + KindCondition, params + [f.kind];
    }
    ClauseLockStep(f);
  }

  // ---------------------------------------------------------------------
  // The statements

  /** The handler's queries, in the order it runs them. */
  datatype QueryKind =
    | Trend | TypeDistribution | StatusDistribution | ResolutionTime
    | MonthlyComparison | HourlyDistribution | TopExamTypes | ResponseStats

  /** An executed statement: which query it is, the filter text spliced into
      its fixed SQL (once, twice, or not at all), and the parameters passed.
      The fixed SQL of every query holds no placeholder of its own. */
  datatype Statement = Statement(kind: QueryKind, spliced: seq<Sql.Text>, params: seq<string>)

  function SplicedPlaceholders(spliced: seq<Sql.Text>): nat
  {
    if spliced == [] then 0 else SplicedPlaceholders(spliced[..|spliced| - 1]) + Holes(spliced[|spliced| - 1])
  }

  /** The driver binds every parameter: as many placeholders as parameters. */
  predicate Bound(st: Statement)
  {
    SplicedPlaceholders(st.spliced) == |st.params|
  }

  /** `WHERE c.id IS NOT NULL` */
  const JoinedBase: Sql.Text := [Word("WHERE"), Word("c.id"), Word("IS"), Word("NOT"), Word("NULL")]

  /** The response-statistics clause: the opening `WHERE 1=1` becomes
      `WHERE c.id IS NOT NULL` and every `createdAt` is qualified as
      `c.createdAt`. */
  function ResponseClause(clause: Sql.Text): Sql.Text
  {
    ReplaceAll(ReplaceFirst(clause, BaseClause, JoinedBase), [CreatedAt], [QualifiedCreatedAt])
  }

  const CreatedAt := Word("createdAt")
  const QualifiedCreatedAt := Word("c.createdAt")

  /** The rewrite keeps every placeholder and leaves no unqualified
      `createdAt`; a clause opening with `WHERE 1=1` opens with
      `WHERE c.id IS NOT NULL` after the first step. */
  lemma ResponseClausePlaceholders(clause: Sql.Text)
    ensures Holes(ResponseClause(clause)) == Holes(clause)
    ensures CreatedAt !in ResponseClause(clause)
    ensures ReplaceFirst(BaseClause + clause, BaseClause, JoinedBase) == JoinedBase + clause
  {
    ReplaceFirstHoles(clause, BaseClause, JoinedBase);
    ReplaceAllHoles(ReplaceFirst(clause, BaseClause, JoinedBase), [CreatedAt], [QualifiedCreatedAt]);
    ReplaceTokenRemoves(ReplaceFirst(clause, BaseClause, JoinedBase), CreatedAt, [QualifiedCreatedAt]);
    ReplaceFirstAtStart(BaseClause, clause, JoinedBase);
  }

  /** One optional filter term after the `createdAt` rewrite: the date terms
      compare `c.createdAt`, the other terms are unchanged. */
  lemma QualifiedPart(present: bool, column: string, op: string)
    requires op != "createdAt"
    ensures ReplaceAll(Part(present, Condition(column, op)), [CreatedAt], [QualifiedCreatedAt])
            == Part(present, Condition(if column == "createdAt" then "c.createdAt" else column, op))
  {
    if present {
      var c := Condition(column, op);
      assert c == [Word("AND")] + ([Word(column)] + ([Word(op)] + [Hole]));
      ReplaceTokenCons(Word("AND"), [Word(column)] + ([Word(op)] + [Hole]), CreatedAt, [QualifiedCreatedAt]);
      ReplaceTokenCons(Word(column), [Word(op)] + [Hole], CreatedAt, [QualifiedCreatedAt]);
      ReplaceTokenCons(Word(op), [Hole], CreatedAt, [QualifiedCreatedAt]);
      ReplaceTokenAbsent([Hole], CreatedAt, [QualifiedCreatedAt]);
    } else {
      ReplaceTokenAbsent([], CreatedAt, [QualifiedCreatedAt]);
    }
  }

  /** Rewriting a text with no `createdAt` followed by four pieces rewrites
      each piece on its own. */
  lemma RewriteFour(base: Sql.Text, p1: Sql.Text, p2: Sql.Text, p3: Sql.Text, p4: Sql.Text)
    requires CreatedAt !in base
    ensures var w, rep := CreatedAt, [QualifiedCreatedAt];
            ReplaceAll(base + (p1 + (p2 + (p3 + p4))), [w], rep) ==
            base + (ReplaceAll(p1, [w], rep) + (ReplaceAll(p2, [w], rep) + (ReplaceAll(p3, [w], rep) + ReplaceAll(p4, [w], rep))))
  {
    var w, rep := CreatedAt, [QualifiedCreatedAt];
    ReplaceTokenAppend(base, p1 + (p2 + (p3 + p4)), w, rep);
    ReplaceTokenAbsent(base, w, rep);
    ReplaceTokenAppend(p1, p2 + (p3 + p4), w, rep);
    ReplaceTokenAppend(p2, p3 + p4, w, rep);
    ReplaceTokenAppend(p3, p4, w, rep);
  }

  /** The response-statistics clause of a set of filters: `WHERE c.id IS NOT
      NULL`, then the same terms in the same order, the date terms on
      `c.createdAt`. */
  lemma ResponseClauseOfFilters(f: Filters)
    ensures ResponseClause(Clause(f)) ==
            JoinedBase + (Part(HasStart(f), Condition("c.createdAt", ">=")) + (Part(HasEnd(f), Condition("c.createdAt", "<=")) +
            (Part(HasStatus(f), StatusCondition) + Part(HasKind(f), KindCondition))))
  {
    var p1, p2 := Part(HasStart(f), StartCondition), Part(HasEnd(f), EndCondition);
    var p3, p4 := Part(HasStatus(f), StatusCondition), Part(HasKind(f), KindCondition);
    var rest := p1 + (p2 + (p3 + p4));
    assert Clause(f) == BaseClause + rest;
    ReplaceFirstAtStart(BaseClause, rest, JoinedBase);
    RewriteFour(JoinedBase, p1, p2, p3, p4);
    QualifiedPart(HasStart(f), "createdAt", ">=");
    QualifiedPart(HasEnd(f), "createdAt", "<=");
    QualifiedPart(HasStatus(f), "status", "=");
    QualifiedPart(HasKind(f), "complaintType", "=");
  }

  /** The statements run for a clause and its parameters: the two
      distribution queries embed the clause twice and pass the parameters
      twice over; the monthly comparison takes no filter. */
  function Statements(clause: Sql.Text, params: seq<string>): seq<Statement>
  {
    [Statement(Trend, [clause], params),
     Statement(TypeDistribution, [clause, clause], params + params),
     Statement(StatusDistribution, [clause, clause], params + params),
     Statement(ResolutionTime, [clause], params),
     Statement(MonthlyComparison, [], []),
     Statement(HourlyDistribution, [clause], params),
     Statement(TopExamTypes, [clause], params),
     Statement(ResponseStats, [ResponseClause(clause)], params)]
  }

  /** A clause in lock-step with its parameters makes every statement bound,
      the doubled ones included. */
  lemma StatementsBound(clause: Sql.Text, params: seq<string>)
    requires Holes(clause) == |params|
    ensures forall i | 0 <= i < |Statements(clause, params)| :: Bound(Statements(clause, params)[i])
  {
    ResponseClausePlaceholders(clause);
    assert SplicedPlaceholders([clause]) == Holes(clause) by {
      assert [clause][..0] == [];
    }
    assert SplicedPlaceholders([clause, clause]) == 2 * Holes(clause) by {
      assert [clause, clause][..1] == [clause];
    }
  }

  // ---------------------------------------------------------------------
  // The summary

  /** A trend row: a day and its `count`, which may be missing. */
  datatype TrendRow = TrendRow(date: string, count: Option<int>)

  /** `trends.reduce((sum, day) => sum + (day.count || 0), 0)` */
  function Total(rows: seq<TrendRow>): int
  {
    if rows == [] then 0
    else Total(rows[..|rows| - 1]) + DayCount(rows[|rows| - 1])
  }

  function Reverse<T>(s: seq<T>): (r: seq<T>)
    ensures |r| == |s|
    ensures forall i | 0 <= i < |s| :: r[i] == s[|s| - 1 - i]
  {
    if s == [] then [] else [s[|s| - 1]] + Reverse(s[..|s| - 1])
  }

  function DayCount(row: TrendRow): int
  {
    if row.count.Some? then row.count.value else 0
  }

  lemma {:induction false} TotalCons(row: TrendRow, rows: seq<TrendRow>)
    ensures Total([row] + rows) == DayCount(row) + Total(rows)
    decreases |rows|
  {
    if rows != [] {
      var last := rows[|rows| - 1];
      assert ([row] + rows)[..|rows|] == [row] + rows[..|rows| - 1];
      TotalCons(row, rows[..|rows| - 1]);
    } else {
      assert ([row] + rows)[..0] == [];
    }
  }

  /** `trends.reverse()` runs before the summary is computed; the sum is the
      same in either order. */
  lemma {:induction false} TotalReverse(rows: seq<TrendRow>)
    ensures Total(Reverse(rows)) == Total(rows)
  {
    if rows != [] {
      var last := rows[|rows| - 1];
      TotalReverse(rows[..|rows| - 1]);
      assert Reverse(rows) == [last] + Reverse(rows[..|rows| - 1]);
      TotalCons(last, Reverse(rows[..|rows| - 1]));
    }
  }

  /** With counts that are never negative, the total is at least every
      single day's count and never negative. */
  lemma {:induction false} TotalBounds(rows: seq<TrendRow>)
    requires forall i | 0 <= i < |rows| :: DayCount(rows[i]) >= 0
    ensures Total(rows) >= 0
    ensures forall i | 0 <= i < |rows| :: Total(rows) >= DayCount(rows[i])
  {
    if rows != [] {
      TotalBounds(rows[..|rows| - 1]);
    }
  }

  /** The trend query's `LIMIT 30`. */
  const TrendDays: nat := 30

  // ---------------------------------------------------------------------
  // The handler

  /** `adminId` is what verifyAdminAuth returned ("" for none); `days` is the
      per-day grouping of the filtered complaints, newest first, which the
      trend query cuts to its first 30; `fails` says whether any query
      throws. */
  method Handle(verb: Verb, adminId: string, f: Filters, days: seq<TrendRow>, fails: bool)
    returns (status: nat, statements: seq<Statement>, total: int)
    ensures verb != GET ==> status == 405 && statements == []
    ensures verb == GET && adminId == "" ==> status == 401 && statements == []
    ensures verb == GET && adminId != "" ==> statements == Statements(Clause(f), Params(f))
    ensures verb == GET && adminId != "" && fails ==> status == 500
    ensures verb == GET && adminId != "" && !fails ==>
              status == 200 && |statements| == 8 &&
              (forall i | 0 <= i < |statements| :: Bound(statements[i])) &&
              total == Total(Page(days, 0, TrendDays))
  {
    if verb != GET {
      return 405, [], 0;
    }
    if adminId == "" {
      return 401, [], 0;
    }
    var clause, params := BuildWhere(f);
    statements := Statements(clause, params);
    StatementsBound(clause, params);
    if fails {
      return 500, statements, 0;
    }
    var trends := Reverse(Page(days, 0, TrendDays));
    TotalReverse(Page(days, 0, TrendDays));
    status, total := 200, Total(trends);
  }
}
