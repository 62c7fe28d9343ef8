/** The two reporting pipelines of lib/risk-helpers.ts, and what their outputs mean. */
module RiskReports {
  import opened Sequences
  import opened PipelineSemantics

  const MS_PER_DAY := 24 * 60 * 60 * 1000

  // ---------------------------------------------------------------- repeated failures

  /** The options of the report; dates are milliseconds. */
  datatype FailureOptions = FailureOptions(threshold: real, daysFrame: int, now: int,
                                           userField: string, dateField: string)

  function WindowStart(o: FailureOptions): int {
    o.now - o.daysFrame * MS_PER_DAY
  }

  function FailedConditions(o: FailureOptions): map<string, Condition> {
    map["status" := In({"Failed", "FAILED"})][o.dateField := Since(WindowStart(o))]
  }

  function FailureOutputs(o: FailureOptions): map<string, Accumulator> {
    map["failedCount" := CountDocuments, "latestFailure" := MaxOf(o.dateField)]
  }

  function BuildRepeatedFailedTransactionsPipeline(o: FailureOptions): seq<Stage> {
    [Match(FailedConditions(o)),
     Group(o.userField, FailureOutputs(o)),
     Match(map["failedCount" := GreaterThan(o.threshold)]),
     Sort("failedCount", false)]
  }

  /**
   A failed record inside the window of days. A date field called "status" takes the place of the
   condition on the status.
   */
  predicate Failed(o: FailureOptions, doc: Document) {
    && (o.dateField == "status"
        || ("status" in doc && (doc["status"] == Text("Failed") || doc["status"] == Text("FAILED"))))
    && o.dateField in doc && doc[o.dateField].Date?
    && doc[o.dateField].d >= o.now - o.daysFrame * 86400000
  }

  /** The record belongs to `user`; records without one belong to null. */
  predicate BelongsTo(o: FailureOptions, user: Value, doc: Document) {
    if o.userField !in doc || doc[o.userField] == Missing then user == Null else user == doc[o.userField]
  }

  predicate FailedFor(o: FailureOptions, user: Value, doc: Document) {
    Failed(o, doc) && BelongsTo(o, user, doc)
  }

  lemma KeyIsUser(o: FailureOptions, user: Value, doc: Document)
    ensures Key(doc, o.userField) == user <==> BelongsTo(o, user, doc)
  {
  }

  /** Two failed records count for the same user exactly if their user fields are equal, or both null or missing. */
  lemma CountTogetherIff(o: FailureOptions, a: Document, b: Document)
    requires Failed(o, a) && Failed(o, b)
    ensures (exists user :: FailedFor(o, user, a) && FailedFor(o, user, b)) <==>
            || (o.userField in a && o.userField in b && a[o.userField] == b[o.userField])
            || ((o.userField !in a || a[o.userField] in {Missing, Null})
                && (o.userField !in b || b[o.userField] in {Missing, Null}))
    ensures (exists user :: FailedFor(o, user, a) && FailedFor(o, user, b)) <==>
            Key(a, o.userField) == Key(b, o.userField)
  {
    assert FailedFor(o, Key(a, o.userField), a) && FailedFor(o, Key(b, o.userField), b);
  }

  /** How many failed records a user has in the window. */
  function FailedCount(o: FailureOptions, docs: seq<Document>, user: Value): nat {
    if docs == [] then 0
    else FailedCount(o, docs[..|docs| - 1], user) + if FailedFor(o, user, docs[|docs| - 1]) then 1 else 0
  }

  /** `latest` is the date of the user's last failed record in the window. */
  ghost predicate IsLatest(o: FailureOptions, docs: seq<Document>, user: Value, latest: int) {
    && (exists doc: Document :: doc in docs && FailedFor(o, user, doc) && doc[o.dateField] == Date(latest))
    && (forall doc: Document :: doc in docs && FailedFor(o, user, doc) ==> doc[o.dateField].d <= latest)
  }

  /** The row of a user: who, how often, and when last. */
  function ReportRow(user: Value, count: nat, latest: int): Document {
    map["_id" := user, "failedCount" := Number(count as real), "latestFailure" := Date(latest)]
  }

  /** The report has a row for the user. */
  ghost predicate Names(output: seq<Document>, user: Value) {
    exists r :: r in output && "_id" in r && r["_id"] == user
  }

  /** The report that the pipeline is documented to give. */
  ghost predicate RepeatedFailures(o: FailureOptions, docs: seq<Document>, output: seq<Document>) {
    && (forall user :: Names(output, user) <==>
          FailedCount(o, docs, user) > 0 && FailedCount(o, docs, user) as real > o.threshold)
    && (forall r :: r in output ==> IsReportRow(o, docs, r))
    && (forall i, j :: 0 <= i < j < |output| ==> Precedes(o, docs, output[i], output[j]))
  }

  /** Two rows of different users, the first with at least as many failures. */
  predicate Precedes(o: FailureOptions, docs: seq<Document>, a: Document, b: Document) {
    && "_id" in a && "_id" in b && a["_id"] != b["_id"]
    && FailedCount(o, docs, a["_id"]) >= FailedCount(o, docs, b["_id"])
  }

  ghost predicate IsReportRow(o: FailureOptions, docs: seq<Document>, r: Document) {
    exists user, latest :: r == ReportRow(user, FailedCount(o, docs, user), latest) && IsLatest(o, docs, user, latest)
  }

  lemma FailedMatches(o: FailureOptions, doc: Document)
    ensures Matches(doc, FailedConditions(o)) <==> Failed(o, doc)
  {
    var c := FailedConditions(o);
    assert o.dateField in c && c[o.dateField] == Since(WindowStart(o));
    if o.dateField != "status" {
      assert "status" in c && c["status"] == In({"Failed", "FAILED"});
    }
  }

  /** The selected documents of a user, as the pipeline groups them. */
  function Failures(o: FailureOptions, docs: seq<Document>, user: Value): seq<Document> {
    Members(Filter(docs, FailedConditions(o)), o.userField, user)
  }

  lemma {:induction false} FailuresCounted(o: FailureOptions, docs: seq<Document>, user: Value)
    ensures |Failures(o, docs, user)| == FailedCount(o, docs, user)
  {
    if docs != [] {
      var n := |docs| - 1;
      KeyIsUser(o, user, docs[n]);
      FailuresCounted(o, docs[..n], user);
      FailedMatches(o, docs[n]);
      var rest := Filter(docs[..n], FailedConditions(o));
      if Failed(o, docs[n]) {
        assert (rest + [docs[n]])[..|rest|] == rest;
      } else {
        assert Filter(docs, FailedConditions(o)) == rest;
      }
    }
  }

  lemma FailuresAre(o: FailureOptions, docs: seq<Document>, user: Value)
    ensures forall doc :: doc in Failures(o, docs, user) <==> doc in docs && FailedFor(o, user, doc)
  {
    FilterKeeps(docs, FailedConditions(o));
    MembersKeep(Filter(docs, FailedConditions(o)), o.userField, user);
    forall doc
      ensures Matches(doc, FailedConditions(o)) <==> Failed(o, doc)
      ensures Key(doc, o.userField) == user <==> BelongsTo(o, user, doc)
    {
      FailedMatches(o, doc);
      KeyIsUser(o, user, doc);
    }
  }

  lemma {:induction false} GreatestDate(docs: seq<Document>, field: string)
    requires forall doc :: doc in docs ==> Field(doc, field).Date?
    ensures docs == [] ==> Greatest(docs, field).Null?
    ensures docs != [] ==>
              && Greatest(docs, field).Date?
              && (exists doc :: doc in docs && Field(doc, field) == Greatest(docs, field))
              && (forall doc :: doc in docs ==> Field(doc, field).d <= Greatest(docs, field).d)
  {
    if docs != [] {
      var n := |docs| - 1;
      assert docs == docs[..n] + [docs[n]];
      GreatestDate(docs[..n], field);
      assert docs[n] in docs;
      if n > 0 && Greatest(docs, field) != Field(docs[n], field) {
        var doc :| doc in docs[..n] && Field(doc, field) == Greatest(docs[..n], field);
        assert doc in docs;
      }
    }
  }

  /** The row of a group holds its key, its size, and the greatest of its dates. */
  lemma RowIs(o: FailureOptions, docs: seq<Document>, user: Value)
    requires Greatest(Failures(o, docs, user), o.dateField).Date?
    ensures Row(Filter(docs, FailedConditions(o)), o.userField, user, FailureOutputs(o)) ==
            ReportRow(user, |Failures(o, docs, user)|, Greatest(Failures(o, docs, user), o.dateField).d)
  {
    var r := Row(Filter(docs, FailedConditions(o)), o.userField, user, FailureOutputs(o));
    assert r["failedCount"] == Accumulate(Failures(o, docs, user), CountDocuments);
    assert r["latestFailure"] == Accumulate(Failures(o, docs, user), MaxOf(o.dateField));
  }

  lemma GreatestIsLatest(o: FailureOptions, docs: seq<Document>, user: Value)
    requires FailedCount(o, docs, user) > 0
    ensures Greatest(Failures(o, docs, user), o.dateField).Date?
    ensures IsLatest(o, docs, user, Greatest(Failures(o, docs, user), o.dateField).d)
  {
    FailuresCounted(o, docs, user);
    FailuresAre(o, docs, user);
    var failures := Failures(o, docs, user);
    GreatestDate(failures, o.dateField);
    var last :| last in failures && Field(last, o.dateField) == Greatest(failures, o.dateField);
    assert last in docs && FailedFor(o, user, last);
  }

  /** A user with failures has a row with their number and the date of the last one. */
  lemma FailureRow(o: FailureOptions, docs: seq<Document>, user: Value)
    requires FailedCount(o, docs, user) > 0
    ensures IsReportRow(o, docs, Row(Filter(docs, FailedConditions(o)), o.userField, user, FailureOutputs(o)))
  {
    FailuresCounted(o, docs, user);
    GreatestIsLatest(o, docs, user);
    RowIs(o, docs, user);
  }

  lemma HasFailures(o: FailureOptions, docs: seq<Document>, user: Value)
    ensures HasKey(Filter(docs, FailedConditions(o)), o.userField, user) <==> FailedCount(o, docs, user) > 0
  {
    FailuresCounted(o, docs, user);
    var selected := Filter(docs, FailedConditions(o));
    MembersKeep(selected, o.userField, user);
    if FailedCount(o, docs, user) > 0 {
      assert Failures(o, docs, user)[0] in Failures(o, docs, user);
    }
    if HasKey(selected, o.userField, user) {
      var doc :| doc in selected && Key(doc, o.userField) == user;
      assert doc in Failures(o, docs, user);
    }
  }

  lemma {:induction false} FilterKeepsDistinct(docs: seq<Document>, c: map<string, Condition>)
    requires Distinct(docs)
    ensures Distinct(Filter(docs, c))
  {
    if docs != [] {
      var n := |docs| - 1;
      FilterKeepsDistinct(docs[..n], c);
      FilterKeeps(docs[..n], c);
      var rest := Filter(docs[..n], c);
      assert forall i :: 0 <= i < |rest| ==> rest[i] in rest;
    }
  }

  lemma PermutationKeepsDistinct(a: seq<Document>, b: seq<Document>)
    requires multiset(a) == multiset(b)
    requires Distinct(a)
    ensures Distinct(b)
  {
    forall i, j | 0 <= i < j < |b|
      ensures b[i] != b[j]
    {
      if b[i] == b[j] {
        assert b == b[..i] + [b[i]] + b[i + 1..j] + [b[j]] + b[j + 1..];
        assert multiset(b)[b[i]] >= 2;
        OnceEach(a, b[i]);
      }
    }
  }

  lemma {:induction false} OnceEach(a: seq<Document>, doc: Document)
    requires Distinct(a)
    ensures multiset(a)[doc] <= 1
  {
    if a != [] {
      var n := |a| - 1;
      assert a == a[..n] + [a[n]];
      OnceEach(a[..n], doc);
      if a[n] == doc {
        assert doc !in a[..n];
      }
    }
  }

  lemma Intermediate(stages: seq<Stage>, docs: seq<Document>, output: seq<Document>) returns (next: seq<Document>)
    requires stages != [] && Produces(stages, docs, output)
    ensures Emits(stages[0], docs, next) && Produces(stages[1..], next, output)
  {
    next :| Emits(stages[0], docs, next) && Produces(stages[1..], next, output);
  }

  /** The rows of the grouping tell the truth, one for each user with failures. */
  lemma RowsTellTheTruth(o: FailureOptions, docs: seq<Document>, rows: seq<Document>)
    requires Groups(Filter(docs, FailedConditions(o)), o.userField, FailureOutputs(o), rows)
    ensures forall r :: r in rows ==> IsReportRow(o, docs, r)
    ensures forall user :: Names(rows, user) <==> FailedCount(o, docs, user) > 0
  {
    forall user
      ensures HasRow(rows, user) <==> FailedCount(o, docs, user) > 0
    {
      HasFailures(o, docs, user);
    }
    forall r | r in rows
      ensures IsReportRow(o, docs, r)
    {
      assert HasRow(rows, Field(r, "_id"));
      FailureRow(o, docs, Field(r, "_id"));
    }
    forall user
      ensures Names(rows, user) <==> HasRow(rows, user)
    {
    }
  }

  lemma OverThreshold(o: FailureOptions, rows: seq<Document>, over: seq<Document>)
    requires over == Filter(rows, map["failedCount" := GreaterThan(o.threshold)])
    ensures forall r :: r in over <==> r in rows && Meets(Field(r, "failedCount"), GreaterThan(o.threshold))
  {
    var c := map["failedCount" := GreaterThan(o.threshold)];
    FilterKeeps(rows, c);
    forall r
      ensures Matches(r, c) <==> Meets(Field(r, "failedCount"), GreaterThan(o.threshold))
    {
      assert "failedCount" in c;
    }
  }

  /** What the rows of a grouping are, and which of them exceed the threshold. */
  lemma RowsOverThreshold(o: FailureOptions, docs: seq<Document>, rows: seq<Document>, over: seq<Document>)
    requires Groups(Filter(docs, FailedConditions(o)), o.userField, FailureOutputs(o), rows)
    requires over == Filter(rows, map["failedCount" := GreaterThan(o.threshold)])
    ensures forall r :: r in over ==> IsReportRow(o, docs, r)
    ensures forall user :: Names(over, user) <==>
              FailedCount(o, docs, user) > 0 && FailedCount(o, docs, user) as real > o.threshold
    ensures Distinct(over)
  {
    FilterKeepsDistinct(rows, map["failedCount" := GreaterThan(o.threshold)]);
    RowsTellTheTruth(o, docs, rows);
    OverThreshold(o, rows, over);
    forall user
      ensures Names(over, user) <==>
              FailedCount(o, docs, user) > 0 && FailedCount(o, docs, user) as real > o.threshold
    {
      UserOverThreshold(o, docs, rows, over, user);
    }
  }

  lemma UserOverThreshold(o: FailureOptions, docs: seq<Document>, rows: seq<Document>, over: seq<Document>, user: Value)
    requires forall r :: r in rows ==> IsReportRow(o, docs, r)
    requires Names(rows, user) <==> FailedCount(o, docs, user) > 0
    requires forall r :: r in over <==> r in rows && Meets(Field(r, "failedCount"), GreaterThan(o.threshold))
    ensures Names(over, user) <==>
            FailedCount(o, docs, user) > 0 && FailedCount(o, docs, user) as real > o.threshold
  {
    if Names(over, user) {
      var r :| r in over && "_id" in r && r["_id"] == user;
      assert r in rows && IsReportRow(o, docs, r);
    } else if Names(rows, user) {
      var r :| r in rows && "_id" in r && r["_id"] == user;
      assert r !in over && IsReportRow(o, docs, r);
    }
  }

  /**
   Main result: every output of the repeated-failures pipeline is the documented report: one row
   per user over the threshold, with the exact count and last date, in descending order of count.
   */
  lemma RepeatedFailuresAreReported(o: FailureOptions, docs: seq<Document>, output: seq<Document>)
    requires Produces(BuildRepeatedFailedTransactionsPipeline(o), docs, output)
    ensures RepeatedFailures(o, docs, output)
  {
    var p := BuildRepeatedFailedTransactionsPipeline(o);
    var selected := Intermediate(p, docs, output);
    var rows := Intermediate(p[1..], selected, output);
    var over := Intermediate(p[2..], rows, output);
    var sorted := Intermediate(p[3..], over, output);
    assert p[1..][1..] == p[2..] && p[2..][1..] == p[3..] && p[3..][1..] == [];
    RowsOverThreshold(o, docs, rows, over);
    SortedRowsReport(o, docs, over, output);
  }

  lemma SortedRowsReport(o: FailureOptions, docs: seq<Document>, over: seq<Document>, output: seq<Document>)
    requires forall r :: r in over ==> IsReportRow(o, docs, r)
    requires forall user :: Names(over, user) <==>
               FailedCount(o, docs, user) > 0 && FailedCount(o, docs, user) as real > o.threshold
    requires Distinct(over)
    requires Emits(Sort("failedCount", false), over, output)
    ensures RepeatedFailures(o, docs, output)
  {
    PermutationKeepsDistinct(over, output);
    SameElements(over, output);
    forall user
      ensures Names(output, user) <==> Names(over, user)
    {
    }
    forall i, j | 0 <= i < j < |output|
      ensures Precedes(o, docs, output[i], output[j])
    {
      assert output[i] in output && output[j] in output;
      RowsInOrder(o, docs, output[i], output[j]);
    }
  }

  lemma SameElements(a: seq<Document>, b: seq<Document>)
    requires multiset(a) == multiset(b)
    ensures forall doc :: doc in a <==> doc in b
  {
    assert forall doc :: doc in a <==> doc in multiset(a);
  }

  lemma OneLatest(o: FailureOptions, docs: seq<Document>, user: Value, a: int, b: int)
    requires IsLatest(o, docs, user, a) && IsLatest(o, docs, user, b)
    ensures a == b
  {
  }

  lemma RowsInOrder(o: FailureOptions, docs: seq<Document>, a: Document, b: Document)
    requires IsReportRow(o, docs, a) && IsReportRow(o, docs, b) && a != b
    requires !Before(b, a, "failedCount", false)
    ensures Precedes(o, docs, a, b)
  {
    var user, latest :|
      a == ReportRow(user, FailedCount(o, docs, user), latest) && IsLatest(o, docs, user, latest);
    var other, last :|
      b == ReportRow(other, FailedCount(o, docs, other), last) && IsLatest(o, docs, other, last);
    if user == other {
      OneLatest(o, docs, user, latest, last);
    }
  }

  /** Every collection has such a report: the pipeline never fails. */
  lemma RepeatedFailuresSucceeds(o: FailureOptions, docs: seq<Document>) returns (output: seq<Document>)
    ensures Produces(BuildRepeatedFailedTransactionsPipeline(o), docs, output)
  {
    var p := BuildRepeatedFailedTransactionsPipeline(o);
    var selected := Filter(docs, FailedConditions(o));
    var rows := SomeOrderOfGroups(selected, o.userField, FailureOutputs(o));
    var over := Filter(rows, map["failedCount" := GreaterThan(o.threshold)]);
    output := SomeOrderIsSorted(over, "failedCount", false);
    assert p[1..][1..] == p[2..] && p[2..][1..] == p[3..] && p[3..][1..] == [];
    assert Produces(p[3..][1..], output, output);
    assert Emits(p[3], over, output) && Produces(p[3..], over, output);
    assert Emits(p[2], rows, over) && Produces(p[2..], rows, output);
    assert Emits(p[1], selected, rows) && Produces(p[1..], selected, output);
    assert Emits(p[0], docs, selected);
  }

  // ---------------------------------------------------------------- monotonicity

  /** `wide` asks for no fewer days and no higher threshold than `narrow`, of the same records. */
  predicate Wider(narrow: FailureOptions, wide: FailureOptions) {
    && wide.threshold <= narrow.threshold && narrow.daysFrame <= wide.daysFrame
    && wide.now == narrow.now && wide.userField == narrow.userField && wide.dateField == narrow.dateField
  }

  lemma {:induction false} WiderCountsMore(narrow: FailureOptions, wide: FailureOptions,
                                           docs: seq<Document>, user: Value)
    requires Wider(narrow, wide)
    ensures FailedCount(narrow, docs, user) <= FailedCount(wide, docs, user)
  {
    if docs != [] {
      WiderCountsMore(narrow, wide, docs[..|docs| - 1], user);
    }
  }

  lemma SameLatest(narrow: FailureOptions, wide: FailureOptions, docs: seq<Document>, user: Value, a: int, b: int)
    requires Wider(narrow, wide)
    requires IsLatest(narrow, docs, user, a) && IsLatest(wide, docs, user, b)
    ensures a == b
  {
    var doc: Document :| doc in docs && FailedFor(narrow, user, doc) && doc[narrow.dateField] == Date(a);
    assert FailedFor(wide, user, doc);
    var last: Document :| last in docs && FailedFor(wide, user, last) && last[wide.dateField] == Date(b);
    assert FailedFor(narrow, user, last);
  }

  /** A reported row is that of its user. */
  lemma RowOfUser(o: FailureOptions, docs: seq<Document>, user: Value, count: nat, latest: int)
    requires IsReportRow(o, docs, ReportRow(user, count, latest))
    ensures count == FailedCount(o, docs, user) && IsLatest(o, docs, user, latest)
  {
    var r := ReportRow(user, count, latest);
    var who, when :| r == ReportRow(who, FailedCount(o, docs, who), when) && IsLatest(o, docs, who, when);
    assert r["_id"] == who && r["failedCount"] == Number(FailedCount(o, docs, who) as real);
    assert r["latestFailure"] == Date(when);
  }

  /**
   Main result: lowering the threshold or widening the window only adds users, and a user reported
   before keeps the date of the last failure and has at least as many failures.
   */
  lemma WiderReportsMore(narrow: FailureOptions, wide: FailureOptions, docs: seq<Document>,
                         small: seq<Document>, large: seq<Document>, user: Value, count: nat, latest: int)
    requires Wider(narrow, wide)
    requires Produces(BuildRepeatedFailedTransactionsPipeline(narrow), docs, small)
    requires Produces(BuildRepeatedFailedTransactionsPipeline(wide), docs, large)
    requires ReportRow(user, count, latest) in small
    ensures exists more: nat :: count <= more && ReportRow(user, more, latest) in large
  {
    RepeatedFailuresAreReported(narrow, docs, small);
    RepeatedFailuresAreReported(wide, docs, large);
    RowOfUser(narrow, docs, user, count, latest);
    assert ReportRow(user, count, latest)["_id"] == user;
    assert Names(small, user);
    WiderCountsMore(narrow, wide, docs, user);
    assert Names(large, user);
    var q :| q in large && "_id" in q && q["_id"] == user;
    var who, when :| q == ReportRow(who, FailedCount(wide, docs, who), when) && IsLatest(wide, docs, who, when);
    assert who == user;
    SameLatest(narrow, wide, docs, user, latest, when);
    assert q == ReportRow(user, FailedCount(wide, docs, user), latest);
  }

  // ---------------------------------------------------------------- underperforming pools

  datatype PoolOptions = PoolOptions(expectedField: string, actualField: string, tolerance: real)

  const POOL_CONDITIONS: map<string, Condition> := map["status" := In({"OPEN", "FUNDED", "ACTIVE"})]

  function RatioOf(o: PoolOptions): Expression {
    IfGreater(Ref(o.expectedField), Literal(0.0),
              Divide(Ref(o.actualField), Ref(o.expectedField)),
              Literal(1.0))
  }

  function BuildUnderperformingPoolsPipeline(o: PoolOptions): seq<Stage> {
    [Match(POOL_CONDITIONS),
     AddField("performanceRatio", RatioOf(o)),
     Match(map["performanceRatio" := LessThan(o.tolerance)]),
     Sort("performanceRatio", true)]
  }

  /** A pool that is open, funded or active. */
  predicate Live(doc: Document) {
    && "status" in doc
    && (doc["status"] == Text("OPEN") || doc["status"] == Text("FUNDED") || doc["status"] == Text("ACTIVE"))
  }

  /** The value of a field, where null is as good as none. */
  function Amount(doc: Document, field: string): Value {
    if field in doc && doc[field] != Null then doc[field] else Missing
  }

  /** What the database takes to be more than zero: positive numbers, and all texts and dates. */
  predicate BeyondZero(v: Value) {
    match v
    case Missing | Null => false
    case Number(n) => n > 0.0
    case Text(_) | Date(_) => true
  }

  /** The amounts can be divided: a target beyond zero is a number, and so is what it is compared with, if anything. */
  predicate Divisible(o: PoolOptions, doc: Document) {
    var expected, actual := Amount(doc, o.expectedField), Amount(doc, o.actualField);
    BeyondZero(expected) ==> actual == Missing || (expected.Number? && actual.Number?)
  }

  /** The value of the ratio expression: raised by target, or 1 without a target. */
  function Ratio(o: PoolOptions, doc: Document): Value
    requires Divisible(o, doc)
  {
    var expected, actual := Amount(doc, o.expectedField), Amount(doc, o.actualField);
    if !BeyondZero(expected) then Number(1.0)
    else if actual == Missing then Null
    else Number(actual.n / expected.n)
  }

  /** The ratio is never a division by zero, and it fails exactly on amounts that are not numbers. */
  lemma RatioNeverDividesByZero(o: PoolOptions, doc: Document)
    ensures !Eval(RatioOf(o), doc).DivisionByZero?
    ensures Eval(RatioOf(o), doc).Ok? <==> Divisible(o, doc)
    ensures Divisible(o, doc) ==> Eval(RatioOf(o), doc) == Ok(Ratio(o, doc))
  {
    var expected, actual := Ref(o.expectedField), Ref(o.actualField);
    assert Eval(Literal(0.0), doc) == Ok(Number(0.0)) && Eval(Literal(1.0), doc) == Ok(Number(1.0));
    assert Eval(expected, doc) == Ok(Field(doc, o.expectedField));
    assert Eval(Divide(actual, expected), doc) == Quotient(Field(doc, o.actualField), Field(doc, o.expectedField));
  }

  /** The test without a division: raised less than the tolerated share of a positive target. */
  predicate Underperforms(o: PoolOptions, doc: Document) {
    var expected, actual := Amount(doc, o.expectedField), Amount(doc, o.actualField);
    if BeyondZero(expected) then expected.Number? && actual.Number? && actual.n < o.tolerance * expected.n
    else 1.0 < o.tolerance
  }

  lemma CrossMultiplied(a: real, e: real, tolerance: real)
    requires e > 0.0
    ensures a / e < tolerance <==> a < tolerance * e
  {
    var q := a / e;
    assert q * e == a;
    if q < tolerance {
      assert q * e < tolerance * e;
    } else {
      assert q * e >= tolerance * e;
    }
  }

  lemma RatioTestsPerformance(o: PoolOptions, doc: Document)
    requires Divisible(o, doc)
    ensures Meets(Ratio(o, doc), LessThan(o.tolerance)) <==> Underperforms(o, doc)
  {
    var expected, actual := Amount(doc, o.expectedField), Amount(doc, o.actualField);
    if expected.Number? && actual.Number? && expected.n > 0.0 {
      CrossMultiplied(actual.n, expected.n, o.tolerance);
    }
  }

  /** A pool with its ratio. */
  function Rated(o: PoolOptions, doc: Document): Document
    requires Divisible(o, doc)
  {
    doc["performanceRatio" := Ratio(o, doc)]
  }

  /** The live pools that underperform, each with its ratio, in the order of the collection. */
  function Underperformers(o: PoolOptions, docs: seq<Document>): seq<Document>
    requires forall doc :: doc in docs && Live(doc) ==> Divisible(o, doc)
  {
    if docs == [] then []
    else
      var n := |docs| - 1;
      assert docs[n] in docs;
      Underperformers(o, docs[..n])
      + if Live(docs[n]) && Underperforms(o, docs[n]) then [Rated(o, docs[n])] else []
  }

  lemma LiveMatches(doc: Document)
    ensures Matches(doc, POOL_CONDITIONS) <==> Live(doc)
  {
    assert "status" in POOL_CONDITIONS;
  }

  lemma RatioMatches(o: PoolOptions, doc: Document)
    requires Divisible(o, doc)
    ensures Matches(Rated(o, doc), map["performanceRatio" := LessThan(o.tolerance)]) <==> Underperforms(o, doc)
  {
    var c := map["performanceRatio" := LessThan(o.tolerance)];
    assert "performanceRatio" in c;
    RatioTestsPerformance(o, doc);
  }

  /** The stage that adds the ratio works on the documents one by one. */
  lemma RatedFront(o: PoolOptions, rest: seq<Document>, last: Document, rated: seq<Document>)
    requires Emits(AddField("performanceRatio", RatioOf(o)), rest + [last], rated)
    ensures |rated| == |rest| + 1 && Emits(AddField("performanceRatio", RatioOf(o)), rest, rated[..|rest|])
    ensures Eval(RatioOf(o), last).Ok?
    ensures rated[|rest|] == last["performanceRatio" := Eval(RatioOf(o), last).value]
  {
    var live := rest + [last];
    assert live[|rest|] == last;
    forall i | 0 <= i < |rest|
      ensures Eval(RatioOf(o), rest[i]).Ok?
      ensures rated[..|rest|][i] == rest[i]["performanceRatio" := Eval(RatioOf(o), rest[i]).value]
    {
      assert live[i] == rest[i];
    }
  }

  /** Selecting, rating and testing in three stages gives the underperformers. */
  lemma {:induction false} StagesUnderperform(o: PoolOptions, docs: seq<Document>, rated: seq<Document>)
    requires Emits(AddField("performanceRatio", RatioOf(o)), Filter(docs, POOL_CONDITIONS), rated)
    ensures forall doc :: doc in docs && Live(doc) ==> Divisible(o, doc)
    ensures Filter(rated, map["performanceRatio" := LessThan(o.tolerance)]) == Underperformers(o, docs)
  {
    if docs != [] {
      var n := |docs| - 1;
      var live, rest := Filter(docs, POOL_CONDITIONS), Filter(docs[..n], POOL_CONDITIONS);
      LiveMatches(docs[n]);
      assert docs == docs[..n] + [docs[n]];
      if Live(docs[n]) {
        assert live == rest + [docs[n]];
        RatedFront(o, rest, docs[n], rated);
        RatioNeverDividesByZero(o, docs[n]);
        StagesUnderperform(o, docs[..n], rated[..|rest|]);
        RatioMatches(o, docs[n]);
        assert rated[|rest|] == Rated(o, docs[n]);
      } else {
        assert live == rest;
        StagesUnderperform(o, docs[..n], rated);
      }
    }
  }

  /**
   Main result: every output of the underperforming-pools pipeline is the collection's
   underperformers by the cross-multiplied test, none missing or doubled, in ascending order of ratio.
   */
  lemma UnderperformersAreReported(o: PoolOptions, docs: seq<Document>, output: seq<Document>)
    requires Produces(BuildUnderperformingPoolsPipeline(o), docs, output)
    ensures forall doc :: doc in docs && Live(doc) ==> Divisible(o, doc)
    ensures multiset(output) == multiset(Underperformers(o, docs))
    ensures forall i :: 0 <= i < |output| ==> "performanceRatio" in output[i] && output[i]["performanceRatio"].Number?
    ensures forall i, j :: 0 <= i < j < |output| ==>
              output[i]["performanceRatio"].n <= output[j]["performanceRatio"].n
  {
    var p := BuildUnderperformingPoolsPipeline(o);
    var live := Intermediate(p, docs, output);
    var rated := Intermediate(p[1..], live, output);
    var under := Intermediate(p[2..], rated, output);
    var sorted := Intermediate(p[3..], under, output);
    assert p[1..][1..] == p[2..] && p[2..][1..] == p[3..] && p[3..][1..] == [];
    StagesUnderperform(o, docs, rated);
    SortedUnderperformers(o, docs, output);
  }

  lemma {:induction false} UnderperformersAreRated(o: PoolOptions, docs: seq<Document>, r: Document)
    requires forall doc :: doc in docs && Live(doc) ==> Divisible(o, doc)
    requires r in Underperformers(o, docs)
    ensures "performanceRatio" in r && r["performanceRatio"].Number?
  {
    var n := |docs| - 1;
    assert docs[n] in docs;
    if r in Underperformers(o, docs[..n]) {
      UnderperformersAreRated(o, docs[..n], r);
    }
  }

  lemma SortedUnderperformers(o: PoolOptions, docs: seq<Document>, output: seq<Document>)
    requires forall doc :: doc in docs && Live(doc) ==> Divisible(o, doc)
    requires multiset(output) == multiset(Underperformers(o, docs)) && Sorted(output, "performanceRatio", true)
    ensures forall i :: 0 <= i < |output| ==> "performanceRatio" in output[i] && output[i]["performanceRatio"].Number?
    ensures forall i, j :: 0 <= i < j < |output| ==>
              output[i]["performanceRatio"].n <= output[j]["performanceRatio"].n
  {
    SameElements(output, Underperformers(o, docs));
    forall i | 0 <= i < |output|
      ensures "performanceRatio" in output[i] && output[i]["performanceRatio"].Number?
    {
      assert output[i] in output;
      UnderperformersAreRated(o, docs, output[i]);
    }
    forall i, j | 0 <= i < j < |output|
      ensures output[i]["performanceRatio"].n <= output[j]["performanceRatio"].n
    {
      assert !Before(output[j], output[i], "performanceRatio", true);
    }
  }

  /** The report exists exactly when the amounts of all live pools can be divided. */
  lemma UnderperformersSucceedIff(o: PoolOptions, docs: seq<Document>)
    ensures (exists output :: Produces(BuildUnderperformingPoolsPipeline(o), docs, output)) <==>
            (forall doc :: doc in docs && Live(doc) ==> Divisible(o, doc))
  {
    var p := BuildUnderperformingPoolsPipeline(o);
    if output :| Produces(p, docs, output) {
      UnderperformersAreReported(o, docs, output);
    }
    if forall doc :: doc in docs && Live(doc) ==> Divisible(o, doc) {
      var output := UnderperformersOutput(o, docs);
      assert Produces(p, docs, output);
    }
  }

  lemma ProducesNext(stages: seq<Stage>, docs: seq<Document>, next: seq<Document>, output: seq<Document>)
    requires stages != [] && Emits(stages[0], docs, next) && Produces(stages[1..], next, output)
    ensures Produces(stages, docs, output)
  {
  }

  lemma UnderperformersOutput(o: PoolOptions, docs: seq<Document>) returns (output: seq<Document>)
    requires forall doc :: doc in docs && Live(doc) ==> Divisible(o, doc)
    ensures Produces(BuildUnderperformingPoolsPipeline(o), docs, output)
  {
    var p := BuildUnderperformingPoolsPipeline(o);
    var live := Filter(docs, POOL_CONDITIONS);
    FilterKeeps(docs, POOL_CONDITIONS);
    forall doc | doc in live
      ensures Divisible(o, doc) && Eval(RatioOf(o), doc) == Ok(Ratio(o, doc))
    {
      LiveMatches(doc);
      RatioNeverDividesByZero(o, doc);
    }
    var rated := seq(|live|, i requires 0 <= i < |live| => assert live[i] in live; Rated(o, live[i]));
    var under := Filter(rated, map["performanceRatio" := LessThan(o.tolerance)]);
    output := SomeOrderIsSorted(under, "performanceRatio", true);
    assert p[1..][1..] == p[2..] && p[2..][1..] == p[3..] && p[3..][1..] == [];
    ProducesNext(p[3..], under, output, output);
    ProducesNext(p[2..], rated, under, output);
    ProducesNext(p[1..], live, rated, output);
    ProducesNext(p, docs, live, output);
  }

  /** With a tolerance of at most 1, no pool without a positive target is ever reported. */
  lemma ZeroTargetsAreNotReported(o: PoolOptions, docs: seq<Document>, i: nat)
    requires forall doc :: doc in docs && Live(doc) ==> Divisible(o, doc)
    requires i < |Underperformers(o, docs)| && o.tolerance <= 1.0
    ensures exists doc :: doc in docs && Live(doc) && Divisible(o, doc) && Underperformers(o, docs)[i] == Rated(o, doc)
                          && Amount(doc, o.expectedField).Number? && Amount(doc, o.expectedField).n > 0.0
  {
    var n := |docs| - 1;
    assert docs[n] in docs;
    var rest := Underperformers(o, docs[..n]);
    if i < |rest| {
      ZeroTargetsAreNotReported(o, docs[..n], i);
    }
  }
}
