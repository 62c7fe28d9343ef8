/**
 A denotational semantics for the aggregation stages that lib/risk-helpers.ts builds: which
 outputs a pipeline may produce from a collection. Where the database leaves an order open (groups,
 ties in a sort), every order is an output.
 */
module PipelineSemantics {
  import opened Sequences

  datatype Value = Missing | Null | Number(n: real) | Text(s: string) | Date(d: int)

  type Document = map<string, Value>

  function Field(doc: Document, field: string): Value {
    if field in doc then doc[field] else Missing
  }

  predicate Nullish(v: Value) {
    v.Missing? || v.Null?
  }

  // ---------------------------------------------------------------- the order of values

  function Rank(v: Value): nat {
    match v
    case Missing => 0
    case Null => 1
    case Number(_) => 2
    case Text(_) => 3
    case Date(_) => 4
  }

  predicate TextLess(a: string, b: string) {
    b != [] && (a == [] || a[0] < b[0] || (a[0] == b[0] && TextLess(a[1..], b[1..])))
  }

  /** The order in which the database compares values of any types. */
  predicate Less(a: Value, b: Value) {
    || Rank(a) < Rank(b)
    || (a.Number? && b.Number? && a.n < b.n)
    || (a.Text? && b.Text? && TextLess(a.s, b.s))
    || (a.Date? && b.Date? && a.d < b.d)
  }

  // ---------------------------------------------------------------- queries

  /** A condition of a $match on one field; a comparison holds only for values of the bound's own type. */
  datatype Condition = In(texts: set<string>) | Since(limit: int) | GreaterThan(bound: real) | LessThan(bound: real)

  predicate Meets(v: Value, c: Condition) {
    match c
    case In(texts) => v.Text? && v.s in texts
    case Since(limit) => v.Date? && v.d >= limit
    case GreaterThan(bound) => v.Number? && v.n > bound
    case LessThan(bound) => v.Number? && v.n < bound
  }

  predicate Matches(doc: Document, conditions: map<string, Condition>) {
    forall f :: f in conditions ==> Meets(Field(doc, f), conditions[f])
  }

  function Filter(docs: seq<Document>, conditions: map<string, Condition>): seq<Document> {
    if docs == [] then []
    else
      var n := |docs| - 1;
      Filter(docs[..n], conditions) + if Matches(docs[n], conditions) then [docs[n]] else []
  }

  // ---------------------------------------------------------------- expressions

  datatype Expression =
    | Ref(field: string)
    | Literal(n: real)
    | Divide(dividend: Expression, divisor: Expression)
    | IfGreater(left: Expression, right: Expression, yes: Expression, no: Expression)

  datatype Result = Ok(value: Value) | DivisionByZero | NotNumeric

  function Quotient(a: Value, b: Value): Result {
    if Nullish(a) || Nullish(b) then Ok(Null)
    else if !a.Number? || !b.Number? then NotNumeric
    else if b.n == 0.0 then DivisionByZero
    else Ok(Number(a.n / b.n))
  }

  function Eval(e: Expression, doc: Document): Result {
    match e
    case Ref(field) => Ok(Field(doc, field))
    case Literal(n) => Ok(Number(n))
    case Divide(dividend, divisor) =>
      var a, b := Eval(dividend, doc), Eval(divisor, doc);
      if !a.Ok? then a else if !b.Ok? then b else Quotient(a.value, b.value)
    case IfGreater(left, right, yes, no) =>
      var a, b := Eval(left, doc), Eval(right, doc);
      if !a.Ok? then a else if !b.Ok? then b
      else if Less(b.value, a.value) then Eval(yes, doc) else Eval(no, doc)
  }

  // ---------------------------------------------------------------- groups

  datatype Accumulator = CountDocuments | MaxOf(field: string)

  /** The group of a document; a missing key falls into the group of null. */
  function Key(doc: Document, field: string): Value {
    if Field(doc, field).Missing? then Null else Field(doc, field)
  }

  function Members(docs: seq<Document>, field: string, key: Value): seq<Document> {
    if docs == [] then []
    else
      var n := |docs| - 1;
      Members(docs[..n], field, key) + if Key(docs[n], field) == key then [docs[n]] else []
  }

  /** The greatest value of a field that is not null or missing, or null. */
  function Greatest(docs: seq<Document>, field: string): Value {
    if docs == [] then Null
    else
      var best, v := Greatest(docs[..|docs| - 1], field), Field(docs[|docs| - 1], field);
      if !Nullish(v) && (best.Null? || Less(best, v)) then v else best
  }

  function Accumulate(members: seq<Document>, a: Accumulator): Value {
    match a
    case CountDocuments => Number(|members| as real)
    case MaxOf(field) => Greatest(members, field)
  }

  /** The row of one group. */
  function Row(docs: seq<Document>, field: string, key: Value, outputs: map<string, Accumulator>): Document {
    (map name | name in outputs :: Accumulate(Members(docs, field, key), outputs[name]))["_id" := key]
  }

  // ---------------------------------------------------------------- stages

  datatype Stage =
    | Match(conditions: map<string, Condition>)
    | Group(field: string, outputs: map<string, Accumulator>)
    | AddField(name: string, expression: Expression)
    | Sort(field: string, ascending: bool)

  predicate Before(a: Document, b: Document, field: string, ascending: bool) {
    if ascending then Less(Field(a, field), Field(b, field)) else Less(Field(b, field), Field(a, field))
  }

  ghost predicate Sorted(docs: seq<Document>, field: string, ascending: bool) {
    forall i, j :: 0 <= i < j < |docs| ==> !Before(docs[j], docs[i], field, ascending)
  }

  predicate HasKey(docs: seq<Document>, field: string, key: Value) {
    exists doc :: doc in docs && Key(doc, field) == key
  }

  predicate HasRow(rows: seq<Document>, key: Value) {
    exists r :: r in rows && Field(r, "_id") == key
  }

  /** `output` has one row per group of `docs`, in some order. */
  ghost predicate Groups(docs: seq<Document>, field: string, outputs: map<string, Accumulator>, output: seq<Document>) {
    && (forall r :: r in output ==> r == Row(docs, field, Field(r, "_id"), outputs))
    && (forall key :: HasRow(output, key) <==> HasKey(docs, field, key))
    && Distinct(output)
  }

  /** The stage may turn `docs` into `output`; a failing expression has no output. */
  ghost predicate Emits(stage: Stage, docs: seq<Document>, output: seq<Document>) {
    match stage
    case Match(conditions) => output == Filter(docs, conditions)
    case Group(field, outputs) => Groups(docs, field, outputs, output)
    case AddField(name, expression) =>
      && |output| == |docs|
      && (forall i :: 0 <= i < |docs| ==>
            Eval(expression, docs[i]).Ok? && output[i] == docs[i][name := Eval(expression, docs[i]).value])
    case Sort(field, ascending) =>
      multiset(output) == multiset(docs) && Sorted(output, field, ascending)
  }

  ghost predicate Produces(stages: seq<Stage>, docs: seq<Document>, output: seq<Document>) {
    if stages == [] then output == docs
    else exists next :: Emits(stages[0], docs, next) && Produces(stages[1..], next, output)
  }

  // ---------------------------------------------------------------- filters

  lemma {:induction false} FilterKeeps(docs: seq<Document>, conditions: map<string, Condition>)
    ensures forall doc :: doc in Filter(docs, conditions) <==> doc in docs && Matches(doc, conditions)
    ensures |Filter(docs, conditions)| <= |docs|
  {
    if docs != [] {
      var n := |docs| - 1;
      FilterKeeps(docs[..n], conditions);
      assert docs == docs[..n] + [docs[n]];
    }
  }

  lemma {:induction false} MembersKeep(docs: seq<Document>, field: string, key: Value)
    ensures forall doc :: doc in Members(docs, field, key) <==> doc in docs && Key(doc, field) == key
  {
    if docs != [] {
      var n := |docs| - 1;
      MembersKeep(docs[..n], field, key);
      assert docs == docs[..n] + [docs[n]];
    }
  }

  // ---------------------------------------------------------------- the order of values, spelled out

  /** A value of one type comes before every value of a later type. */
  lemma TypesInOrder(n: real, s: string, d: int)
    ensures Less(Missing, Null) && Less(Null, Number(n)) && Less(Number(n), Text(s)) && Less(Text(s), Date(d))
    ensures Less(Missing, Number(n)) && Less(Missing, Text(s)) && Less(Missing, Date(d))
    ensures Less(Null, Text(s)) && Less(Null, Date(d)) && Less(Number(n), Date(d))
  {
  }

  /** The texts agree on their first `k` characters, and then the first one ends or has the lesser character. */
  predicate LessAt(a: string, b: string, k: nat) {
    k <= |a| && k < |b| && a[..k] == b[..k] && (k == |a| || a[k] < b[k])
  }

  lemma LessAtTail(a: string, b: string, k: nat)
    requires a != [] && b != [] && a[0] == b[0]
    ensures LessAt(a, b, k + 1) <==> LessAt(a[1..], b[1..], k)
    ensures !LessAt(a, b, 0)
  {
    if k < |a| && k < |b| {
      assert a[..k + 1] == [a[0]] + a[1..][..k] && b[..k + 1] == [b[0]] + b[1..][..k];
    }
  }

  /** Texts are compared by their first difference; a start of a text comes before it. */
  lemma {:induction false} TextLessIff(a: string, b: string)
    ensures TextLess(a, b) <==> exists k: nat :: LessAt(a, b, k)
  {
    if a == [] || b == [] {
      assert b != [] ==> LessAt(a, b, 0);
    } else if a[0] == b[0] {
      TextLessIff(a[1..], b[1..]);
      LessAtTail(a, b, 0);
      if k: nat :| LessAt(a[1..], b[1..], k) {
        LessAtTail(a, b, k);
      }
      if k: nat :| LessAt(a, b, k) {
        assert k > 0;
        LessAtTail(a, b, k - 1);
      }
    } else {
      assert a[0] < b[0] ==> LessAt(a, b, 0);
      forall k: nat | 0 < k <= |a| && k < |b|
        ensures a[..k] != b[..k]
      {
        assert a[..k][0] == a[0] && b[..k][0] == b[0];
      }
    }
  }

  // ---------------------------------------------------------------- every pipeline without failures has an output

  lemma {:induction false} LessIsTotal(a: string, b: string)
    ensures TextLess(a, b) ==> !TextLess(b, a)
  {
    if a != [] && b != [] {
      LessIsTotal(a[1..], b[1..]);
    }
  }

  lemma {:induction false} TextOrder(a: string, b: string, c: string)
    requires !TextLess(b, a) && !TextLess(c, b)
    ensures !TextLess(c, a)
  {
    if a != [] && b != [] && c != [] && a[0] == b[0] == c[0] {
      TextOrder(a[1..], b[1..], c[1..]);
    }
  }

  lemma ValueOrder(a: Value, b: Value, c: Value)
    ensures Less(a, b) ==> !Less(b, a)
    ensures !Less(b, a) && !Less(c, b) ==> !Less(c, a)
  {
    if a.Text? && b.Text? {
      LessIsTotal(a.s, b.s);
      if c.Text? && !TextLess(b.s, a.s) && !TextLess(c.s, b.s) {
        TextOrder(a.s, b.s, c.s);
      }
    }
  }

  /** Puts a document behind the last one that does not come after it. */
  function Insert(docs: seq<Document>, doc: Document, field: string, ascending: bool): seq<Document> {
    if docs != [] && Before(doc, docs[|docs| - 1], field, ascending)
    then Insert(docs[..|docs| - 1], doc, field, ascending) + [docs[|docs| - 1]]
    else docs + [doc]
  }

  lemma BeforeOrder(a: Document, b: Document, c: Document, field: string, ascending: bool)
    ensures Before(a, b, field, ascending) ==> !Before(b, a, field, ascending)
    ensures !Before(b, a, field, ascending) && !Before(c, b, field, ascending) ==> !Before(c, a, field, ascending)
  {
    ValueOrder(Field(a, field), Field(b, field), Field(c, field));
    ValueOrder(Field(c, field), Field(b, field), Field(a, field));
    ValueOrder(Field(b, field), Field(a, field), Field(c, field));
  }

  lemma {:induction false} InsertPermutes(docs: seq<Document>, doc: Document, field: string, ascending: bool)
    ensures multiset(Insert(docs, doc, field, ascending)) == multiset(docs) + multiset{doc}
  {
    if docs != [] && Before(doc, docs[|docs| - 1], field, ascending) {
      InsertPermutes(docs[..|docs| - 1], doc, field, ascending);
      assert docs == docs[..|docs| - 1] + [docs[|docs| - 1]];
    }
  }

  lemma {:induction false} InsertSorts(docs: seq<Document>, doc: Document, field: string, ascending: bool)
    requires Sorted(docs, field, ascending)
    ensures Sorted(Insert(docs, doc, field, ascending), field, ascending)
  {
    if docs != [] {
      var front, last := docs[..|docs| - 1], docs[|docs| - 1];
      if Before(doc, last, field, ascending) {
        InsertSorts(front, doc, field, ascending);
        InsertPermutes(front, doc, field, ascending);
        var s := Insert(front, doc, field, ascending);
        forall i | 0 <= i < |s|
          ensures !Before(last, s[i], field, ascending)
        {
          assert s[i] in multiset(s);
          BeforeOrder(doc, last, last, field, ascending);
        }
      } else {
        forall i | 0 <= i < |docs|
          ensures !Before(doc, docs[i], field, ascending)
        {
          BeforeOrder(docs[i], last, doc, field, ascending);
        }
      }
    }
  }

  lemma {:induction false} SomeOrderIsSorted(docs: seq<Document>, field: string, ascending: bool)
    returns (output: seq<Document>)
    ensures Emits(Sort(field, ascending), docs, output)
  {
    if docs == [] {
      output := [];
    } else {
      var rest := SomeOrderIsSorted(docs[..|docs| - 1], field, ascending);
      output := Insert(rest, docs[|docs| - 1], field, ascending);
      InsertSorts(rest, docs[|docs| - 1], field, ascending);
      InsertPermutes(rest, docs[|docs| - 1], field, ascending);
      assert docs == docs[..|docs| - 1] + [docs[|docs| - 1]];
    }
  }

  /** The keys of a collection, once each. */
  lemma {:induction false} SomeKeys(docs: seq<Document>, field: string) returns (keys: seq<Value>)
    ensures forall key :: key in keys <==> HasKey(docs, field, key)
    ensures Distinct(keys)
  {
    if docs == [] {
      keys := [];
    } else {
      var n := |docs| - 1;
      keys := SomeKeys(docs[..n], field);
      var key := Key(docs[n], field);
      if key !in keys {
        keys := keys + [key];
      }
      assert docs == docs[..n] + [docs[n]];
    }
  }

  lemma SomeOrderOfGroups(docs: seq<Document>, field: string, outputs: map<string, Accumulator>)
    returns (output: seq<Document>)
    ensures Emits(Group(field, outputs), docs, output)
  {
    var keys := SomeKeys(docs, field);
    output := seq(|keys|, i requires 0 <= i < |keys| => Row(docs, field, keys[i], outputs));
    forall key
      ensures HasRow(output, key) <==> HasKey(docs, field, key)
    {
      if key in keys {
        var i :| 0 <= i < |keys| && keys[i] == key;
        assert output[i] in output && Field(output[i], "_id") == key;
      }
      if HasRow(output, key) {
        var r :| r in output && Field(r, "_id") == key;
        var i :| 0 <= i < |output| && output[i] == r;
        assert keys[i] in keys && key == keys[i];
      }
    }
    forall i, j | 0 <= i < j < |output|
      ensures output[i] != output[j]
    {
      assert Field(output[i], "_id") == keys[i] && Field(output[j], "_id") == keys[j];
    }
  }
}
