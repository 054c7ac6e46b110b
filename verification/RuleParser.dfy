/** Rule conditions, their evaluation and the verdict over a list of rules:
    pkg/engine/parser.go, executor.go and the loop of engine.go. */
module RuleParser {
  import opened Common

  /** A value of the evaluated data; Other stands for booleans, nulls and objects. */
  datatype Value = Str(s: string) | Int(i: int) | Float(f: real) | List(items: seq<Value>) | Other(tag: int)

  type Data = map<string, Value>

  datatype Condition = Condition(id: string, field: string, operator: string, value: string)

  datatype Rule = Rule(id: string, appId: string, name: string, priority: int, isEnabled: bool,
                       conditions: seq<Condition>)

  datatype RuleError = NoConditions | Unsupported | FieldNotFound | NotAList | NotContainer | Cancelled

  datatype Operator = Eq | Ne | Gt | Gte | Lt | Lte | In | NotIn | Contains | NotContains

  datatype Expr = Test(op: Operator, field: string, value: string) | And(exprs: seq<Expr>)

  function ParseOperator(text: string): Option<Operator> {
    if text == "eq" then Some(Eq) else if text == "ne" then Some(Ne)
    else if text == "gt" then Some(Gt) else if text == "gte" then Some(Gte)
    else if text == "lt" then Some(Lt) else if text == "lte" then Some(Lte)
    else if text == "in" then Some(In) else if text == "not_in" then Some(NotIn)
    else if text == "contains" then Some(Contains) else if text == "not_contains" then Some(NotContains)
    else None
  }

  function ParseCondition(c: Condition): Result<Expr, RuleError> {
    match ParseOperator(c.operator)
    case None => Err(Unsupported)
    case Some(op) => Ok(Test(op, c.field, c.value))
  }

  function ParseAll(cs: seq<Condition>): Result<seq<Expr>, RuleError> {
    if cs == [] then Ok([])
    else
      match ParseCondition(cs[0])
      case Err(e) => Err(e)
      case Ok(x) =>
        match ParseAll(cs[1..])
        case Err(e) => Err(e)
        case Ok(xs) => Ok([x] + xs)
  }

  function Parse(cs: seq<Condition>): Result<Expr, RuleError> {
    if cs == [] then Err(NoConditions)
    else
      match ParseAll(cs)
      case Err(e) => Err(e)
      case Ok(xs) => Ok(And(xs))
  }

  predicate HasSubstring(s: string, sub: string) {
    sub <= s || (s != "" && HasSubstring(s[1..], sub))
  }

  /** Values of different types compare as equal. */
  function CompareValues(a: Value, b: Value): int {
    match (a, b)
    case (Int(x), Int(y)) => if x < y then -1 else if x > y then 1 else 0
    case (Float(x), Float(y)) => if x < y then -1 else if x > y then 1 else 0
    case (Str(x), Str(y)) => Compare(x, y)
    case _ => 0
  }

  function Apply(op: Operator, actual: Value, value: string): Result<bool, RuleError> {
    var order := CompareValues(actual, Str(value));
    match op
    case Eq => Ok(actual == Str(value))
    case Ne => Ok(actual != Str(value))
    case Gt => Ok(order > 0)
    case Gte => Ok(order >= 0)
    case Lt => Ok(order < 0)
    case Lte => Ok(order <= 0)
    case In => Err(NotAList)     // the stored operand is text, never a list
    case NotIn => Err(NotAList)
    case Contains => Member(actual, value, true)
    case NotContains => Member(actual, value, false)
  }

  function Member(actual: Value, value: string, wanted: bool): Result<bool, RuleError> {
    match actual
    case Str(s) => Ok(HasSubstring(s, value) == wanted)
    case List(items) => Ok((Str(value) in items) == wanted)
    case _ => Err(NotContainer)
  }

  function Eval(e: Expr, data: Data): Result<bool, RuleError> {
    match e
    case Test(op, field, value) => if field in data then Apply(op, data[field], value) else Err(FieldNotFound)
    case And(exprs) => EvalAll(exprs, data)
  }

  function EvalAll(exprs: seq<Expr>, data: Data): Result<bool, RuleError> {
    if exprs == [] then Ok(true)
    else
      match Eval(exprs[0], data)
      case Err(e) => Err(e)
      case Ok(b) => if b then EvalAll(exprs[1..], data) else Ok(false)
  }

  /** EvaluateRule; a context that is done fails every execution. */
  function EvalRule(r: Rule, data: Data, done: bool): Result<bool, RuleError> {
    match Parse(r.conditions)
    case Err(e) => Err(e)
    case Ok(x) => if done then Err(Cancelled) else Eval(x, data)
  }

  predicate Allows(r: Rule, data: Data, done: bool) {
    r.isEnabled && EvalRule(r, data, done) == Ok(true)
  }

  /** The loop of Evaluate: the first enabled rule that evaluates to true. */
  method FirstAllowing(rules: seq<Rule>, data: Data, done: bool) returns (r: Option<Rule>)
    ensures r.None? <==> forall i :: 0 <= i < |rules| ==> !Allows(rules[i], data, done)
    ensures r.Some? ==> exists i :: IsFirstAllowing(rules, data, done, i) && r.value == rules[i]
  {
    for i := 0 to |rules|
      invariant forall j :: 0 <= j < i ==> !Allows(rules[j], data, done)
    {
      if !rules[i].isEnabled { continue; }
      var result := EvalRule(rules[i], data, done);
      if result.Err? { continue; }
      if result.value {
        assert IsFirstAllowing(rules, data, done, i);
        return Some(rules[i]);
      }
    }
    return None;
  }

  ghost predicate IsFirstAllowing(rules: seq<Rule>, data: Data, done: bool, i: int) {
    0 <= i < |rules| && Allows(rules[i], data, done)
    && forall j :: 0 <= j < i ==> !Allows(rules[j], data, done)
  }

  // ---------- the verdict does not depend on any order ----------

  /** One condition holds: its operator is known and its test is true. */
  predicate Holds(c: Condition, data: Data) {
    ParseCondition(c).Ok? && Eval(ParseCondition(c).value, data) == Ok(true)
  }

  lemma {:induction false} ParsedTests(cs: seq<Condition>)
    ensures ParseAll(cs).Ok? <==> forall c :: c in cs ==> ParseCondition(c).Ok?
    ensures ParseAll(cs).Ok? ==> |ParseAll(cs).value| == |cs|
    ensures ParseAll(cs).Ok? ==> forall i :: 0 <= i < |cs| ==> ParseCondition(cs[i]) == Ok(ParseAll(cs).value[i])
  {
    if cs != [] {
      assert cs == [cs[0]] + cs[1..];
      ParsedTests(cs[1..]);
    }
  }

  lemma {:induction false} AllTrue(exprs: seq<Expr>, data: Data)
    ensures EvalAll(exprs, data) == Ok(true) <==> forall i :: 0 <= i < |exprs| ==> Eval(exprs[i], data) == Ok(true)
  {
    if exprs != [] {
      AllTrue(exprs[1..], data);
      assert forall i :: 0 < i < |exprs| ==> exprs[i] == exprs[1..][i - 1];
      if EvalAll(exprs, data) == Ok(true) {
      } else if Eval(exprs[0], data) == Ok(true) {
        var k :| 0 <= k < |exprs| - 1 && Eval(exprs[1..][k], data) != Ok(true);
        assert exprs[k + 1] == exprs[1..][k];
      }
    }
  }

  /** A rule allows exactly when it is enabled, has conditions, and all of them hold. */
  lemma AllowsExactly(r: Rule, data: Data)
    ensures Allows(r, data, false)
            <==> r.isEnabled && r.conditions != [] && forall c :: c in r.conditions ==> Holds(c, data)
    ensures !Allows(r, data, true)
  {
    var cs := r.conditions;
    ParsedTests(cs);
    if ParseAll(cs).Ok? {
      var xs := ParseAll(cs).value;
      AllTrue(xs, data);
      if forall c :: c in cs ==> Holds(c, data) {
        assert forall i :: 0 <= i < |xs| ==> Holds(cs[i], data);
      } else {
        var c :| c in cs && !Holds(c, data);
        var i :| 0 <= i < |cs| && cs[i] == c;
        assert Eval(xs[i], data) != Ok(true);
      }
    }
  }

  /** A condition whose operator wants a list errs on any data that has its field, since
      its operand is kept as text, and on any other data too. */
  lemma ListConditionErrs(c: Condition, data: Data)
    requires c.operator == "in" || c.operator == "not_in"
    ensures ParseCondition(c).Ok? && Eval(ParseCondition(c).value, data).Err?
  {
  }

  /** So a rule with such a condition never allows, whatever else it asks for. */
  lemma ListConditionNeverAllows(r: Rule, c: Condition, data: Data, done: bool)
    requires c in r.conditions && (c.operator == "in" || c.operator == "not_in")
    ensures !Allows(r, data, done)
  {
    ListConditionErrs(c, data);
    AllowsExactly(r, data);
    assert !Holds(c, data);
  }

  /** Whether a rule with no true test errs or is merely false depends on the order
      of its conditions. */
  lemma ErrorDependsOnOrder()
    ensures exists a, b, data :: EvalAll([a, b], data).Err? && EvalAll([b, a], data) == Ok(false)
  {
    var data: Data := map["f" := Str("x")];
    var a, b := Test(Eq, "missing", "x"), Test(Eq, "f", "y");
    assert EvalAll([a, b], data).Err?;
    assert [b, a][0] == b;
    assert EvalAll([b, a], data) == Ok(false);
  }

  /** q is r with its conditions in some order. */
  ghost predicate Reordered(r: Rule, q: Rule) {
    r.(conditions := []) == q.(conditions := []) && multiset(r.conditions) == multiset(q.conditions)
  }

  ghost predicate Covers(rs: seq<Rule>, qs: seq<Rule>) {
    forall r :: r in rs ==> exists q :: q in qs && Reordered(r, q)
  }

  lemma ReorderedAllows(r: Rule, q: Rule, data: Data, done: bool)
    requires Reordered(r, q)
    ensures Allows(r, data, done) == Allows(q, data, done)
  {
    AllowsExactly(r, data);
    AllowsExactly(q, data);
    SameElements(r.conditions, q.conditions);
    assert forall c :: c in r.conditions <==> c in Elements(r.conditions);
    assert forall c :: c in q.conditions <==> c in Elements(q.conditions);
  }

  ghost predicate Verdict(rules: seq<Rule>, data: Data, done: bool) {
    exists r :: r in rules && Allows(r, data, done)
  }

  /** The verdict over a list is that over any list with the same rules, in any order
      and with the conditions of each in any order. */
  lemma VerdictIgnoresOrder(rs: seq<Rule>, qs: seq<Rule>, data: Data, done: bool)
    requires Covers(rs, qs) && Covers(qs, rs)
    ensures Verdict(rs, data, done) == Verdict(qs, data, done)
  {
    if Verdict(rs, data, done) { CoverVerdict(rs, qs, data, done); }
    if Verdict(qs, data, done) { CoverVerdict(qs, rs, data, done); }
  }

  lemma CoverVerdict(rs: seq<Rule>, qs: seq<Rule>, data: Data, done: bool)
    requires Covers(rs, qs) && Verdict(rs, data, done)
    ensures Verdict(qs, data, done)
  {
    var r :| r in rs && Allows(r, data, done);
    var q :| q in qs && Reordered(r, q);
    ReorderedAllows(r, q, data, done);
  }

  ghost predicate ByPriority(rules: seq<Rule>) {
    forall i, j :: 0 <= i < j < |rules| ==> rules[i].priority >= rules[j].priority
  }

  /** On a list in descending priority the returned rule has the greatest priority of
      all enabled rules that allow. */
  lemma FirstHasGreatestPriority(rules: seq<Rule>, data: Data, done: bool, i: int, q: Rule)
    requires ByPriority(rules) && IsFirstAllowing(rules, data, done, i)
    requires q in rules && Allows(q, data, done)
    ensures q.priority <= rules[i].priority
  {
    var j :| 0 <= j < |rules| && rules[j] == q;
  }

  // ---------- what each operator asks ----------

  /** Where a and b first differ a has the greater character, or b is a proper prefix of a. */
  ghost predicate ComesAfter(a: string, b: string) {
    exists k: nat :: DiffersAt(a, b, k)
  }

  ghost predicate DiffersAt(a: string, b: string, k: nat) {
    k < |a| && k <= |b| && a[..k] == b[..k] && (k == |b| || a[k] > b[k])
  }

  lemma {:induction false} CompareExact(a: string, b: string)
    ensures Compare(a, b) > 0 <==> ComesAfter(a, b)
  {
    if a == [] {
    } else if b == [] || a[0] > b[0] {
      assert DiffersAt(a, b, 0);
    } else if a[0] < b[0] {
      assert forall k: nat :: k > 0 && k <= |a| && k <= |b| ==> a[..k][0] == a[0] && b[..k][0] == b[0];
    } else {
      CompareExact(a[1..], b[1..]);
      forall k: nat | k < |a| - 1 && k < |b| ensures DiffersAt(a[1..], b[1..], k) <==> DiffersAt(a, b, k + 1) {
        assert a[..k + 1] == [a[0]] + a[1..][..k];
        assert b[..k + 1] == [b[0]] + b[1..][..k];
      }
      if ComesAfter(a[1..], b[1..]) {
        var k: nat :| DiffersAt(a[1..], b[1..], k);
        assert DiffersAt(a, b, k + 1);
      }
      if ComesAfter(a, b) {
        var k: nat :| DiffersAt(a, b, k);
        assert DiffersAt(a[1..], b[1..], k - 1);
      }
    }
  }

  /** Some slice of s is sub. */
  ghost predicate OccursIn(s: string, sub: string) {
    exists i: nat :: OccursAt(s, sub, i)
  }

  ghost predicate OccursAt(s: string, sub: string, i: nat) {
    i + |sub| <= |s| && s[i..i + |sub|] == sub
  }

  lemma {:induction false} SubstringExact(s: string, sub: string)
    ensures HasSubstring(s, sub) <==> OccursIn(s, sub)
  {
    assert sub <= s <==> OccursAt(s, sub, 0);
    if s != "" {
      var rest := s[1..];
      SubstringExact(rest, sub);
      forall i: nat ensures OccursAt(s, sub, i + 1) <==> OccursAt(rest, sub, i) {
        if i + 1 + |sub| <= |s| { assert s[i + 1..i + 1 + |sub|] == rest[i..i + |sub|]; }
      }
      if OccursIn(rest, sub) {
        var i: nat :| OccursAt(rest, sub, i);
        assert OccursAt(s, sub, i + 1);
      }
      if i: nat :| OccursAt(s, sub, i) && i > 0 {
        assert OccursAt(s, sub, i - 1 + 1);
        assert OccursAt(rest, sub, i - 1);
      }
    }
  }

  /** The order operators on text are those of the dictionary; every other value is
      neither before nor after the operand, which is text. */
  lemma OrderHolds(c: Condition, data: Data)
    requires c.field in data
    ensures var v := data[c.field];
            && (c.operator == "gt" ==> (Holds(c, data) <==> v.Str? && ComesAfter(v.s, c.value)))
            && (c.operator == "lt" ==> (Holds(c, data) <==> v.Str? && ComesAfter(c.value, v.s)))
            && (c.operator == "gte" ==> (Holds(c, data) <==> !(v.Str? && ComesAfter(c.value, v.s))))
            && (c.operator == "lte" ==> (Holds(c, data) <==> !(v.Str? && ComesAfter(v.s, c.value))))
  {
    if data[c.field].Str? {
      var s := data[c.field].s;
      CompareExact(s, c.value);
      CompareExact(c.value, s);
      CompareProperties(s, c.value, s);
    }
  }

  /** Equality asks for that very text, containment for the text as a slice of a text or
      as an item of a list. */
  lemma MatchHolds(c: Condition, data: Data)
    requires c.field in data
    ensures var v := data[c.field];
            && (c.operator == "eq" ==> (Holds(c, data) <==> v == Str(c.value)))
            && (c.operator == "ne" ==> (Holds(c, data) <==> v != Str(c.value)))
            && (c.operator == "contains" ==>
                  (Holds(c, data) <==> (v.Str? && OccursIn(v.s, c.value)) || (v.List? && Str(c.value) in v.items)))
            && (c.operator == "not_contains" ==>
                  (Holds(c, data) <==> (v.Str? && !OccursIn(v.s, c.value)) || (v.List? && Str(c.value) !in v.items)))
  {
    if data[c.field].Str? { SubstringExact(data[c.field].s, c.value); }
  }

  ghost predicate Errs(c: Condition, data: Data) {
    ParseCondition(c).Err? || Eval(ParseCondition(c).value, data).Err?
  }

  const ORDERING := ["eq", "ne", "gt", "gte", "lt", "lte"]
  const CONTAINMENT := ["contains", "not_contains"]

  /** A condition can be decided exactly when the data has its field and its operator
      compares, or looks into a text or a list. */
  lemma DecidedExactly(c: Condition, data: Data)
    ensures !Errs(c, data) <==>
            && c.field in data
            && (|| c.operator in ORDERING
                || (c.operator in CONTAINMENT && (data[c.field].Str? || data[c.field].List?)))
    ensures Errs(c, data) ==> !Holds(c, data)
  {
  }
}
