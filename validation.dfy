/**
 * The request validators of the backend middleware.
 *
 * Each exported rule list is kept as data: a `Rule` is one chain such as
 * `body('code').isString().notEmpty().withMessage(...)`, naming a field
 * path, whether the chain is `optional()`, and its validators in order,
 * each with the message that `withMessage` attaches to it (a validator that
 * has no `withMessage` right after it carries the default message). A chain
 * never stops early: every failing validator contributes one error. A rule
 * list's outcome is the concatenation of its chains' errors in declaration
 * order, and `HandleValidationErrors` turns that list into either a 400
 * response or a pass to the next handler.
 */
module Validation {
  import opened Json
  import opened Strings
  import opened Http

  /** The message a validator reports when no `withMessage` follows it. */
  const DefaultMessage := "Invalid value"

  const CompletionCodeLimit := 50000
  const AnalysisCodeLimit := 100000

  // ---------------------------------------------------------------------
  // Rules as data
  // ---------------------------------------------------------------------

  datatype Check =
    | IsString
    | NotEmpty
    | MaxLength(max: nat)
    | IsObject
    | IsArray(min: nat)
    | IsNonNegativeInt
    | IsIn(options: seq<string>)

  datatype Validator = Validator(check: Check, message: string)

  /** One step of a field path: a member name, or the `*` wildcard over an array's elements. */
  datatype Segment = Key(name: string) | Each

  datatype Rule = Rule(path: seq<Segment>, optional: bool, validators: seq<Validator>)

  /** A concrete field a rule's path selects, with its rendered path and its value. */
  datatype Instance = Instance(field: string, value: Value)

  predicate NonEmptyString(v: Value)
  {
    v.Str? && v.s != ""
  }

  /** What each validator accepts. */
  predicate Holds(c: Check, v: Value)
  {
    match c
    case IsString => v.Str?
    case NotEmpty => !(v.Absent? || v.Null? || v == Str(""))
    case MaxLength(max) => v.Str? ==> |v.s| <= max
    case IsObject => v.Obj?
    case IsArray(min) => v.Arr? && |v.items| >= min
    case IsNonNegativeInt => IsInteger(v) && v.n >= 0.0
    case IsIn(options) => v.Str? && v.s in options
  }

  // ---------------------------------------------------------------------
  // Field selection and rule evaluation
  // ---------------------------------------------------------------------

  function JoinKey(prefix: string, key: string): string
  {
    if prefix == "" then key else prefix + "." + key
  }

  /** The instances `path` selects below `v`, named from `prefix` as `a.b` and `a[0].b`. */
  function Select(path: seq<Segment>, prefix: string, v: Value): seq<Instance>
    decreases |path|, 0
  {
    if path == [] then [Instance(prefix, v)]
    else match path[0]
      case Key(k) => Select(path[1..], JoinKey(prefix, k), Get(v, k))
      case Each => if v.Arr? then SelectEach(path[1..], prefix, v.items, 0) else []
  }

  function SelectEach(rest: seq<Segment>, prefix: string, items: seq<Value>, i: nat): seq<Instance>
    requires i <= |items|
    decreases |rest|, |items| - i + 1
  {
    if i == |items| then []
    else Select(rest, prefix + "[" + Decimal(i) + "]", items[i]) + SelectEach(rest, prefix, items, i + 1)
  }

  /** The instances an `optional()` chain still checks: those whose value is defined. */
  function Present(insts: seq<Instance>): seq<Instance>
  {
    if insts == [] then []
    else (if insts[0].value.Absent? then [] else [insts[0]]) + Present(insts[1..])
  }

  /** `optional()` drops exactly the undefined instances and keeps every other one. */
  lemma {:induction false} PresentKeepsDefined(insts: seq<Instance>)
    ensures forall i :: i in Present(insts) <==> i in insts && !i.value.Absent?
    ensures |Present(insts)| <= |insts|
  {
    if insts != [] {
      PresentKeepsDefined(insts[1..]);
      assert insts == [insts[0]] + insts[1..];
    }
  }

  /** The errors one validator reports over the instances, in instance order. */
  function ValidatorErrors(v: Validator, insts: seq<Instance>): seq<FieldError>
  {
    if insts == [] then []
    else
      (if Holds(v.check, insts[0].value) then [] else [FieldError(insts[0].field, v.message)])
      + ValidatorErrors(v, insts[1..])
  }

  /** The errors of a whole chain: each validator in turn over all instances, none skipped. */
  function ChainErrors(vs: seq<Validator>, insts: seq<Instance>): seq<FieldError>
  {
    if vs == [] then []
    else ValidatorErrors(vs[0], insts) + ChainErrors(vs[1..], insts)
  }

  function RuleErrors(r: Rule, body: Value): seq<FieldError>
  {
    var insts := Select(r.path, "", body);
    ChainErrors(r.validators, if r.optional then Present(insts) else insts)
  }

  /** `f` applied to each element, the results concatenated in order. */
  function ConcatMap<T, U>(f: T -> seq<U>, xs: seq<T>): seq<U>
  {
    if xs == [] then [] else f(xs[0]) + ConcatMap(f, xs[1..])
  }

  function RuleCheck(body: Value): Rule -> seq<FieldError>
  {
    r => RuleErrors(r, body)
  }

  /** All errors of a rule list, rule by rule in declaration order. */
  function Validate(rules: seq<Rule>, body: Value): seq<FieldError>
  {
    ConcatMap(RuleCheck(body), rules)
  }

  /**
   * A validator is silent exactly when it holds of every instance; each
   * failing instance is reported under its own field, with the validator's
   * message, and nothing else is reported.
   */
  lemma {:induction false} ValidatorErrorsSpec(v: Validator, insts: seq<Instance>)
    ensures ValidatorErrors(v, insts) == [] <==> forall k :: 0 <= k < |insts| ==> Holds(v.check, insts[k].value)
    ensures forall e :: e in ValidatorErrors(v, insts) ==>
              exists k :: 0 <= k < |insts| && !Holds(v.check, insts[k].value) && e == FieldError(insts[k].field, v.message)
    ensures forall k :: 0 <= k < |insts| && !Holds(v.check, insts[k].value) ==>
              FieldError(insts[k].field, v.message) in ValidatorErrors(v, insts)
  {
    if insts != [] {
      ValidatorErrorsSpec(v, insts[1..]);
      var head := if Holds(v.check, insts[0].value) then [] else [FieldError(insts[0].field, v.message)];
      assert ValidatorErrors(v, insts) == head + ValidatorErrors(v, insts[1..]);
      forall e | e in ValidatorErrors(v, insts)
        ensures exists k :: 0 <= k < |insts| && !Holds(v.check, insts[k].value) && e == FieldError(insts[k].field, v.message)
      {
        if e in head {
          assert !Holds(v.check, insts[0].value) && e == FieldError(insts[0].field, v.message);
        } else {
          var k :| 0 <= k < |insts[1..]| && !Holds(v.check, insts[1..][k].value) && e == FieldError(insts[1..][k].field, v.message);
          assert insts[1..][k] == insts[k + 1];
        }
      }
      forall k | 0 <= k < |insts| && !Holds(v.check, insts[k].value)
        ensures FieldError(insts[k].field, v.message) in ValidatorErrors(v, insts)
      {
        if k > 0 {
          assert insts[1..][k - 1] == insts[k];
        }
      }
      if forall k :: 0 <= k < |insts| ==> Holds(v.check, insts[k].value) {
        forall k | 0 <= k < |insts[1..]| ensures Holds(v.check, insts[1..][k].value) {
          assert insts[1..][k] == insts[k + 1];
        }
      }
    }
  }

  /** A chain is silent exactly when every validator holds of every instance. */
  lemma {:induction false} ChainErrorsEmpty(vs: seq<Validator>, insts: seq<Instance>)
    ensures ChainErrors(vs, insts) == [] <==>
              forall j, k :: 0 <= j < |vs| && 0 <= k < |insts| ==> Holds(vs[j].check, insts[k].value)
  {
    if vs != [] {
      ChainErrorsEmpty(vs[1..], insts);
      ValidatorErrorsSpec(vs[0], insts);
      if ChainErrors(vs, insts) == [] {
        forall j, k | 0 <= j < |vs| && 0 <= k < |insts| ensures Holds(vs[j].check, insts[k].value) {
          if j > 0 {
            assert vs[1..][j - 1] == vs[j];
          }
        }
      }
      if forall j, k :: 0 <= j < |vs| && 0 <= k < |insts| ==> Holds(vs[j].check, insts[k].value) {
        forall j, k | 0 <= j < |vs[1..]| && 0 <= k < |insts| ensures Holds(vs[1..][j].check, insts[k].value) {
          assert vs[1..][j] == vs[j + 1];
        }
      }
    }
  }

  // ---------------------------------------------------------------------
  // Concatenation over a list, generically
  // ---------------------------------------------------------------------

  lemma {:induction false} ConcatMapEmpty<T, U>(f: T -> seq<U>, xs: seq<T>)
    ensures ConcatMap(f, xs) == [] <==> forall k :: 0 <= k < |xs| ==> f(xs[k]) == []
  {
    if xs != [] {
      ConcatMapEmpty(f, xs[1..]);
      if ConcatMap(f, xs) == [] {
        forall k | 0 <= k < |xs| ensures f(xs[k]) == [] {
          if k > 0 {
            assert xs[1..][k - 1] == xs[k];
          }
        }
      }
      if forall k :: 0 <= k < |xs| ==> f(xs[k]) == [] {
        forall k | 0 <= k < |xs[1..]| ensures f(xs[1..][k]) == [] {
          assert xs[1..][k] == xs[k + 1];
        }
      }
    }
  }

  lemma {:induction false} ConcatMapAppend<T, U>(f: T -> seq<U>, xs: seq<T>, ys: seq<T>)
    ensures ConcatMap(f, xs + ys) == ConcatMap(f, xs) + ConcatMap(f, ys)
  {
    if xs == [] {
      assert xs + ys == ys;
    } else {
      assert (xs + ys)[0] == xs[0];
      assert (xs + ys)[1..] == xs[1..] + ys;
      ConcatMapAppend(f, xs[1..], ys);
      assert ConcatMap(f, xs + ys) == f(xs[0]) + (ConcatMap(f, xs[1..]) + ConcatMap(f, ys));
    }
  }

  lemma {:induction false} ConcatMapMember<T, U>(f: T -> seq<U>, xs: seq<T>, e: U)
    ensures e in ConcatMap(f, xs) <==> exists k :: 0 <= k < |xs| && e in f(xs[k])
  {
    if xs != [] {
      ConcatMapMember(f, xs[1..], e);
      if e in ConcatMap(f, xs[1..]) {
        var k :| 0 <= k < |xs[1..]| && e in f(xs[1..][k]);
        assert e in f(xs[k + 1]);
      }
      if exists k :: 0 <= k < |xs| && e in f(xs[k]) {
        var k :| 0 <= k < |xs| && e in f(xs[k]);
        if k > 0 {
          assert xs[1..][k - 1] == xs[k];
        }
      }
    }
  }

  lemma ConcatMapSnoc<T, U>(f: T -> seq<U>, xs: seq<T>, x: T)
    ensures ConcatMap(f, xs + [x]) == ConcatMap(f, xs) + f(x)
  {
    ConcatMapAppend(f, xs, [x]);
    assert [x][1..] == [];
  }

  lemma ConcatMapOne<T, U>(f: T -> seq<U>, a: T)
    ensures ConcatMap(f, [a]) == f(a)
  {
    assert [a][1..] == [];
  }

  lemma ConcatMapThree<T, U>(f: T -> seq<U>, a: T, b: T, c: T)
    ensures ConcatMap(f, [a, b, c]) == f(a) + f(b) + f(c)
  {
    ConcatMapOne(f, a);
    assert [a] + [b] == [a, b];
    assert [a, b] + [c] == [a, b, c];
    ConcatMapSnoc(f, [a], b);
    ConcatMapSnoc(f, [a, b], c);
  }

  lemma ConcatMapFive<T, U>(f: T -> seq<U>, a: T, b: T, c: T, d: T, e: T)
    ensures ConcatMap(f, [a, b, c, d, e]) == f(a) + f(b) + f(c) + f(d) + f(e)
  {
    ConcatMapThree(f, a, b, c);
    assert [a, b, c] + [d] == [a, b, c, d];
    assert [a, b, c, d] + [e] == [a, b, c, d, e];
    ConcatMapSnoc(f, [a, b, c], d);
    ConcatMapSnoc(f, [a, b, c, d], e);
  }

  lemma ConcatMapSix<T, U>(f: T -> seq<U>, a: T, b: T, c: T, d: T, e: T, g: T)
    ensures ConcatMap(f, [a, b, c, d, e, g]) == f(a) + f(b) + f(c) + f(d) + f(e) + f(g)
  {
    ConcatMapFive(f, a, b, c, d, e);
    assert [a, b, c, d, e] + [g] == [a, b, c, d, e, g];
    ConcatMapSnoc(f, [a, b, c, d, e], g);
  }

  lemma ConcatMapEight<T, U>(f: T -> seq<U>, a: T, b: T, c: T, d: T, e: T, g: T, h: T, i: T)
    ensures ConcatMap(f, [a, b, c, d, e, g, h, i]) == f(a) + f(b) + f(c) + f(d) + f(e) + f(g) + f(h) + f(i)
  {
    ConcatMapSix(f, a, b, c, d, e, g);
    assert [a, b, c, d, e, g] + [h] == [a, b, c, d, e, g, h];
    assert [a, b, c, d, e, g, h] + [i] == [a, b, c, d, e, g, h, i];
    ConcatMapSnoc(f, [a, b, c, d, e, g], h);
    ConcatMapSnoc(f, [a, b, c, d, e, g, h], i);
  }

  // ---------------------------------------------------------------------
  // Rule lists
  // ---------------------------------------------------------------------

  /** A rule list is silent exactly when every one of its rules is. */
  lemma ValidateEmpty(rules: seq<Rule>, body: Value)
    ensures Validate(rules, body) == [] <==> forall k :: 0 <= k < |rules| ==> RuleErrors(rules[k], body) == []
  {
    ConcatMapEmpty(RuleCheck(body), rules);
  }

  /** One validator over one instance. */
  lemma ValidatorOnOne(v: Validator, inst: Instance)
    ensures ValidatorErrors(v, [inst]) == if Holds(v.check, inst.value) then [] else [FieldError(inst.field, v.message)]
  {
    assert [inst][1..] == [];
  }

  lemma ChainCons(vs: seq<Validator>, insts: seq<Instance>)
    requires vs != []
    ensures ChainErrors(vs, insts) == ValidatorErrors(vs[0], insts) + ChainErrors(vs[1..], insts)
  {
  }

  /** The rule lists of the middleware, spelled out rule by rule. */
  lemma ValidateOne(a: Rule, body: Value)
    ensures Validate([a], body) == RuleErrors(a, body)
  {
    ConcatMapOne(RuleCheck(body), a);
  }

  lemma ValidateThree(a: Rule, b: Rule, c: Rule, body: Value)
    ensures Validate([a, b, c], body) == RuleErrors(a, body) + RuleErrors(b, body) + RuleErrors(c, body)
  {
    ConcatMapThree(RuleCheck(body), a, b, c);
  }

  lemma ValidateFive(a: Rule, b: Rule, c: Rule, d: Rule, e: Rule, body: Value)
    ensures Validate([a, b, c, d, e], body) ==
              RuleErrors(a, body) + RuleErrors(b, body) + RuleErrors(c, body) + RuleErrors(d, body) +
              RuleErrors(e, body)
    ensures Validate([a, b, c, d, e], body) == [] <==>
              RuleErrors(a, body) == [] && RuleErrors(b, body) == [] && RuleErrors(c, body) == [] &&
              RuleErrors(d, body) == [] && RuleErrors(e, body) == []
  {
    ConcatMapFive(RuleCheck(body), a, b, c, d, e);
  }

  lemma ValidateSix(a: Rule, b: Rule, c: Rule, d: Rule, e: Rule, g: Rule, body: Value)
    ensures Validate([a, b, c, d, e, g], body) ==
              RuleErrors(a, body) + RuleErrors(b, body) + RuleErrors(c, body) + RuleErrors(d, body) +
              RuleErrors(e, body) + RuleErrors(g, body)
    ensures Validate([a, b, c, d, e, g], body) == [] <==>
              RuleErrors(a, body) == [] && RuleErrors(b, body) == [] && RuleErrors(c, body) == [] &&
              RuleErrors(d, body) == [] && RuleErrors(e, body) == [] && RuleErrors(g, body) == []
  {
    ConcatMapSix(RuleCheck(body), a, b, c, d, e, g);
  }

  lemma ValidateEight(a: Rule, b: Rule, c: Rule, d: Rule, e: Rule, g: Rule, h: Rule, i: Rule, body: Value)
    ensures Validate([a, b, c, d, e, g, h, i], body) ==
              RuleErrors(a, body) + RuleErrors(b, body) + RuleErrors(c, body) + RuleErrors(d, body) +
              RuleErrors(e, body) + RuleErrors(g, body) + RuleErrors(h, body) + RuleErrors(i, body)
    ensures Validate([a, b, c, d, e, g, h, i], body) == [] <==>
              RuleErrors(a, body) == [] && RuleErrors(b, body) == [] && RuleErrors(c, body) == [] &&
              RuleErrors(d, body) == [] && RuleErrors(e, body) == [] && RuleErrors(g, body) == [] &&
              RuleErrors(h, body) == [] && RuleErrors(i, body) == []
  {
    ConcatMapEight(RuleCheck(body), a, b, c, d, e, g, h, i);
  }

  lemma GroupThree<T>(a: seq<T>, b: seq<T>, c: seq<T>, d: seq<T>)
    ensures a + b + c + d == a + (b + c + d)
  {
  }

  /** No short-circuit across rules: a list's errors are its parts' errors, in order. */
  lemma ValidateAppend(first: seq<Rule>, second: seq<Rule>, body: Value)
    ensures Validate(first + second, body) == Validate(first, body) + Validate(second, body)
  {
    ConcatMapAppend(RuleCheck(body), first, second);
  }

  /** An error is reported exactly when some rule of the list reports it. */
  lemma ValidateCollectsEveryRule(rules: seq<Rule>, body: Value, e: FieldError)
    ensures e in Validate(rules, body) <==> exists k :: 0 <= k < |rules| && e in RuleErrors(rules[k], body)
  {
    ConcatMapMember(RuleCheck(body), rules, e);
  }

  /** The rule over a single plain member `key`, checked against `body.key`. */
  lemma PlainRule(r: Rule, key: string, body: Value)
    requires r.path == [Key(key)]
    ensures RuleErrors(r, body) ==
              ChainErrors(r.validators,
                if r.optional && Get(body, key).Absent? then [] else [Instance(key, Get(body, key))])
  {
    assert r.path[1..] == [];
    var inst := Instance(key, Get(body, key));
    assert Select(r.path, "", body) == [inst];
    assert [inst][1..] == [];
    assert Present([inst]) == if inst.value.Absent? then [] else [inst];
  }

  /** The rule over a nested member `outer.inner`, checked against `body.outer.inner`. */
  lemma NestedRule(r: Rule, outer: string, inner: string, body: Value)
    requires r.path == [Key(outer), Key(inner)] && outer != ""
    ensures var v := Get(Get(body, outer), inner);
            RuleErrors(r, body) ==
              ChainErrors(r.validators,
                if r.optional && v.Absent? then [] else [Instance(outer + "." + inner, v)])
  {
    assert r.path[1..] == [Key(inner)];
    assert r.path[1..][1..] == [];
    var inst := Instance(outer + "." + inner, Get(Get(body, outer), inner));
    assert JoinKey("", outer) == outer;
    assert Select(r.path[1..], outer, Get(body, outer)) == [inst];
    assert Select(r.path, "", body) == [inst];
    assert [inst][1..] == [];
    assert Present([inst]) == if inst.value.Absent? then [] else [inst];
  }

  /** The path express-validator reports for member `key` of element `index` of array `prefix`. */
  function ElementField(prefix: string, index: nat, key: string): string
  {
    prefix + "[" + Decimal(index) + "]." + key
  }

  lemma {:induction false} SelectEachMember(key: string, prefix: string, items: seq<Value>, i: nat)
    requires i <= |items|
    ensures var insts := SelectEach([Key(key)], prefix, items, i);
            |insts| == |items| - i &&
            forall k :: 0 <= k < |insts| ==>
              insts[k] == Instance(ElementField(prefix, i + k, key), Get(items[i + k], key))
    decreases |items| - i
  {
    if i < |items| {
      SelectEachMember(key, prefix, items, i + 1);
      var p := prefix + "[" + Decimal(i) + "]";
      assert [Key(key)][1..] == [];
      assert JoinKey(p, key) == ElementField(prefix, i, key);
      assert Select([Key(key)], p, items[i]) == [Instance(JoinKey(p, key), Get(items[i], key))];
    }
  }

  /** The rule over `outer.*.inner`: one instance per element of the array `body.outer`. */
  lemma WildcardRule(r: Rule, outer: string, inner: string, body: Value)
    requires r.path == [Key(outer), Each, Key(inner)] && outer != "" && !r.optional
    ensures var m := Get(body, outer);
            RuleErrors(r, body) == if m.Arr? then ChainErrors(r.validators, SelectEach([Key(inner)], outer, m.items, 0)) else []
  {
    var m := Get(body, outer);
    assert r.path[1..] == [Each, Key(inner)];
    assert r.path[1..][1..] == [Key(inner)];
    assert JoinKey("", outer) == outer;
    assert Select(r.path, "", body) == Select([Each, Key(inner)], outer, m);
    if m.Arr? {
      assert Select([Each, Key(inner)], outer, m) == SelectEach([Key(inner)], outer, m.items, 0);
    } else {
      assert Select([Each, Key(inner)], outer, m) == [];
      ChainErrorsEmpty(r.validators, []);
    }
  }

  /** A failing validator's report on an instance survives into the chain's errors. */
  lemma {:induction false} ChainErrorsReports(vs: seq<Validator>, insts: seq<Instance>, j: nat, k: nat)
    requires j < |vs| && k < |insts| && !Holds(vs[j].check, insts[k].value)
    ensures FieldError(insts[k].field, vs[j].message) in ChainErrors(vs, insts)
  {
    if j == 0 {
      ValidatorErrorsSpec(vs[0], insts);
    } else {
      assert vs[1..][j - 1] == vs[j];
      ChainErrorsReports(vs[1..], insts, j - 1, k);
    }
  }

  /** The instances `outer.*.inner` selects from the elements of an array: one per element, in order. */
  lemma ElementInstances(outer: string, inner: string, items: seq<Value>)
    ensures var insts := SelectEach([Key(inner)], outer, items, 0);
            |insts| == |items| &&
            forall k :: 0 <= k < |items| ==> insts[k] == Instance(ElementField(outer, k, inner), Get(items[k], inner))
  {
    var insts := SelectEach([Key(inner)], outer, items, 0);
    SelectEachMember(inner, outer, items, 0);
    forall k | 0 <= k < |items|
      ensures insts[k] == Instance(ElementField(outer, k, inner), Get(items[k], inner))
    {
      assert 0 + k == k;
    }
  }

  /**
   * A rule `outer.*.inner` checks every element of the array `body.outer`:
   * it is silent exactly when each validator holds of each element's member.
   */
  lemma WildcardRuleSilent(r: Rule, outer: string, inner: string, body: Value)
    requires r.path == [Key(outer), Each, Key(inner)] && outer != "" && !r.optional
    ensures var m := Get(body, outer);
            RuleErrors(r, body) == [] <==>
              (m.Arr? ==> forall k, j :: 0 <= k < |m.items| && 0 <= j < |r.validators| ==>
                                           Holds(r.validators[j].check, Get(m.items[k], inner)))
  {
    var m := Get(body, outer);
    WildcardRule(r, outer, inner, body);
    if m.Arr? {
      ElementInstances(outer, inner, m.items);
      ChainErrorsEmpty(r.validators, SelectEach([Key(inner)], outer, m.items, 0));
    }
  }

  /** A failure of the rule `outer.*.inner` is reported under the failing element's own index. */
  lemma WildcardRuleReports(r: Rule, outer: string, inner: string, body: Value)
    requires r.path == [Key(outer), Each, Key(inner)] && outer != "" && !r.optional
    ensures var m := Get(body, outer);
            forall k, j :: m.Arr? && 0 <= k < |m.items| && 0 <= j < |r.validators| &&
                           !Holds(r.validators[j].check, Get(m.items[k], inner)) ==>
              FieldError(ElementField(outer, k, inner), r.validators[j].message) in RuleErrors(r, body)
  {
    var m := Get(body, outer);
    WildcardRule(r, outer, inner, body);
    if m.Arr? {
      var insts := SelectEach([Key(inner)], outer, m.items, 0);
      ElementInstances(outer, inner, m.items);
      forall k, j | 0 <= k < |m.items| && 0 <= j < |r.validators| &&
                    !Holds(r.validators[j].check, Get(m.items[k], inner))
        ensures FieldError(ElementField(outer, k, inner), r.validators[j].message) in RuleErrors(r, body)
      {
        ChainErrorsReports(r.validators, insts, j, k);
      }
    }
  }

  // ---------------------------------------------------------------------
  // The chain shapes the middleware repeats
  // ---------------------------------------------------------------------

  /** `body(key).isString().notEmpty().withMessage(required)` */
  function RequiredString(key: string, required: string): Rule
  {
    Rule([Key(key)], false, [Validator(IsString, DefaultMessage), Validator(NotEmpty, required)])
  }

  /** `body('code').isString().notEmpty().withMessage(required).isLength({max}).withMessage(tooLong)` */
  function CodeRule(max: nat, required: string, tooLong: string): Rule
  {
    Rule([Key("code")], false,
      [Validator(IsString, DefaultMessage), Validator(NotEmpty, required), Validator(MaxLength(max), tooLong)])
  }

  /** `body(key).<check>().withMessage(message)` */
  function RequiredCheck(key: string, check: Check, message: string): Rule
  {
    Rule([Key(key)], false, [Validator(check, message)])
  }

  /** `body(key).optional().<check>()` */
  function OptionalCheck(key: string, check: Check): Rule
  {
    Rule([Key(key)], true, [Validator(check, DefaultMessage)])
  }

  lemma RequiredStringErrors(key: string, required: string, body: Value)
    ensures var v := Get(body, key);
            RuleErrors(RequiredString(key, required), body) ==
              (if v.Str? then [] else [FieldError(key, DefaultMessage)]) +
              (if v.Absent? || v.Null? || v == Str("") then [FieldError(key, required)] else [])
  {
    var r := RequiredString(key, required);
    var inst := Instance(key, Get(body, key));
    var vs := r.validators;
    PlainRule(r, key, body);
    ChainCons(vs, [inst]);
    ChainCons(vs[1..], [inst]);
    assert vs[1..][0] == vs[1] && vs[1..][1..] == [];
    ValidatorOnOne(vs[0], inst);
    ValidatorOnOne(vs[1], inst);
  }

  lemma CodeRuleErrors(max: nat, required: string, tooLong: string, body: Value)
    ensures var v := Get(body, "code");
            RuleErrors(CodeRule(max, required, tooLong), body) ==
              (if v.Str? then [] else [FieldError("code", DefaultMessage)]) +
              (if v.Absent? || v.Null? || v == Str("") then [FieldError("code", required)] else []) +
              (if v.Str? && |v.s| > max then [FieldError("code", tooLong)] else [])
  {
    var r := CodeRule(max, required, tooLong);
    var inst := Instance("code", Get(body, "code"));
    var vs := r.validators;
    PlainRule(r, "code", body);
    ChainOfThree(vs[0], vs[1], vs[2], inst);
    ValidatorOnOne(vs[0], inst);
    ValidatorOnOne(vs[1], inst);
    ValidatorOnOne(vs[2], inst);
  }

  /** A chain of three validators over one instance reports each validator's errors in turn. */
  lemma ChainOfThree(a: Validator, b: Validator, c: Validator, inst: Instance)
    ensures ChainErrors([a, b, c], [inst]) ==
              ValidatorErrors(a, [inst]) + ValidatorErrors(b, [inst]) + ValidatorErrors(c, [inst])
  {
    var vs := [a, b, c];
    assert vs[1..] == [b, c] && vs[1..][1..] == [c] && vs[1..][1..][1..] == [];
    ChainCons(vs, [inst]);
    ChainCons(vs[1..], [inst]);
    ChainCons(vs[1..][1..], [inst]);
  }

  lemma RequiredCheckErrors(key: string, check: Check, message: string, body: Value)
    ensures RuleErrors(RequiredCheck(key, check, message), body) ==
              if Holds(check, Get(body, key)) then [] else [FieldError(key, message)]
  {
    var r := RequiredCheck(key, check, message);
    var inst := Instance(key, Get(body, key));
    PlainRule(r, key, body);
    ChainCons(r.validators, [inst]);
    assert r.validators[1..] == [];
    ValidatorOnOne(r.validators[0], inst);
  }

  lemma OptionalCheckErrors(key: string, check: Check, body: Value)
    ensures var v := Get(body, key);
            RuleErrors(OptionalCheck(key, check), body) ==
              if v.Absent? || Holds(check, v) then [] else [FieldError(key, DefaultMessage)]
  {
    var r := OptionalCheck(key, check);
    var inst := Instance(key, Get(body, key));
    PlainRule(r, key, body);
    ChainCons(r.validators, [inst]);
    ChainCons(r.validators, []);
    assert r.validators[1..] == [];
    ValidatorOnOne(r.validators[0], inst);
  }

  /** A required non-empty string is silent exactly when it is one. */
  lemma RequiredStringSilent(key: string, required: string, body: Value)
    ensures RuleErrors(RequiredString(key, required), body) == [] <==> NonEmptyString(Get(body, key))
  {
    RequiredStringErrors(key, required, body);
  }

  /** The code rule is silent exactly on a non-empty string of at most `max` characters. */
  lemma CodeRuleSilent(max: nat, required: string, tooLong: string, body: Value)
    ensures var v := Get(body, "code");
            RuleErrors(CodeRule(max, required, tooLong), body) == [] <==> NonEmptyString(v) && |v.s| <= max
  {
    CodeRuleErrors(max, required, tooLong, body);
  }

  /** An optional check is silent exactly when the member is missing or passes. */
  lemma OptionalCheckSilent(key: string, check: Check, body: Value)
    ensures RuleErrors(OptionalCheck(key, check), body) == [] <==> Get(body, key).Absent? || Holds(check, Get(body, key))
  {
    OptionalCheckErrors(key, check, body);
  }

  /** A two-level rule `body(outer.inner)` with a single validator. */
  lemma NestedCheckErrors(r: Rule, outer: string, inner: string, body: Value)
    requires r.path == [Key(outer), Key(inner)] && outer != "" && |r.validators| == 1
    ensures var v := Get(Get(body, outer), inner);
            RuleErrors(r, body) ==
              if (r.optional && v.Absent?) || Holds(r.validators[0].check, v) then []
              else [FieldError(outer + "." + inner, r.validators[0].message)]
  {
    var inst := Instance(outer + "." + inner, Get(Get(body, outer), inner));
    NestedRule(r, outer, inner, body);
    ChainCons(r.validators, [inst]);
    ChainCons(r.validators, []);
    assert r.validators[1..] == [];
    ValidatorOnOne(r.validators[0], inst);
  }

  // ---------------------------------------------------------------------
  // validateCompletionRequest
  // ---------------------------------------------------------------------

  // The messages of the cursor rules, written in short pieces (a long
  // string literal is costly for the verifier).
  const CursorRequired := "Cursor position " + "is required"
  const LineMessage := "Cursor line must " + "be a non-negative " + "integer"
  const ColumnMessage := "Cursor column must " + "be a non-negative " + "integer"

  const CompletionCode := CodeRule(CompletionCodeLimit, "Code is required", "Code too long (max 50KB)")
  const CompletionCursor := RequiredCheck("cursorPosition", IsObject, CursorRequired)
  const CompletionLine :=
    Rule([Key("cursorPosition"), Key("line")], false,
      [Validator(IsNonNegativeInt, LineMessage)])
  const CompletionColumn :=
    Rule([Key("cursorPosition"), Key("column")], false,
      [Validator(IsNonNegativeInt, ColumnMessage)])
  const CompletionLanguage := RequiredString("language", "Language is required")
  const CompletionContext := OptionalCheck("context", IsString)

  const CompletionRules: seq<Rule> :=
    [CompletionCode, CompletionCursor, CompletionLine, CompletionColumn, CompletionLanguage, CompletionContext]

  predicate IsNonNegativeInteger(v: Value)
  {
    IsInteger(v) && v.n >= 0.0
  }

  /** The bodies validateCompletionRequest accepts, stated field by field without the rule interpreter. */
  predicate CompletionRequestOk(body: Value)
  {
    var code := Get(body, "code");
    var position := Get(body, "cursorPosition");
    var context := Get(body, "context");
    code.Str? && 0 < |code.s| <= 50000 &&
    position.Obj? &&
    IsNonNegativeInteger(Get(position, "line")) &&
    IsNonNegativeInteger(Get(position, "column")) &&
    NonEmptyString(Get(body, "language")) &&
    (context.Absent? || context.Str?)
  }

  /** The cursor object rule fails, with its own message, exactly when there is no object. */
  lemma CursorObjectErrors(body: Value)
    ensures RuleErrors(CompletionCursor, body) ==
              if Get(body, "cursorPosition").Obj? then [] else [FieldError("cursorPosition", CursorRequired)]
  {
    RequiredCheckErrors("cursorPosition", IsObject, CursorRequired, body);
  }

  /** The line rule fails, with its own message, exactly when the line is not a non-negative integer. */
  lemma CursorLineErrors(body: Value)
    ensures RuleErrors(CompletionLine, body) ==
              if IsNonNegativeInteger(Get(Get(body, "cursorPosition"), "line")) then []
              else [FieldError("cursorPosition.line", LineMessage)]
  {
    assert "cursorPosition" + "." + "line" == "cursorPosition.line";
    NestedCheckErrors(CompletionLine, "cursorPosition", "line", body);
  }

  /** The column rule fails, with its own message, exactly when the column is not a non-negative integer. */
  lemma CursorColumnErrors(body: Value)
    ensures RuleErrors(CompletionColumn, body) ==
              if IsNonNegativeInteger(Get(Get(body, "cursorPosition"), "column")) then []
              else [FieldError("cursorPosition.column", ColumnMessage)]
  {
    assert "cursorPosition" + "." + "column" == "cursorPosition.column";
    NestedCheckErrors(CompletionColumn, "cursorPosition", "column", body);
  }

  /** Each cursor rule fails on its own, with its own message, exactly when its condition fails. */
  lemma CompletionCursorErrors(body: Value)
    ensures var position := Get(body, "cursorPosition");
            && RuleErrors(CompletionCursor, body) ==
                 (if position.Obj? then [] else [FieldError("cursorPosition", CursorRequired)])
            && RuleErrors(CompletionLine, body) ==
                 (if IsNonNegativeInteger(Get(position, "line")) then []
                  else [FieldError("cursorPosition.line", LineMessage)])
            && RuleErrors(CompletionColumn, body) ==
                 (if IsNonNegativeInteger(Get(position, "column")) then []
                  else [FieldError("cursorPosition.column", ColumnMessage)])
  {
    CursorObjectErrors(body);
    CursorLineErrors(body);
    CursorColumnErrors(body);
  }

  /** The errors of a completion request: every rule's, in declaration order. */
  lemma CompletionErrorsInOrder(body: Value)
    ensures Validate(CompletionRules, body) ==
              RuleErrors(CompletionCode, body) + RuleErrors(CompletionCursor, body) +
              RuleErrors(CompletionLine, body) + RuleErrors(CompletionColumn, body) +
              RuleErrors(CompletionLanguage, body) + RuleErrors(CompletionContext, body)
  {
    ValidateSix(CompletionCode, CompletionCursor, CompletionLine, CompletionColumn, CompletionLanguage,
      CompletionContext, body);
  }

  /** Every completion rule is silent exactly when the request is well formed. */
  lemma CompletionRulesSilent(body: Value)
    ensures RuleErrors(CompletionCode, body) == [] && RuleErrors(CompletionCursor, body) == [] &&
            RuleErrors(CompletionLine, body) == [] && RuleErrors(CompletionColumn, body) == [] &&
            RuleErrors(CompletionLanguage, body) == [] && RuleErrors(CompletionContext, body) == []
            <==> CompletionRequestOk(body)
  {
    CodeRuleSilent(CompletionCodeLimit, "Code is required", "Code too long (max 50KB)", body);
    CompletionCursorErrors(body);
    RequiredStringSilent("language", "Language is required", body);
    OptionalCheckSilent("context", IsString, body);
  }

  /**
   * `validateCompletionRequest` followed by the collection of its errors:
   * there is none exactly when the request is well formed.
   */
  function ValidateCompletionRequest(body: Value): (errs: seq<FieldError>)
    ensures errs == [] <==> CompletionRequestOk(body)
  {
    ValidateSix(CompletionCode, CompletionCursor, CompletionLine, CompletionColumn, CompletionLanguage,
      CompletionContext, body);
    CompletionRulesSilent(body);
    Validate(CompletionRules, body)
  }

  /** A non-empty code text passes at exactly 50 000 characters and fails one character later. */
  lemma CompletionCodeLimitExact(body: Value)
    requires NonEmptyString(Get(body, "code"))
    ensures |Get(body, "code").s| <= 50000 ==> RuleErrors(CompletionCode, body) == []
    ensures |Get(body, "code").s| > 50000 ==>
              RuleErrors(CompletionCode, body) == [FieldError("code", "Code too long (max 50KB)")]
  {
    CodeRuleErrors(CompletionCodeLimit, "Code is required", "Code too long (max 50KB)", body);
  }

  /** An over-long code text is reported whatever the other fields hold. */
  lemma CompletionCodeTooLong(body: Value)
    requires Get(body, "code").Str? && |Get(body, "code").s| > 50000
    ensures FieldError("code", "Code too long (max 50KB)") in ValidateCompletionRequest(body)
  {
    CompletionErrorsInOrder(body);
    CompletionCodeLimitExact(body);
  }

  /**
   * Without a cursor position object the three cursor rules all fail, each
   * with its own message, between the code errors and the language errors.
   */
  lemma CompletionMissingCursor(body: Value)
    requires !Get(body, "cursorPosition").Obj?
    ensures ValidateCompletionRequest(body) ==
              RuleErrors(CompletionCode, body) +
              [ FieldError("cursorPosition", CursorRequired),
                FieldError("cursorPosition.line", LineMessage),
                FieldError("cursorPosition.column", ColumnMessage) ] +
              RuleErrors(CompletionLanguage, body) + RuleErrors(CompletionContext, body)
  {
    var e1 := FieldError("cursorPosition", CursorRequired);
    var e2 := FieldError("cursorPosition.line", LineMessage);
    var e3 := FieldError("cursorPosition.column", ColumnMessage);
    var cursor := RuleErrors(CompletionCursor, body) + RuleErrors(CompletionLine, body) +
                  RuleErrors(CompletionColumn, body);
    assert cursor == [e1, e2, e3] by {
      CompletionCursorErrors(body);
    }
    CompletionErrorsInOrder(body);
    GroupThree(RuleErrors(CompletionCode, body), RuleErrors(CompletionCursor, body),
      RuleErrors(CompletionLine, body), RuleErrors(CompletionColumn, body));
  }

  /** A missing or empty `code` or `language` is reported under that field's name. */
  lemma CompletionMissingRequired(body: Value)
    ensures var v := Get(body, "code");
            v.Absent? || v.Null? || v == Str("") ==>
              FieldError("code", "Code is required") in ValidateCompletionRequest(body)
    ensures var v := Get(body, "language");
            v.Absent? || v.Null? || v == Str("") ==>
              FieldError("language", "Language is required") in ValidateCompletionRequest(body)
  {
    CompletionErrorsInOrder(body);
    CodeRuleErrors(CompletionCodeLimit, "Code is required", "Code too long (max 50KB)", body);
    RequiredStringErrors("language", "Language is required", body);
  }

  /** A line or column that is not a non-negative integer is reported under its own field. */
  lemma CompletionBadCursorField(body: Value)
    ensures !IsNonNegativeInteger(Get(Get(body, "cursorPosition"), "line")) ==>
              FieldError("cursorPosition.line", LineMessage) in ValidateCompletionRequest(body)
    ensures !IsNonNegativeInteger(Get(Get(body, "cursorPosition"), "column")) ==>
              FieldError("cursorPosition.column", ColumnMessage) in ValidateCompletionRequest(body)
  {
    CompletionErrorsInOrder(body);
    CompletionCursorErrors(body);
  }

  // ---------------------------------------------------------------------
  // validateAnalysisRequest
  // ---------------------------------------------------------------------

  const AnalysisCode := CodeRule(AnalysisCodeLimit, "Code is required", "Code too long (max 100KB)")
  const AnalysisFilePath := RequiredString("filePath", "File path is required")
  const AnalysisLanguage := RequiredString("language", "Language is required")
  const AnalysisFramework := OptionalCheck("framework", IsString)
  const AnalysisStructure := OptionalCheck("projectStructure", IsString)
  const AnalysisDependencies := OptionalCheck("dependencies", IsArray(0))
  const AnalysisConfig := OptionalCheck("config", IsObject)
  const AnalysisUserId := OptionalCheck("userId", IsString)

  const AnalysisRules: seq<Rule> :=
    [ AnalysisCode, AnalysisFilePath, AnalysisLanguage, AnalysisFramework,
      AnalysisStructure, AnalysisDependencies, AnalysisConfig, AnalysisUserId ]

  predicate AnalysisRequestOk(body: Value)
  {
    var code := Get(body, "code");
    code.Str? && 0 < |code.s| <= 100000 &&
    NonEmptyString(Get(body, "filePath")) &&
    NonEmptyString(Get(body, "language")) &&
    (Get(body, "framework").Absent? || Get(body, "framework").Str?) &&
    (Get(body, "projectStructure").Absent? || Get(body, "projectStructure").Str?) &&
    (Get(body, "dependencies").Absent? || Get(body, "dependencies").Arr?) &&
    (Get(body, "config").Absent? || Get(body, "config").Obj?) &&
    (Get(body, "userId").Absent? || Get(body, "userId").Str?)
  }

  /** `validateAnalysisRequest`: no error exactly when the request is well formed. */
  function ValidateAnalysisRequest(body: Value): (errs: seq<FieldError>)
    ensures errs == [] <==> AnalysisRequestOk(body)
  {
    ValidateEight(AnalysisCode, AnalysisFilePath, AnalysisLanguage, AnalysisFramework,
      AnalysisStructure, AnalysisDependencies, AnalysisConfig, AnalysisUserId, body);
    AnalysisRequiredSilent(body);
    AnalysisTextOptionsSilent(body);
    AnalysisStructuredOptionsSilent(body);
    Validate(AnalysisRules, body)
  }

  /** The three required analysis rules are silent exactly when their members are well formed. */
  lemma AnalysisRequiredSilent(body: Value)
    ensures var code := Get(body, "code");
            RuleErrors(AnalysisCode, body) == [] && RuleErrors(AnalysisFilePath, body) == [] &&
            RuleErrors(AnalysisLanguage, body) == []
            <==>
            code.Str? && 0 < |code.s| <= 100000 &&
            NonEmptyString(Get(body, "filePath")) && NonEmptyString(Get(body, "language"))
  {
    CodeRuleSilent(AnalysisCodeLimit, "Code is required", "Code too long (max 100KB)", body);
    RequiredStringSilent("filePath", "File path is required", body);
    RequiredStringSilent("language", "Language is required", body);
  }

  /** The optional text members of an analysis request: each may be missing, or else must be a string. */
  lemma AnalysisTextOptionsSilent(body: Value)
    ensures RuleErrors(AnalysisFramework, body) == [] && RuleErrors(AnalysisStructure, body) == [] &&
            RuleErrors(AnalysisUserId, body) == []
            <==>
            (Get(body, "framework").Absent? || Get(body, "framework").Str?) &&
            (Get(body, "projectStructure").Absent? || Get(body, "projectStructure").Str?) &&
            (Get(body, "userId").Absent? || Get(body, "userId").Str?)
  {
    OptionalCheckSilent("framework", IsString, body);
    OptionalCheckSilent("projectStructure", IsString, body);
    OptionalCheckSilent("userId", IsString, body);
  }

  /** The optional structured members: `dependencies` may be missing or an array, `config` missing or an object. */
  lemma AnalysisStructuredOptionsSilent(body: Value)
    ensures RuleErrors(AnalysisDependencies, body) == [] && RuleErrors(AnalysisConfig, body) == []
            <==>
            (Get(body, "dependencies").Absent? || Get(body, "dependencies").Arr?) &&
            (Get(body, "config").Absent? || Get(body, "config").Obj?)
  {
    OptionalCheckSilent("dependencies", IsArray(0), body);
    OptionalCheckSilent("config", IsObject, body);
  }

  /** The analysis code limit is 100 000 characters. */
  lemma AnalysisCodeLimitExact(body: Value)
    requires NonEmptyString(Get(body, "code"))
    ensures |Get(body, "code").s| <= 100000 ==> RuleErrors(AnalysisCode, body) == []
    ensures |Get(body, "code").s| > 100000 ==>
              RuleErrors(AnalysisCode, body) == [FieldError("code", "Code too long (max 100KB)")]
  {
    CodeRuleErrors(AnalysisCodeLimit, "Code is required", "Code too long (max 100KB)", body);
  }

  // ---------------------------------------------------------------------
  // validateChatRequest
  // ---------------------------------------------------------------------

  const ChatMessages := RequiredCheck("messages", IsArray(1), "Messages array is required")
  const ChatRole :=
    Rule([Key("messages"), Each, Key("role")], false,
      [Validator(IsIn(["user", "assistant"]), "Invalid message role")])
  const ChatContent :=
    Rule([Key("messages"), Each, Key("content")], false,
      [Validator(IsString, DefaultMessage), Validator(NotEmpty, "Message content is required")])

  const ChatContext := OptionalCheck("context", IsObject)
  const ChatUserId := OptionalCheck("userId", IsString)

  const ChatRules: seq<Rule> :=
    [ChatMessages, ChatRole, ChatContent, ChatContext, ChatUserId]

  predicate IsRole(v: Value)
  {
    v == Str("user") || v == Str("assistant")
  }

  predicate ChatRequestOk(body: Value)
  {
    var messages := Get(body, "messages");
    messages.Arr? && |messages.items| >= 1 &&
    (forall k :: 0 <= k < |messages.items| ==>
       IsRole(Get(messages.items[k], "role")) && NonEmptyString(Get(messages.items[k], "content"))) &&
    (Get(body, "context").Absent? || Get(body, "context").Obj?) &&
    (Get(body, "userId").Absent? || Get(body, "userId").Str?)
  }

  /** The role rule checks every message and reports a bad one under its own index. */
  lemma ChatRoleErrors(body: Value)
    ensures var m := Get(body, "messages");
            RuleErrors(ChatRole, body) == [] <==>
              (m.Arr? ==> forall k :: 0 <= k < |m.items| ==> IsRole(Get(m.items[k], "role")))
    ensures var m := Get(body, "messages");
            forall k :: m.Arr? && 0 <= k < |m.items| && !IsRole(Get(m.items[k], "role")) ==>
              FieldError(ElementField("messages", k, "role"), "Invalid message role") in RuleErrors(ChatRole, body)
  {
    WildcardRuleSilent(ChatRole, "messages", "role", body);
    WildcardRuleReports(ChatRole, "messages", "role", body);
    var check := ChatRole.validators[0].check;
    assert |ChatRole.validators| == 1;
    forall v: Value ensures Holds(check, v) <==> IsRole(v) {
      assert check == IsIn(["user", "assistant"]);
    }
  }

  /** The content rule checks every message: a non-empty string is required in each. */
  lemma ChatContentErrors(body: Value)
    ensures var m := Get(body, "messages");
            RuleErrors(ChatContent, body) == [] <==>
              (m.Arr? ==> forall k :: 0 <= k < |m.items| ==> NonEmptyString(Get(m.items[k], "content")))
  {
    var m := Get(body, "messages");
    var vs := ChatContent.validators;
    WildcardRuleSilent(ChatContent, "messages", "content", body);
    assert |vs| == 2 && vs[0].check == IsString && vs[1].check == NotEmpty;
    if m.Arr? {
      if forall k :: 0 <= k < |m.items| ==> NonEmptyString(Get(m.items[k], "content")) {
        forall k, j | 0 <= k < |m.items| && 0 <= j < |vs| ensures Holds(vs[j].check, Get(m.items[k], "content")) {
          assert j == 0 || j == 1;
        }
      }
      if RuleErrors(ChatContent, body) == [] {
        forall k | 0 <= k < |m.items| ensures NonEmptyString(Get(m.items[k], "content")) {
          assert Holds(vs[0].check, Get(m.items[k], "content")) && Holds(vs[1].check, Get(m.items[k], "content"));
        }
      }
    }
  }

  /** `validateChatRequest`: no error exactly when the request is well formed. */
  function ValidateChatRequest(body: Value): (errs: seq<FieldError>)
    ensures errs == [] <==> ChatRequestOk(body)
  {
    ValidateFive(ChatMessages, ChatRole, ChatContent, ChatContext, ChatUserId, body);
    ChatRulesSilent(body);
    Validate(ChatRules, body)
  }

  /** The three message rules are silent exactly when there is at least one message and each is well formed. */
  lemma ChatMessagesSilent(body: Value)
    ensures var m := Get(body, "messages");
            RuleErrors(ChatMessages, body) == [] && RuleErrors(ChatRole, body) == [] &&
            RuleErrors(ChatContent, body) == []
            <==>
            m.Arr? && |m.items| >= 1 &&
            forall k :: 0 <= k < |m.items| ==>
              IsRole(Get(m.items[k], "role")) && NonEmptyString(Get(m.items[k], "content"))
  {
    RequiredCheckErrors("messages", IsArray(1), "Messages array is required", body);
    ChatRoleErrors(body);
    ChatContentErrors(body);
  }

  /** Every chat rule is silent exactly when the request is well formed. */
  lemma ChatRulesSilent(body: Value)
    ensures RuleErrors(ChatMessages, body) == [] && RuleErrors(ChatRole, body) == [] &&
            RuleErrors(ChatContent, body) == [] && RuleErrors(ChatContext, body) == [] &&
            RuleErrors(ChatUserId, body) == []
            <==> ChatRequestOk(body)
  {
    ChatMessagesSilent(body);
    OptionalCheckSilent("context", IsObject, body);
    OptionalCheckSilent("userId", IsString, body);
  }

  // ---------------------------------------------------------------------
  // validateUserSettings and validateUserId
  // ---------------------------------------------------------------------

  const SettingsObject := RequiredCheck("settings", IsObject, "Settings object is required")
  const SettingsExperimental := Rule([Key("settings"), Key("experimental")], true, [Validator(IsObject, DefaultMessage)])
  const SettingsAi := Rule([Key("settings"), Key("ai")], true, [Validator(IsObject, DefaultMessage)])

  const SettingsRules: seq<Rule> := [SettingsObject, SettingsExperimental, SettingsAi]

  predicate UserSettingsOk(body: Value)
  {
    var settings := Get(body, "settings");
    settings.Obj? &&
    (Get(settings, "experimental").Absent? || Get(settings, "experimental").Obj?) &&
    (Get(settings, "ai").Absent? || Get(settings, "ai").Obj?)
  }

  /** `validateUserSettings`: no error exactly when the settings are well formed. */
  function ValidateUserSettings(body: Value): (errs: seq<FieldError>)
    ensures errs == [] <==> UserSettingsOk(body)
  {
    ValidateThree(SettingsObject, SettingsExperimental, SettingsAi, body);
    RequiredCheckErrors("settings", IsObject, "Settings object is required", body);
    NestedCheckErrors(SettingsExperimental, "settings", "experimental", body);
    NestedCheckErrors(SettingsAi, "settings", "ai", body);
    Validate(SettingsRules, body)
  }

  /** The one rule over the route parameters: `param('userId')`. */
  const UserIdRules: seq<Rule> := [RequiredString("userId", "User ID is required")]

  /** `validateUserId`: no error exactly when the parameter is a non-empty string. */
  function ValidateUserId(params: Value): (errs: seq<FieldError>)
    ensures errs == [] <==> NonEmptyString(Get(params, "userId"))
  {
    ValidateOne(RequiredString("userId", "User ID is required"), params);
    RequiredStringSilent("userId", "User ID is required", params);
    Validate(UserIdRules, params)
  }

  // ---------------------------------------------------------------------
  // handleValidationErrors
  // ---------------------------------------------------------------------

  datatype Gate = Respond(response: Response) | Next

  /** Either the 400 response with the complete error list, or a pass to the next handler. */
  function HandleValidationErrors(errors: seq<FieldError>): (g: Gate)
    ensures g.Next? <==> errors == []
    ensures g.Respond? ==> g.response == Response(400, ValidationFailure("Validation failed", errors))
  {
    if errors != [] then Respond(Response(400, ValidationFailure("Validation failed", errors))) else Next
  }

  /** A completion request reaches the route handler exactly when it is well formed. */
  lemma CompletionGate(body: Value)
    ensures HandleValidationErrors(ValidateCompletionRequest(body)).Next? <==> CompletionRequestOk(body)
    ensures !CompletionRequestOk(body) ==>
              HandleValidationErrors(ValidateCompletionRequest(body)).response ==
                Response(400, ValidationFailure("Validation failed", ValidateCompletionRequest(body)))
  {
  }
}
