/** The step chain and the rule library of the request-validation framework.
    A field's raw value starts a chain (`ValidationStart`); each rule wraps the
    chain so far in a `ValidationPart`, and folding the chain folds the
    predecessor first, so the first failing rule ends it. */
module Validation {
  import opened Wrappers
  import opened Text
  import opened Errors

  /** The values that flow through a chain: the raw query string, the integers
      produced by `int()`/`long()`, the booleans of `boolean()` and the enum
      constants (by name) of `entryIn()`. */
  datatype Value = StrVal(s: string) | IntVal(i: int) | BoolVal(b: bool) | EnumVal(name: string)

  datatype ValueType = StrType | IntType | BoolType | EnumType

  function TypeOf(v: Value): ValueType
  {
    match v
    case StrVal(_) => StrType
    case IntVal(_) => IntType
    case BoolVal(_) => BoolType
    case EnumVal(_) => EnumType
  }

  /** How a value is printed inside a Kotlin string template. */
  function Show(v: Value): string
  {
    match v
    case StrVal(s) => s
    case IntVal(i) => IntToString(i)
    case BoolVal(b) => if b then "true" else "false"
    case EnumVal(n) => n
  }

  /** The combinators of `ValidationScope` (the floating-point parsers aside). */
  datatype Rule =
    | AtLeast(min: int)
    | AtMost(max: int)
    | InRange(lo: int, hi: int)
    | Matches(other: string, ignoreCase: bool)
    | ParseInt
    | ParseLong
    | ParseBoolean
    | EntryIn(enumClass: string, members: seq<string>)

  /** The Kotlin type a rule's lambda accepts. */
  function InputType(r: Rule): ValueType
  {
    match r
    case AtLeast(_) => IntType
    case AtMost(_) => IntType
    case InRange(_, _) => IntType
    case _ => StrType
  }

  /** The Kotlin type a rule's lambda produces. */
  function OutputType(r: Rule): ValueType
  {
    match r
    case ParseInt => IntType
    case ParseLong => IntType
    case ParseBoolean => BoolType
    case EntryIn(_, _) => EnumType
    case _ => InputType(r)
  }

  /** The names of the enum constants, lower-cased, as `entryIn` lists them. */
  function LowerAll(names: seq<string>): (r: seq<string>)
    ensures |r| == |names|
    ensures forall i :: 0 <= i < |names| ==> r[i] == Lower(names[i])
  {
    seq(|names|, i requires 0 <= i < |names| => Lower(names[i]))
  }

  /** The fixed `hintBody` each combinator gives its part. */
  function Hint(r: Rule): string
  {
    match r
    case AtLeast(n) => "must be at least " + IntToString(n)
    case AtMost(n) => "must be at most " + IntToString(n)
    case InRange(lo, hi) => "must be in range " + IntToString(lo) + ".." + IntToString(hi)
    case Matches(o, ic) => "must match '" + o + "'" + (if ic then " ignoring case" else "")
    case ParseInt => "must be an integer"
    case ParseLong => "must be an long"
    case ParseBoolean => "must be a boolean"
    case EntryIn(_, ms) => "is not a part of allowed options [" + Join(LowerAll(ms), ", ") + "]"
  }

  // ---- number parsing as Kotlin's toIntOrNull / toLongOrNull do it ----

  /** Kotlin's decimal grammar: a `+` or `-` followed by at least one digit,
      or at least one digit; anything else yields no value. */
  function ParseDecimal(s: string): Option<int>
  {
    if |s| == 0 then None
    else if s[0] == '-' || s[0] == '+' then
      if |s| > 1 && AllDigits(s[1..]) then
        Some(if s[0] == '-' then 0 - DigitsValue(s[1..]) else DigitsValue(s[1..]))
      else None
    else if AllDigits(s) then Some(DigitsValue(s))
    else None
  }

  predicate InSignedRange(v: int, bits: nat)
  {
    -Pow2(bits - 1) <= v < Pow2(bits - 1)
  }

  function Pow2(n: int): (p: int)
    ensures p >= 1
    decreases if n < 0 then 0 else n
  {
    if n <= 0 then 1 else 2 * Pow2(n - 1)
  }

  /** `String.toIntOrNull()` (bits = 32) and `String.toLongOrNull()` (bits = 64). */
  function ToIntegerOrNull(s: string, bits: nat): (r: Option<int>)
    ensures r.Some? ==> InSignedRange(r.value, bits)
  {
    match ParseDecimal(s)
    case Some(v) => if InSignedRange(v, bits) then Some(v) else None
    case None => None
  }

  /** The lambda of each combinator: `Success`, `Failed`, or an exception the
      lambda itself throws (`Raised`). */
  datatype RuleOutcome = Success(value: Value) | Failed | Raised(error: Throwable)

  const IllegalArgumentException := "java.lang.IllegalArgumentException"

  function Apply(r: Rule, v: Value): (o: RuleOutcome)
    requires TypeOf(v) == InputType(r)
    ensures o.Success? ==> TypeOf(o.value) == OutputType(r)
    ensures o.Raised? ==> r.EntryIn?
  {
    match r
    case AtLeast(n) => if v.i >= n then Success(v) else Failed
    case AtMost(n) => if v.i <= n then Success(v) else Failed
    case InRange(lo, hi) => if lo <= v.i <= hi then Success(v) else Failed
    case Matches(o, ic) =>
      if (if ic then EqualsIgnoreCase(v.s, o) else v.s == o) then Success(v) else Failed
    case ParseInt =>
      (match ToIntegerOrNull(v.s, 32) case Some(x) => Success(IntVal(x)) case None => Failed)
    case ParseLong =>
      (match ToIntegerOrNull(v.s, 64) case Some(x) => Success(IntVal(x)) case None => Failed)
    case ParseBoolean =>
      var l := Lower(v.s);
      if l == "true" then Success(BoolVal(true))
      else if l == "false" then Success(BoolVal(false))
      else Failed
    case EntryIn(c, ms) =>
      // membership is tested on the raw input, then the constant is looked up by that same string
      if v.s in LowerAll(ms) then
        if v.s in ms then Success(EnumVal(v.s))
        else Raised(Foreign(IllegalArgumentException, Some("No enum constant " + c + "." + v.s)))
      else Failed
  }

  // ---- the chain ----

  /** `ValidationStart(input)` or `ValidationPart(hintBody, previous, rule)`. */
  datatype Step = Start(input: Value) | Part(hintBody: string, previous: Step, rule: Rule)

  /** The Kotlin type of a chain's result, if the chain is well typed. */
  function StepType(s: Step): Option<ValueType>
  {
    match s
    case Start(v) => Some(TypeOf(v))
    case Part(_, prev, r) =>
      match StepType(prev)
      case Some(t) => if t == InputType(r) then Some(OutputType(r)) else None
      case None => None
  }

  predicate WellTyped(s: Step) { StepType(s).Some? }

  /** The message of the `RuleFailedError` a part throws. */
  function FailureMessage(name: string, hint: string, previous: Value): string
  {
    name + " " + hint + ", but instead was: '" + Show(previous) + "'"
  }

  /** `fold(name)`: a start yields its input; a part folds its predecessor,
      then applies its rule to the predecessor's value. */
  function Fold(s: Step, name: string): (r: Result<Value, Throwable>)
    requires WellTyped(s)
    ensures s.Start? ==> r == Ok(s.input)
    ensures r.Ok? ==> Some(TypeOf(r.value)) == StepType(s)
    ensures r.Err? ==> r.error.RuleFailed? || r.error.Foreign?
  {
    match s
    case Start(v) => Ok(v)
    case Part(hint, prev, rule) =>
      var p :- Fold(prev, name);
      match Apply(rule, p)
      case Success(v) => Ok(v)
      case Failed => Err(RuleFailed(FailureMessage(name, hint, p)))
      case Raised(e) => Err(e)
  }

  /** The rules whose lambdas `Fold` invokes, in the order it invokes them. */
  function Applied(s: Step, name: string): seq<Rule>
    requires WellTyped(s)
  {
    match s
    case Start(_) => []
    case Part(_, prev, rule) =>
      if Fold(prev, name).Ok? then Applied(prev, name) + [rule] else Applied(prev, name)
  }

  /** The chain-building combinator: wrap `s` in a part with the rule's hint. */
  function Extend(s: Step, r: Rule): Step
  {
    Part(Hint(r), s, r)
  }

  /** The chain a builder such as `{ it.int().inRange(1..200) }` produces from
      a start: the rules are applied in the order written. */
  function Build(start: Step, rules: seq<Rule>): Step
  {
    if rules == [] then start else Extend(Build(start, rules[..|rules| - 1]), rules[|rules| - 1])
  }

  /** The type a list of rules produces from an input type, if it is well typed. */
  function ChainType(t: ValueType, rules: seq<Rule>): Option<ValueType>
  {
    if rules == [] then Some(t)
    else match ChainType(t, rules[..|rules| - 1])
      case Some(u) =>
        if u == InputType(rules[|rules| - 1]) then Some(OutputType(rules[|rules| - 1])) else None
      case None => None
  }

  lemma {:induction false} BuildType(v: Value, rules: seq<Rule>)
    ensures StepType(Build(Start(v), rules)) == ChainType(TypeOf(v), rules)
  {
    if rules != [] {
      BuildType(v, rules[..|rules| - 1]);
    }
  }

  lemma {:induction false} BuildPrefixTyped(v: Value, rules: seq<Rule>, k: nat)
    requires k <= |rules|
    requires WellTyped(Build(Start(v), rules))
    ensures WellTyped(Build(Start(v), rules[..k]))
  {
    if k < |rules| {
      assert rules[..|rules| - 1][..k] == rules[..k];
      BuildPrefixTyped(v, rules[..|rules| - 1], k);
    } else {
      assert rules[..k] == rules;
    }
  }

  /** Fail-fast: when the first k rules succeed and rule k fails, the whole
      chain fails with rule k's message about the value before it. */
  lemma {:induction false} ChainFailsAt(v: Value, rules: seq<Rule>, name: string, k: nat)
    requires k < |rules|
    requires WellTyped(Build(Start(v), rules))
    requires WellTyped(Build(Start(v), rules[..k]))
    requires Fold(Build(Start(v), rules[..k]), name).Ok?
    requires TypeOf(Fold(Build(Start(v), rules[..k]), name).value) == InputType(rules[k])
    requires Apply(rules[k], Fold(Build(Start(v), rules[..k]), name).value).Failed?
    ensures Fold(Build(Start(v), rules), name) ==
            Err(RuleFailed(FailureMessage(name, Hint(rules[k]), Fold(Build(Start(v), rules[..k]), name).value)))
  {
    var last := |rules| - 1;
    var init := rules[..last];
    var s0 := Build(Start(v), init);
    var s := Build(Start(v), rules);
    assert s == Part(Hint(rules[last]), s0, rules[last]);
    if k == last {
      assert init == rules[..k];
    } else {
      assert init[..k] == rules[..k];
      assert init[k] == rules[k];
      ChainFailsAt(v, init, name, k);
      assert Fold(s, name) == Fold(s0, name);
    }
  }

  /** ... and no rule after rule k is ever applied. */
  lemma {:induction false} ChainStopsAtFirstFailure(v: Value, rules: seq<Rule>, name: string, k: nat)
    requires k < |rules|
    requires WellTyped(Build(Start(v), rules))
    requires WellTyped(Build(Start(v), rules[..k]))
    requires Fold(Build(Start(v), rules[..k]), name).Ok?
    requires TypeOf(Fold(Build(Start(v), rules[..k]), name).value) == InputType(rules[k])
    requires Apply(rules[k], Fold(Build(Start(v), rules[..k]), name).value).Failed?
    ensures Applied(Build(Start(v), rules), name) == rules[..k + 1]
  {
    var last := |rules| - 1;
    var init := rules[..last];
    var s0 := Build(Start(v), init);
    var s := Build(Start(v), rules);
    assert s == Part(Hint(rules[last]), s0, rules[last]);
    if k == last {
      assert init == rules[..k];
      assert rules[..k + 1] == rules;
      ChainAppliesEveryRule(v, init, name);
      assert Applied(s0, name) == init;
      assert Applied(s, name) == Applied(s0, name) + [rules[last]];
      assert init + [rules[last]] == rules;
    } else {
      assert init[..k] == rules[..k];
      assert init[k] == rules[k];
      assert init[..k + 1] == rules[..k + 1];
      ChainStopsAtFirstFailure(v, init, name, k);
      ChainFailsAt(v, init, name, k);
      assert Applied(s0, name) == rules[..k + 1];
      assert Fold(s0, name).Err?;
      assert Applied(s, name) == Applied(s0, name);
    }
  }

  /** When every rule succeeds, the chain yields the last rule's value and
      every rule was applied once, in order. */
  lemma {:induction false} ChainAppliesEveryRule(v: Value, rules: seq<Rule>, name: string)
    requires WellTyped(Build(Start(v), rules))
    requires Fold(Build(Start(v), rules), name).Ok?
    ensures Applied(Build(Start(v), rules), name) == rules
  {
    if rules != [] {
      var init := rules[..|rules| - 1];
      assert Fold(Build(Start(v), init), name).Ok?;
      ChainAppliesEveryRule(v, init, name);
    }
  }

  // ---- properties of the rule library ----

  /** `inRange(lo..hi)` includes both bounds and accepts exactly the values
      that both `atLeast(lo)` and `atMost(hi)` accept, returning them unchanged. */
  lemma InRangeIsAtLeastAndAtMost(lo: int, hi: int, x: int)
    ensures Apply(InRange(lo, hi), IntVal(x)).Success? <==>
            Apply(AtLeast(lo), IntVal(x)).Success? && Apply(AtMost(hi), IntVal(x)).Success?
    ensures Apply(InRange(lo, hi), IntVal(x)).Success? ==> Apply(InRange(lo, hi), IntVal(x)).value == IntVal(x)
    ensures lo <= hi ==> Apply(InRange(lo, hi), IntVal(lo)) == Success(IntVal(lo))
    ensures lo <= hi ==> Apply(InRange(lo, hi), IntVal(hi)) == Success(IntVal(hi))
  {
  }

  /** `matches` without ignoring case is string equality; with ignoring case
      it is `equalsIgnoreCase`, which accepts every equal string and only
      strings of the other's length. */
  lemma MatchesCaseSensitivity(s: string, other: string)
    ensures Apply(Matches(other, false), StrVal(s)).Success? <==> s == other
    ensures s == other ==> Apply(Matches(other, true), StrVal(s)) == Success(StrVal(s))
    ensures Apply(Matches(other, true), StrVal(s)).Success? <==> EqualsIgnoreCase(s, other)
    ensures Apply(Matches(other, true), StrVal(s)).Success? ==> |s| == |other|
  {
  }

  lemma {:induction false} ParseDecimalRoundTrip(n: int)
    ensures ParseDecimal(IntToString(n)) == Some(n)
  {
    var s := IntToString(n);
    if n < 0 {
      var d := NatToString(-n);
      assert s == "-" + d;
      assert s[0] == '-' && s[1..] == d;
      NatToStringValue(-n);
      assert ParseDecimal(s) == Some(0 - DigitsValue(d));
    } else {
      assert s == NatToString(n);
      assert IsDigit(s[0]);
      NatToStringValue(n);
      assert ParseDecimal(s) == Some(DigitsValue(s));
    }
  }

  /** `int()` on the decimal rendering of an integer yields that integer when
      it fits in 32 bits and fails otherwise; `long()` likewise for 64 bits. */
  lemma ParseIntegerRoundTrip(n: int)
    ensures Apply(ParseInt, StrVal(IntToString(n))) ==
            (if InSignedRange(n, 32) then Success(IntVal(n)) else Failed)
    ensures Apply(ParseLong, StrVal(IntToString(n))) ==
            (if InSignedRange(n, 64) then Success(IntVal(n)) else Failed)
  {
    ParseDecimalRoundTrip(n);
  }

  /** `int()` and `long()` fail (and do not throw) on the empty string, on a
      lone sign, and on any string with a non-digit after the first character. */
  lemma ParseIntegerRejectsMalformed(s: string, bits: nat)
    requires s == [] || s == "+" || s == "-" ||
             (exists i :: 1 <= i < |s| && !IsDigit(s[i])) ||
             (|s| > 0 && !IsDigit(s[0]) && s[0] != '+' && s[0] != '-')
    ensures ToIntegerOrNull(s, bits) == None
  {
  }

  /** `boolean()` accepts exactly "true" and "false" in any letter case, and
      reads back what a boolean prints as. */
  lemma ParseBooleanExact(s: string, b: bool)
    ensures Apply(ParseBoolean, StrVal(s)).Success? <==> Lower(s) == "true" || Lower(s) == "false"
    ensures Apply(ParseBoolean, StrVal(s)).Success? ==>
            Apply(ParseBoolean, StrVal(s)).value == BoolVal(Lower(s) == "true")
    ensures Apply(ParseBoolean, StrVal(Show(BoolVal(b)))) == Success(BoolVal(b))
  {
    var t := Show(BoolVal(b));
    assert Lower(t) == t;
  }

  /** `entryIn` as written: the membership test compares the raw input with
      the lower-cased constant names, and the constant is then looked up by
      that raw input, so it succeeds only for a constant whose name is
      already lower case, and throws `IllegalArgumentException` for every
      other input that passes the test. */
  lemma EntryInAsWritten(c: string, ms: seq<string>, s: string)
    ensures Apply(EntryIn(c, ms), StrVal(s)).Failed? <==> s !in LowerAll(ms)
    ensures Apply(EntryIn(c, ms), StrVal(s)).Success? <==> s in ms && s == Lower(s) && s in LowerAll(ms)
    ensures Apply(EntryIn(c, ms), StrVal(s)).Success? ==> Apply(EntryIn(c, ms), StrVal(s)).value == EnumVal(s)
  {
    if s in ms {
      var i :| 0 <= i < |ms| && ms[i] == s;
      if s == Lower(s) {
        assert LowerAll(ms)[i] == s;
      }
    }
    if s in LowerAll(ms) {
      var i :| 0 <= i < |ms| && LowerAll(ms)[i] == s;
      LowerIdempotent(ms[i]);
    }
  }

  /** The sort parameter of the pokemon list: `id` passes the membership
      test of `entryIn<PokemonSorting>()` and then throws, because the
      constant is named `Id`; the intended rule yields `Id`. */
  lemma EntryInSortingThrows()
    ensures Apply(EntryIn("PokemonSorting", ["Id", "Natural"]), StrVal("id")).Raised?
    ensures EntryInIntended(["Id", "Natural"], StrVal("id")) == Success(EnumVal("Id"))
  {
    assert Lower("Id") == "id";
    assert LowerAll(["Id", "Natural"])[0] == "id";
  }

  /** The first constant whose lower-cased name is `s`. */
  function MemberNamed(ms: seq<string>, s: string): (r: Option<string>)
    ensures r.Some? <==> s in LowerAll(ms)
    ensures r.Some? ==> r.value in ms && Lower(r.value) == s
  {
    if ms == [] then None
    else if Lower(ms[0]) == s then Some(ms[0])
    else
      var r := MemberNamed(ms[1..], s);
      assert LowerAll(ms) == [Lower(ms[0])] + LowerAll(ms[1..]);
      r
  }

  /** `entryIn` as evidently intended: the input is matched against the
      lower-cased names and the constant is found by its lower-cased name. */
  function EntryInIntended(ms: seq<string>, v: Value): RuleOutcome
    requires v.StrVal?
  {
    match MemberNamed(ms, v.s)
    case Some(m) => Success(EnumVal(m))
    case None => Failed
  }

  /** The intended `entryIn` never throws: it succeeds exactly for the
      lower-cased name of a constant, with that constant, and fails with the
      same verdict as the written membership test otherwise. */
  lemma EntryInIntendedNeverThrows(c: string, ms: seq<string>, s: string)
    ensures !EntryInIntended(ms, StrVal(s)).Raised?
    ensures EntryInIntended(ms, StrVal(s)).Success? <==> s in LowerAll(ms)
    ensures EntryInIntended(ms, StrVal(s)).Success? ==>
      var n := EntryInIntended(ms, StrVal(s)).value.name; n in ms && Lower(n) == s
    ensures EntryInIntended(ms, StrVal(s)).Failed? <==> Apply(EntryIn(c, ms), StrVal(s)).Failed?
  {
  }

  lemma LowerIdempotent(s: string)
    ensures Lower(Lower(s)) == Lower(s)
  {
  }
}
