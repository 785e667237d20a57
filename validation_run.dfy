/** Field delegates and the `Validator` that owns them. A delegate holds a
    field's raw input, its chain builder and a result slot that starts as
    `NotInitialized`; `Validator.Run` invokes every delegate in registration
    order and gathers the rule failures into one `ValidationFailedError`. */
module ValidationRun {
  import opened Wrappers
  import opened Errors
  import opened Validation

  /** `RequiredValidationDelegate` or `OptionalValidationDelegate`. */
  datatype Policy = Required | Optional

  /** A delegate's result slot; the value is nullable because an optional
      field's type is `R?`. */
  datatype ValidationResult = NotInitialized | Completed(result: Option<Value>)

  /** The immutable part of a delegate: policy, raw input (absent for a
      missing query parameter), the rules its builder applies, and the name
      of the property it is bound to. */
  datatype Binding = Binding(policy: Policy, input: Option<Value>, builder: seq<Rule>, name: string)

  /** Kotlin's type system guarantees that the builder accepts the input's type. */
  predicate Typed(b: Binding)
  {
    b.input.Some? ==> WellTyped(Build(Start(b.input.value), b.builder))
  }

  function NotNullMessage(name: string): string { name + " should not be null" }

  /** The exception `invoke()` throws, if any. The optional delegate's
      `invoke()` has an empty body. */
  function Thrown(b: Binding): (t: Option<Throwable>)
    requires Typed(b)
    ensures b.policy.Optional? ==> t.None?
    ensures b.policy.Required? && b.input.None? ==> t == Some(RuleFailed(NotNullMessage(b.name)))
  {
    match b.policy
    case Optional => None
    case Required =>
      match b.input
      case None => Some(RuleFailed(NotNullMessage(b.name)))
      case Some(v) =>
        match Fold(Build(Start(v), b.builder), b.name)
        case Ok(_) => None
        case Err(e) => Some(e)
  }

  /** What `invoke()` writes to the result slot, if anything: only a required
      delegate whose chain folds without throwing. */
  function Stored(b: Binding): (r: Option<ValidationResult>)
    requires Typed(b)
    ensures r.Some? <==> b.policy.Required? && Thrown(b).None?
    ensures r.Some? ==> r.value.Completed? && r.value.result.Some?
    ensures r.Some? ==>
      b.input.Some? && Fold(Build(Start(b.input.value), b.builder), b.name) == Ok(r.value.result.value)
  {
    match b.policy
    case Optional => None
    case Required =>
      match b.input
      case None => None
      case Some(v) =>
        match Fold(Build(Start(v), b.builder), b.name)
        case Ok(w) => Some(Completed(Some(w)))
        case Err(_) => None
  }

  /** The result slot after `invoke()`, given the slot before. */
  function After(b: Binding, before: ValidationResult): ValidationResult
    requires Typed(b)
  {
    match Stored(b) case Some(r) => r case None => before
  }

  const IllegalStateException := "java.lang.IllegalStateException"
  const NotComputedMessage := "Result has not yet been compute, run Validator.run first"

  class ValidationDelegate {
    const policy: Policy
    const input: Option<Value>
    const builder: seq<Rule>
    const name: string
    var result: ValidationResult

    function Snapshot(): Binding
    {
      Binding(policy, input, builder, name)
    }

    predicate Valid() { Typed(Snapshot()) }

    constructor (policy: Policy, input: Option<Value>, builder: seq<Rule>, name: string)
      requires Typed(Binding(policy, input, builder, name))
      ensures Valid()
      ensures this.policy == policy && this.input == input && this.builder == builder && this.name == name
      ensures result == NotInitialized
    {
      this.policy := policy;
      this.input := input;
      this.builder := builder;
      this.name := name;
      result := NotInitialized;
    }

    /** `getValue`: the completed value, or `IllegalStateException` before
        the delegate has completed. */
    function GetValue(): (r: Result<Option<Value>, Throwable>)
      reads this
      ensures r.Ok? <==> result.Completed?
      ensures r.Ok? ==> r.value == result.result
      ensures r.Err? ==> r.error == Foreign(IllegalStateException, Some(NotComputedMessage))
    {
      match result
      case Completed(v) => Ok(v)
      case NotInitialized => Err(Foreign(IllegalStateException, Some(NotComputedMessage)))
    }

    /** `invoke()`: returns the exception it throws, if any. */
    method Invoke() returns (thrown: Option<Throwable>)
      requires Valid()
      modifies this
      ensures thrown == Thrown(Snapshot())
      ensures result == After(Snapshot(), old(result))
    {
      match policy {
        case Optional =>
          thrown := None;
        case Required =>
          if input.None? {
            return Some(RuleFailed(NotNullMessage(name)));
          }
          var steps := Build(Start(input.value), builder);
          var folded := Fold(steps, name);
          if folded.Err? {
            return Some(folded.error);
          }
          result := Completed(Some(folded.value));
          thrown := None;
      }
    }
  }

  // ---- the specification of Validator.run ----

  /** `invoke()` throws something `run()` does not catch. */
  predicate Aborts(b: Binding)
    requires Typed(b)
  {
    Thrown(b).Some? && !Thrown(b).value.RuleFailed?
  }

  /** `invoke()` throws a `RuleFailedError`, which `run()` collects. */
  predicate Fails(b: Binding)
    requires Typed(b)
  {
    Thrown(b).Some? && Thrown(b).value.RuleFailed?
  }

  predicate AllTyped(bs: seq<Binding>) { forall i :: 0 <= i < |bs| ==> Typed(bs[i]) }

  /** The index of the first delegate whose exception escapes `run()`, or
      |bs| when none does. */
  function AbortIndex(bs: seq<Binding>): (k: nat)
    requires AllTyped(bs)
    ensures k <= |bs|
    ensures k < |bs| ==> Aborts(bs[k])
  {
    if bs == [] then 0
    else
      var k := AbortIndex(bs[..|bs| - 1]);
      if k < |bs| - 1 then k
      else if Aborts(bs[|bs| - 1]) then |bs| - 1
      else |bs|
  }

  /** The abort index is the first delegate that aborts. */
  lemma {:induction false} AbortIndexAt(bs: seq<Binding>, k: nat)
    requires AllTyped(bs) && k <= |bs|
    requires forall j :: 0 <= j < k ==> !Aborts(bs[j])
    requires k < |bs| ==> Aborts(bs[k])
    ensures AbortIndex(bs) == k
  {
    if bs != [] {
      var init := bs[..|bs| - 1];
      if k < |bs| - 1 {
        AbortIndexAt(init, k);
        assert init[k] == bs[k];
      } else {
        AbortIndexAt(init, |init|);
      }
    }
  }

  /** No delegate before the abort index aborts. */
  lemma {:induction false} AbortIndexIsFirst(bs: seq<Binding>)
    requires AllTyped(bs)
    ensures forall i :: 0 <= i < AbortIndex(bs) ==> !Aborts(bs[i])
  {
    if bs != [] {
      var init := bs[..|bs| - 1];
      AbortIndexIsFirst(init);
      assert forall i :: 0 <= i < |init| ==> init[i] == bs[i];
    }
  }

  /** The `RuleFailedError`s the delegates throw, in registration order. */
  function RuleFailures(bs: seq<Binding>): seq<Throwable>
    requires AllTyped(bs)
  {
    if bs == [] then []
    else
      var b := bs[|bs| - 1];
      RuleFailures(bs[..|bs| - 1]) + if Fails(b) then [Thrown(b).value] else []
  }

  /** What `run()` throws: the first uncaught exception, else one
      `ValidationFailedError` when any rule failed, else nothing. */
  function RunThrows(bs: seq<Binding>): Option<Throwable>
    requires AllTyped(bs)
  {
    var k := AbortIndex(bs);
    if k < |bs| then Thrown(bs[k])
    else if RuleFailures(bs) == [] then None
    else Some(ValidationFailed(RuleFailures(bs)))
  }

  lemma {:induction false} AbortIndexOfPrefix(bs: seq<Binding>, k: nat)
    requires AllTyped(bs) && k <= |bs|
    requires AbortIndex(bs[..k]) < k
    ensures AbortIndex(bs) == AbortIndex(bs[..k])
  {
    if k < |bs| {
      var init := bs[..|bs| - 1];
      assert init[..k] == bs[..k];
      AbortIndexOfPrefix(init, k);
    } else {
      assert bs[..k] == bs;
    }
  }

  /** The registration indices of the delegates that throw `RuleFailedError`. */
  function FailingIndices(bs: seq<Binding>): seq<nat>
    requires AllTyped(bs)
  {
    if bs == [] then []
    else FailingIndices(bs[..|bs| - 1]) + if Fails(bs[|bs| - 1]) then [|bs| - 1] else []
  }

  /** The collected failures hold exactly one entry per failing delegate, in
      registration order. */
  lemma {:induction false} FailuresInRegistrationOrder(bs: seq<Binding>)
    requires AllTyped(bs)
    ensures |RuleFailures(bs)| == |FailingIndices(bs)|
    ensures forall k :: 0 <= k < |FailingIndices(bs)| ==>
      FailingIndices(bs)[k] < |bs| && Fails(bs[FailingIndices(bs)[k]]) &&
      RuleFailures(bs)[k] == Thrown(bs[FailingIndices(bs)[k]]).value
    ensures forall k, l :: 0 <= k < l < |FailingIndices(bs)| ==> FailingIndices(bs)[k] < FailingIndices(bs)[l]
  {
    if bs != [] {
      var init := bs[..|bs| - 1];
      var b := bs[|bs| - 1];
      FailuresInRegistrationOrder(init);
      var fs, ix := RuleFailures(init), FailingIndices(init);
      assert forall k :: 0 <= k < |ix| ==> ix[k] < |init| && init[ix[k]] == bs[ix[k]];
      var F, I := RuleFailures(bs), FailingIndices(bs);
      if Fails(b) {
        assert F == fs + [Thrown(b).value];
        assert I == ix + [|bs| - 1];
        forall k | 0 <= k < |I|
          ensures I[k] < |bs| && Fails(bs[I[k]]) && F[k] == Thrown(bs[I[k]]).value
        {
          if k < |ix| {
            assert I[k] == ix[k] && F[k] == fs[k];
          }
        }
      } else {
        assert F == fs;
        assert I == ix;
      }
    }
  }

  /** Every failing delegate is listed. */
  lemma {:induction false} FailingIndicesComplete(bs: seq<Binding>, i: nat)
    requires AllTyped(bs)
    requires i < |bs| && Fails(bs[i])
    ensures i in FailingIndices(bs)
  {
    var init := bs[..|bs| - 1];
    if i < |bs| - 1 {
      assert init[i] == bs[i];
      FailingIndicesComplete(init, i);
    }
  }

  /** When no delegate throws anything but `RuleFailedError`, `run()` throws
      iff some delegate failed, and then throws one `ValidationFailedError`
      carrying every failure. */
  lemma RunFailsIffSomeDelegateFails(bs: seq<Binding>)
    requires AllTyped(bs)
    requires AbortIndex(bs) == |bs|
    ensures RunThrows(bs).Some? <==> exists i :: 0 <= i < |bs| && Fails(bs[i])
    ensures RunThrows(bs).Some? ==> RunThrows(bs) == Some(ValidationFailed(RuleFailures(bs)))
    ensures RunThrows(bs).Some? ==> |RunThrows(bs).value.failures| == |FailingIndices(bs)| > 0
  {
    FailuresInRegistrationOrder(bs);
    if i :| 0 <= i < |bs| && Fails(bs[i]) {
      FailingIndicesComplete(bs, i);
    }
  }

  /** As written, an optional delegate's `invoke()` neither throws nor writes
      its slot: it is still `NotInitialized` after `run()`, whatever its input. */
  lemma OptionalNeverCompletes(b: Binding)
    requires Typed(b) && b.policy.Optional?
    ensures Thrown(b).None? && !Aborts(b)
    ensures After(b, NotInitialized) == NotInitialized
    ensures RunThrows([b]) == None
  {
    assert [b][..0] == [];
    assert AbortIndex([b]) == 1;
    assert RuleFailures([b]) == [];
  }

  /** The evidently intended `invoke()` of an optional delegate: an absent
      input completes as null without evaluating the chain; a present input
      is validated as a required one is. */
  function IntendedStored(b: Binding): (r: Option<ValidationResult>)
    requires Typed(b)
    ensures b.policy.Optional? && b.input.None? ==> r == Some(Completed(None))
    ensures r.Some? <==> Thrown(Binding(Required, b.input, b.builder, b.name)).None? || (b.policy.Optional? && b.input.None?)
  {
    if b.policy.Optional? && b.input.None? then Some(Completed(None))
    else Stored(Binding(Required, b.input, b.builder, b.name))
  }

  function IntendedThrown(b: Binding): Option<Throwable>
    requires Typed(b)
  {
    if b.policy.Optional? && b.input.None? then None
    else Thrown(Binding(Required, b.input, b.builder, b.name))
  }

  /** With the intended optional delegate, a delegate that does not throw has
      a completed, readable slot afterwards, as required delegates always had. */
  lemma IntendedDelegateCompletesUnlessItThrows(b: Binding)
    requires Typed(b)
    ensures IntendedThrown(b).None? <==> IntendedStored(b).Some?
    ensures IntendedStored(b).Some? ==> IntendedStored(b).value.Completed?
    ensures b.policy.Required? ==> IntendedThrown(b) == Thrown(b) && IntendedStored(b) == Stored(b)
  {
  }

  /** One step of `run()`'s loop, stated on the bindings. */
  lemma RunStep(bs: seq<Binding>, i: nat)
    requires AllTyped(bs) && i < |bs|
    ensures RuleFailures(bs[..i + 1]) == RuleFailures(bs[..i]) +
      if Fails(bs[i]) then [Thrown(bs[i]).value] else []
  {
    assert bs[..i + 1][..i] == bs[..i];
  }

  /** The result slots after the first k delegates were invoked. */
  function SlotsAfter(bs: seq<Binding>, before: seq<ValidationResult>, k: nat): (rs: seq<ValidationResult>)
    requires AllTyped(bs) && |before| == |bs| && k <= |bs|
    ensures |rs| == |bs|
    ensures forall j :: 0 <= j < |bs| ==> rs[j] == if j < k then After(bs[j], before[j]) else before[j]
  {
    seq(|bs|, j requires 0 <= j < |bs| => if j < k then After(bs[j], before[j]) else before[j])
  }

  lemma SlotsAfterStep(bs: seq<Binding>, before: seq<ValidationResult>, k: nat)
    requires AllTyped(bs) && |before| == |bs| && k < |bs|
    ensures SlotsAfter(bs, before, k)[k := After(bs[k], before[k])] == SlotsAfter(bs, before, k + 1)
  {
  }

  class Validator {
    var validations: seq<ValidationDelegate>

    ghost predicate Valid()
      reads this
    {
      (forall i :: 0 <= i < |validations| ==> validations[i].Valid()) &&
      (forall i, j :: 0 <= i < j < |validations| ==> validations[i] != validations[j])
    }

    /** The immutable parts of the registered delegates, in order. */
    function Bindings(): (bs: seq<Binding>)
      reads this
      requires Valid()
      ensures |bs| == |validations| && AllTyped(bs)
      ensures forall i :: 0 <= i < |bs| ==> bs[i] == validations[i].Snapshot()
    {
      seq(|validations|, i requires 0 <= i < |validations| reads this => validations[i].Snapshot())
    }

    constructor ()
      ensures Valid() && validations == []
    {
      validations := [];
    }

    /** `validateRequired` / `validateOptional`: a fresh delegate appended to
        the end of the list. */
    method Validate(policy: Policy, input: Option<Value>, builder: seq<Rule>, name: string)
      returns (d: ValidationDelegate)
      requires Valid()
      requires Typed(Binding(policy, input, builder, name))
      modifies this
      ensures Valid() && fresh(d)
      ensures validations == old(validations) + [d]
      ensures d.Snapshot() == Binding(policy, input, builder, name)
      ensures d.result == NotInitialized
    {
      d := new ValidationDelegate(policy, input, builder, name);
      validations := validations + [d];
    }

    method ValidateRequired(input: Option<Value>, builder: seq<Rule>, name: string)
      returns (d: ValidationDelegate)
      requires Valid()
      requires Typed(Binding(Required, input, builder, name))
      modifies this
      ensures Valid() && fresh(d)
      ensures validations == old(validations) + [d]
      ensures d.Snapshot() == Binding(Required, input, builder, name)
      ensures d.result == NotInitialized
    {
      d := Validate(Required, input, builder, name);
    }

    method ValidateOptional(input: Option<Value>, builder: seq<Rule>, name: string)
      returns (d: ValidationDelegate)
      requires Valid()
      requires Typed(Binding(Optional, input, builder, name))
      modifies this
      ensures Valid() && fresh(d)
      ensures validations == old(validations) + [d]
      ensures d.Snapshot() == Binding(Optional, input, builder, name)
      ensures d.result == NotInitialized
    {
      d := Validate(Optional, input, builder, name);
    }

    /** One iteration of `run()`: invokes the delegate at index i, which
        touches no other delegate. */
    method InvokeAt(i: nat) returns (thrown: Option<Throwable>)
      requires Valid() && i < |validations|
      modifies validations[i]
      ensures thrown == Thrown(validations[i].Snapshot())
      ensures validations[i].result == After(validations[i].Snapshot(), old(validations[i].result))
      ensures forall j :: 0 <= j < |validations| && j != i ==> validations[j].result == old(validations[j].result)
    {
      var d := validations[i];
      assert forall j :: 0 <= j < |validations| && j != i ==> validations[j] != d;
      thrown := d.Invoke();
    }

    /** Every delegate's result slot, in registration order. */
    function Results(): (rs: seq<ValidationResult>)
      reads this, validations
      ensures |rs| == |validations|
      ensures forall j :: 0 <= j < |validations| ==> rs[j] == validations[j].result
    {
      seq(|validations|, j requires 0 <= j < |validations| reads this, validations => validations[j].result)
    }

    /** The delegate loop of `run()`: invokes the delegates in registration
        order and collects each `RuleFailedError`; an exception of any other
        kind escapes, and the delegates after it are not invoked. */
    method InvokeAll() returns (failures: seq<Throwable>, escaped: Option<Throwable>)
      requires Valid()
      modifies validations
      ensures Valid() && validations == old(validations)
      ensures escaped.Some? <==> AbortIndex(Bindings()) < |validations|
      ensures escaped.Some? ==> escaped == Thrown(Bindings()[AbortIndex(Bindings())])
      ensures escaped.None? ==> failures == RuleFailures(Bindings())
      ensures forall i :: 0 <= i < |validations| ==>
        validations[i].result ==
          if i <= AbortIndex(Bindings()) then After(Bindings()[i], old(validations[i].result))
          else old(validations[i].result)
    {
      ghost var bs := Bindings();
      ghost var before := Results();
      assert SlotsAfter(bs, before, 0) == before;
      failures, escaped := [], None;
      var i := 0;
      while i < |validations|
        invariant 0 <= i <= |validations| == |bs|
        invariant forall j :: 0 <= j < i ==> !Aborts(bs[j])
        invariant failures == RuleFailures(bs[..i])
        invariant Results() == SlotsAfter(bs, before, i)
        invariant escaped.None?
      {
        ghost var rs := Results();
        var t := InvokeAt(i);
        assert Results() == rs[i := After(bs[i], rs[i])];
        SlotsAfterStep(bs, before, i);
        assert t == Thrown(bs[i]);
        if t.Some? && !t.value.RuleFailed? {
          escaped := t;
          break;
        }
        RunStep(bs, i);
        assert !Aborts(bs[i]);
        if t.Some? {
          assert Fails(bs[i]);
          failures := failures + [t.value];
        } else {
          assert !Fails(bs[i]);
        }
        i := i + 1;
      }
      if escaped.Some? {
        assert i < |bs| && Aborts(bs[i]);
        AbortIndexAt(bs, i);
      } else {
        assert bs[..i] == bs;
        AbortIndexAt(bs, |bs|);
      }
      assert bs == Bindings();
    }

    /** `run()`: the delegate loop, then one `ValidationFailedError` holding
        the collected failures when there are any; returns what it throws. */
    method Run() returns (thrown: Option<Throwable>)
      requires Valid()
      modifies validations
      ensures Valid() && validations == old(validations)
      ensures thrown == RunThrows(Bindings())
      ensures forall i :: 0 <= i < |validations| ==>
        validations[i].result ==
          if i <= AbortIndex(Bindings()) then After(Bindings()[i], old(validations[i].result))
          else old(validations[i].result)
    {
      var failures, escaped := InvokeAll();
      if escaped.Some? {
        return escaped;
      }
      if failures != [] {
        return Some(ValidationFailed(failures));
      }
      return None;
    }
  }
}
