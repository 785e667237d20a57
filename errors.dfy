/** The exceptions of the API layer: the sealed `ApiError` hierarchy with its
    four kinds, the validation errors, and every other JVM exception as an
    opaque `Foreign` value. */
module Errors {
  import opened Wrappers
  import opened Text

  /** Error codes an `ApiError` may carry. `DevDoneGoofed` is the only one the
      modelled code names; the rest of the enum is not part of this model. */
  datatype ErrorCode = DevDoneGoofed | OtherCode(name: string)

  /** The four subclasses of the sealed class `ApiError`. */
  datatype ApiErrorKind = BadRequest | InternalServer | NotFound | NotImplementer

  /** An `ApiError` instance: its subclass, `message`, `cause` and `errorCode`
      (all immutable once constructed). */
  datatype ApiError = ApiError(kind: ApiErrorKind, message: Option<string>,
                               cause: Option<Throwable>, errorCode: Option<ErrorCode>)

  /** A thrown JVM exception. `Foreign` stands for any class outside this
      model, known by its class name and message. */
  datatype Throwable =
    | RuleFailed(ruleMessage: string)
    | ValidationFailed(failures: seq<Throwable>)
    | Api(error: ApiError)
    | Foreign(className: string, foreignMessage: Option<string>)

  const ErrorPackage := "com.patrickhoette.pokebe.entity.core.error."

  function KindClassName(k: ApiErrorKind): string
  {
    ErrorPackage + "ApiError$" +
    match k
    case BadRequest => "BadRequestError"
    case InternalServer => "InternalServerError"
    case NotFound => "NotFoundError"
    case NotImplementer => "NotImplementerError"
  }

  /** `Throwable.message`. `ValidationFailedError` is built with no message. */
  function Message(t: Throwable): Option<string>
  {
    match t
    case RuleFailed(m) => Some(m)
    case ValidationFailed(_) => None
    case Api(e) => e.message
    case Foreign(_, m) => m
  }

  /** `Throwable.toString()`: the fully qualified class name, then ": " and
      the message when there is one; `ValidationFailedError` is a data class,
      whose generated `toString` prints its simple name and its property. */
  function Describe(t: Throwable): string
  {
    match t
    case ValidationFailed(fs) =>
      "ValidationFailedError(failures=[" + DescribeAll(fs) + "])"
    case _ =>
      var name := match t
        case RuleFailed(_) => ErrorPackage + "RuleFailedError"
        case Api(e) => KindClassName(e.kind)
        case Foreign(c, _) => c
        case ValidationFailed(_) => "";
      match Message(t)
      case None => name
      case Some(m) => name + ": " + m
  }

  function DescribeAll(ts: seq<Throwable>): string
    decreases ts
  {
    if |ts| == 0 then ""
    else if |ts| == 1 then Describe(ts[0])
    else DescribeAll(ts[..|ts| - 1]) + ", " + Describe(ts[|ts| - 1])
  }

  /** The message the `Exception` super-constructor leaves: the given message,
      else `cause.toString()` when only a cause is given, else none. */
  function ConstructedMessage(message: Option<string>, cause: Option<Throwable>): Option<string>
  {
    if message.Some? then message
    else if cause.Some? then Some(Describe(cause.value))
    else None
  }

  /** The four constructors of `InternalServerError` (no arguments, message,
      cause, message and cause): all fix the error code. */
  function NewInternalServerError(message: Option<string>, cause: Option<Throwable>): (e: ApiError)
    ensures e.kind == InternalServer
    ensures e.errorCode == Some(DevDoneGoofed)
    ensures e.cause == cause
    ensures message.Some? ==> e.message == message
    ensures message.None? && cause.Some? ==> e.message == Some(Describe(cause.value))
    ensures message.None? && cause.None? ==> e.message.None?
  {
    ApiError(InternalServer, ConstructedMessage(message, cause), cause, Some(DevDoneGoofed))
  }

  /** The four constructors of `BadRequestError`, `NotFoundError` and
      `NotImplementerError`: the error code is the one passed in (absent by
      default). */
  function NewApiError(kind: ApiErrorKind, message: Option<string>, cause: Option<Throwable>,
                       errorCode: Option<ErrorCode>): (e: ApiError)
    requires kind != InternalServer
    ensures e.kind == kind && e.errorCode == errorCode && e.cause == cause
    ensures message.Some? ==> e.message == message
    ensures message.None? && cause.Some? ==> e.message == Some(Describe(cause.value))
    ensures message.None? && cause.None? ==> e.message.None?
  {
    ApiError(kind, ConstructedMessage(message, cause), cause, errorCode)
  }

  /** Whether two values stand for one and the same JVM instance. The model's
      values carry no identity, so the relation is a parameter wherever
      `Object.equals` falls back on `===`. */
  type SameInstance = (Throwable, Throwable) -> bool

  /** `equals(other)` of every subclass: only another instance of the same
      subclass with equal cause, message and error code. Its first test,
      `this === other`, changes no outcome: one instance has equal fields. */
  predicate Equals(e: ApiError, other: Throwable, same: SameInstance)
    decreases e, 0
  {
    other.Api? && other.error.kind == e.kind &&
    OptionEquals(e.cause, other.error.cause, same) &&
    e.message == other.error.message && e.errorCode == other.error.errorCode
  }

  /** Kotlin's `a == b` on nullable causes: both null, or `a.equals(b)`. */
  predicate OptionEquals(a: Option<Throwable>, b: Option<Throwable>, same: SameInstance)
    decreases a, 1
  {
    match a
    case None => b.None?
    case Some(x) => b.Some? && ObjectEquals(x, b.value, same)
  }

  /** `a.equals(b)` of a cause: `ApiError` overrides it, the data class
      `ValidationFailedError` compares its list, and every other exception
      keeps `Object.equals`, which is identity. */
  predicate ObjectEquals(a: Throwable, b: Throwable, same: SameInstance)
    decreases a, 2
  {
    match a
    case Api(e) => Equals(e, b, same)
    case ValidationFailed(fs) => b.ValidationFailed? && ListEquals(fs, b.failures, same)
    case _ => !b.Api? && !b.ValidationFailed? && same(a, b)
  }

  /** `List.equals`: the same length and pairwise `equals`. */
  predicate ListEquals(fs: seq<Throwable>, gs: seq<Throwable>, same: SameInstance)
    decreases fs, 3
  {
    if fs == [] then gs == []
    else gs != [] && ListEquals(fs[..|fs| - 1], gs[..|gs| - 1], same) &&
         ObjectEquals(fs[|fs| - 1], gs[|gs| - 1], same)
  }

  /** When distinct instances always differ in value, `equals` is exactly
      equality of the modelled values. */
  lemma {:induction false} EqualsIsValueEquality(e: ApiError, other: Throwable, same: SameInstance)
    requires forall a, b :: same(a, b) <==> a == b
    ensures Equals(e, other, same) <==> other == Api(e)
    decreases e, 0
  {
    if other.Api? {
      OptionEqualsIsValueEquality(e.cause, other.error.cause, same);
    }
  }

  lemma {:induction false} OptionEqualsIsValueEquality(a: Option<Throwable>, b: Option<Throwable>, same: SameInstance)
    requires forall a, b :: same(a, b) <==> a == b
    ensures OptionEquals(a, b, same) <==> a == b
    decreases a, 1
  {
    if a.Some? && b.Some? {
      ObjectEqualsIsValueEquality(a.value, b.value, same);
    }
  }

  lemma {:induction false} ObjectEqualsIsValueEquality(a: Throwable, b: Throwable, same: SameInstance)
    requires forall a, b :: same(a, b) <==> a == b
    ensures ObjectEquals(a, b, same) <==> a == b
    decreases a, 2
  {
    match a
    case Api(e) => EqualsIsValueEquality(e, b, same);
    case ValidationFailed(fs) =>
      if b.ValidationFailed? {
        ListEqualsIsValueEquality(fs, b.failures, same);
      }
    case _ =>
  }

  lemma {:induction false} ListEqualsIsValueEquality(fs: seq<Throwable>, gs: seq<Throwable>, same: SameInstance)
    requires forall a, b :: same(a, b) <==> a == b
    ensures ListEquals(fs, gs, same) <==> fs == gs
    decreases fs, 3
  {
    if fs != [] && gs != [] {
      ListEqualsIsValueEquality(fs[..|fs| - 1], gs[..|gs| - 1], same);
      ObjectEqualsIsValueEquality(fs[|fs| - 1], gs[|gs| - 1], same);
      if fs[..|fs| - 1] == gs[..|gs| - 1] && fs[|fs| - 1] == gs[|gs| - 1] {
        assert fs == fs[..|fs| - 1] + [fs[|fs| - 1]];
        assert gs == gs[..|gs| - 1] + [gs[|gs| - 1]];
      }
    }
  }

  /** Two errors built alike around two distinct instances of one foreign
      exception class with one message are not equal, although their
      modelled values coincide. */
  lemma DistinctCausesAreNotEqual(cause: Throwable, same: SameInstance)
    requires cause.Foreign? && !same(cause, cause)
    ensures !Equals(NewInternalServerError(None, Some(cause)), Api(NewInternalServerError(None, Some(cause))), same)
  {
    var e := NewInternalServerError(None, Some(cause));
    assert !ObjectEquals(cause, cause, same);
    assert !OptionEquals(e.cause, e.cause, same);
  }

  // ---- hashing on 32-bit integers ----

  const TwoTo31: int := 0x8000_0000
  const TwoTo32: int := 0x1_0000_0000

  predicate IsInt32(x: int) { -TwoTo31 <= x < TwoTo31 }

  /** Two's-complement wrap-around of a JVM `Int` computation. */
  function Wrap32(x: int): (r: int)
    ensures IsInt32(r)
    ensures (r - x) % TwoTo32 == 0
  {
    (x + TwoTo31) % TwoTo32 - TwoTo31
  }

  /** A character as Java stores it: one UTF-16 code unit, or a surrogate
      pair above the Basic Multilingual Plane. */
  function Utf16Units(c: char): (us: seq<int>)
    ensures 1 <= |us| <= 2
    ensures forall i :: 0 <= i < |us| ==> 0 <= us[i] < 0x1_0000
    ensures c as int < 0x1_0000 <==> us == [c as int]
  {
    if c as int < 0x1_0000 then [c as int]
    else [0xD800 + (c as int - 0x1_0000) / 0x400, 0xDC00 + (c as int - 0x1_0000) % 0x400]
  }

  function Utf16(s: string): (us: seq<int>)
    ensures |s| <= |us| <= 2 * |s|
  {
    if s == [] then [] else Utf16(s[..|s| - 1]) + Utf16Units(s[|s| - 1])
  }

  /** The loop of `String.hashCode()`: h = 31 * h + unit over the UTF-16
      code units, wrapping. */
  function UnitsHash(us: seq<int>): (h: int)
    ensures IsInt32(h)
  {
    if us == [] then 0 else Wrap32(31 * UnitsHash(us[..|us| - 1]) + us[|us| - 1])
  }

  /** `String.hashCode()`. */
  function StringHash(s: string): (h: int)
    ensures IsInt32(h)
  {
    UnitsHash(Utf16(s))
  }

  function Pow31(k: nat): (p: nat)
  {
    if k == 0 then 1 else 31 * Pow31(k - 1)
  }

  /** The documented value of `String.hashCode()` before the wrap:
      u[0] * 31^(n-1) + u[1] * 31^(n-2) + ... + u[n-1]. */
  function HashSum(us: seq<int>): int
  {
    if us == [] then 0 else us[0] * Pow31(|us| - 1) + HashSum(us[1..])
  }

  /** A string's hash is the sum over its UTF-16 units, weighted by powers
      of 31, reduced once to 32 bits. */
  lemma {:induction false} StringHashClosedForm(s: string)
    ensures StringHash(s) == Wrap32(HashSum(Utf16(s)))
  {
    UnitsHashClosedForm(Utf16(s));
  }

  lemma {:induction false} UnitsHashClosedForm(us: seq<int>)
    ensures UnitsHash(us) == Wrap32(HashSum(us))
  {
    if us != [] {
      var init, last := us[..|us| - 1], us[|us| - 1];
      UnitsHashClosedForm(init);
      WrapLinear(HashSum(init), 31, last);
      HashSumSnoc(init, last);
      assert init + [last] == us;
    } else {
      assert Wrap32(0) == 0;
    }
  }

  lemma {:induction false} HashSumSnoc(us: seq<int>, x: int)
    ensures HashSum(us + [x]) == 31 * HashSum(us) + x
  {
    if us != [] {
      var r := us[1..];
      assert (us + [x])[1..] == r + [x];
      HashSumSnoc(r, x);
      calc {
        HashSum(us + [x]);
        us[0] * Pow31(|r| + 1) + HashSum(r + [x]);
        us[0] * (31 * Pow31(|r|)) + 31 * HashSum(r) + x;
        { assert us[0] * (31 * Pow31(|r|)) == 31 * (us[0] * Pow31(|r|)); }
        31 * (us[0] * Pow31(|r|) + HashSum(r)) + x;
      }
    }
  }

  /** Java hashes code units, so a character above U+FFFF is hashed as its
      surrogate pair: "\U{1F600}" hashes to 31 * 0xD83D + 0xDE00. */
  lemma StringHashExamples()
    ensures StringHash("Ab") == 31 * 65 + 98
    ensures StringHash("\U{1F600}") == 31 * 0xD83D + 0xDE00
  {
    assert Utf16("Ab") == [65, 98] by {
      assert "Ab"[..1] == "A";
      assert Utf16("A") == [65];
    }
    assert UnitsHash([65]) == 65;
    assert [65, 98][..1] == [65];
    assert Utf16("\U{1F600}") == [0xD83D, 0xDE00];
    assert UnitsHash([0xD83D]) == 0xD83D;
    assert [0xD83D, 0xDE00][..1] == [0xD83D];
  }

  /** `hashCode()` of every subclass. The hash of an enum constant and of an
      exception without its own `hashCode` is the JVM's identity hash, which
      the model takes as the parameters `codeHash` and `identityHash`. */
  function HashCode(e: ApiError, identityHash: Throwable -> int, codeHash: ErrorCode -> int): (h: int)
    ensures IsInt32(h)
    decreases e, 1
  {
    var result := MessageHash(e);
    var result := Wrap32(31 * result + CauseHash(e, identityHash, codeHash));
    Wrap32(31 * result + ErrorCodeHash(e, codeHash))
  }

  /** `message?.hashCode() ?: 0`. */
  function MessageHash(e: ApiError): int
  {
    match e.message case Some(m) => StringHash(m) case None => 0
  }

  /** `cause?.hashCode() ?: 0`. */
  function CauseHash(e: ApiError, identityHash: Throwable -> int, codeHash: ErrorCode -> int): int
    decreases e, 0
  {
    match e.cause case Some(c) => ThrowableHash(c, identityHash, codeHash) case None => 0
  }

  /** `errorCode?.hashCode() ?: 0`. */
  function ErrorCodeHash(e: ApiError, codeHash: ErrorCode -> int): int
  {
    match e.errorCode case Some(c) => codeHash(c) case None => 0
  }

  /** `hashCode()` of a cause: `ApiError` overrides it, the data class
      `ValidationFailedError` hashes its list, everything else uses the
      identity hash. */
  function ThrowableHash(t: Throwable, identityHash: Throwable -> int, codeHash: ErrorCode -> int): int
    decreases t, 2
  {
    match t
    case Api(e) => HashCode(e, identityHash, codeHash)
    case ValidationFailed(fs) => ListHash(fs, identityHash, codeHash)
    case _ => identityHash(t)
  }

  /** `List.hashCode()`: starting from 1, h = 31 * h + element hash. */
  function ListHash(ts: seq<Throwable>, identityHash: Throwable -> int, codeHash: ErrorCode -> int): int
    decreases ts, 3
  {
    if ts == [] then 1
    else Wrap32(31 * ListHash(ts[..|ts| - 1], identityHash, codeHash)
                + ThrowableHash(ts[|ts| - 1], identityHash, codeHash))
  }

  /** The three wrapping update steps of `hashCode()` give the single
      expression 31 * (31 * h(message) + h(cause)) + h(errorCode), reduced
      once to 32 bits. */
  lemma HashCodeClosedForm(e: ApiError, identityHash: Throwable -> int, codeHash: ErrorCode -> int)
    ensures HashCode(e, identityHash, codeHash) ==
      Wrap32(31 * (31 * MessageHash(e) + CauseHash(e, identityHash, codeHash)) + ErrorCodeHash(e, codeHash))
  {
    WrapLinear(31 * MessageHash(e) + CauseHash(e, identityHash, codeHash), 31, ErrorCodeHash(e, codeHash));
  }

  /** Reducing an intermediate result before a linear step does not change
      the wrapped outcome. */
  lemma WrapLinear(x: int, a: int, b: int)
    ensures Wrap32(a * Wrap32(x) + b) == Wrap32(a * x + b)
  {
    var w := Wrap32(x);
    var q := (w - x) / TwoTo32;
    assert w == x + q * TwoTo32;
    assert a * w + b == (a * x + b) + (a * q) * TwoTo32;
    ShiftWrap(a * x + b, a * q);
  }

  lemma ShiftWrap(x: int, k: int)
    ensures Wrap32(x + k * TwoTo32) == Wrap32(x)
  {
    assert (x + k * TwoTo32 + TwoTo31) % TwoTo32 == (x + TwoTo31) % TwoTo32;
  }

  /** Equal errors have equal hashes, provided one instance has one
      identity hash. */
  lemma {:induction false} EqualsImpliesSameHash(e: ApiError, other: Throwable, same: SameInstance,
                                                 identityHash: Throwable -> int, codeHash: ErrorCode -> int)
    requires forall a, b :: same(a, b) ==> identityHash(a) == identityHash(b)
    requires Equals(e, other, same)
    ensures HashCode(e, identityHash, codeHash) == HashCode(other.error, identityHash, codeHash)
    decreases e, 0
  {
    if e.cause.Some? {
      ObjectEqualsImpliesSameHash(e.cause.value, other.error.cause.value, same, identityHash, codeHash);
    }
  }

  lemma {:induction false} ObjectEqualsImpliesSameHash(a: Throwable, b: Throwable, same: SameInstance,
                                                       identityHash: Throwable -> int, codeHash: ErrorCode -> int)
    requires forall a, b :: same(a, b) ==> identityHash(a) == identityHash(b)
    requires ObjectEquals(a, b, same)
    ensures ThrowableHash(a, identityHash, codeHash) == ThrowableHash(b, identityHash, codeHash)
    decreases a, 2
  {
    match a
    case Api(e) => EqualsImpliesSameHash(e, b, same, identityHash, codeHash);
    case ValidationFailed(fs) => ListEqualsImpliesSameHash(fs, b.failures, same, identityHash, codeHash);
    case _ =>
  }

  lemma {:induction false} ListEqualsImpliesSameHash(fs: seq<Throwable>, gs: seq<Throwable>, same: SameInstance,
                                                     identityHash: Throwable -> int, codeHash: ErrorCode -> int)
    requires forall a, b :: same(a, b) ==> identityHash(a) == identityHash(b)
    requires ListEquals(fs, gs, same)
    ensures ListHash(fs, identityHash, codeHash) == ListHash(gs, identityHash, codeHash)
    decreases fs, 3
  {
    if fs != [] {
      ListEqualsImpliesSameHash(fs[..|fs| - 1], gs[..|gs| - 1], same, identityHash, codeHash);
      ObjectEqualsImpliesSameHash(fs[|fs| - 1], gs[|gs| - 1], same, identityHash, codeHash);
    }
  }

  /** A cause given alone becomes the message, as its `toString()`: an
      `InternalServerError` around an empty validation failure. */
  lemma CauseOnlyMessageExample()
    ensures NewInternalServerError(None, Some(ValidationFailed([]))).message ==
            Some("ValidationFailedError(failures=[])")
  {
    assert DescribeAll([]) == "";
    assert Describe(ValidationFailed([])) == "ValidationFailedError(failures=[" + "" + "])";
    assert "ValidationFailedError(failures=[" + "" + "])" == "ValidationFailedError(failures=[])";
  }
}
