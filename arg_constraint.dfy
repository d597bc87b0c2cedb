/** `ArgConstraint`: the validation rules of one parameter and the check of a value
    against them, plus the error kinds every part of the parser raises. */
module ArgConstraint {
  import opened Wrappers
  import opened PyValues

  /** Who a validation error is about: the `name` argument of `validate`, or one of
      the two names `localValidate` is called with at declaration time. */
  datatype Subject = Arg(name: string) | PossibleValuesItem(index: nat) | DefaultValue

  /** The exceptions the parser raises, by kind (message text is not modelled). */
  datatype Error =
    | UnsupportedConstraint(key: string)                   // NotImplementedError
    | InvalidConstraintSpec(param: string, option: string) // TypeError: wrong-shaped option
    | TypeMismatch(subject: Subject)                       // TypeError: dtype
    | SubClassMismatch(subject: Subject)                   // SubClassError
    | BelowMin(subject: Subject)                           // MinError
    | AboveMax(subject: Subject)                           // MaxError
    | TooShort(subject: Subject)                           // MinLengthError
    | TooLong(subject: Subject)                            // MaxLengthError
    | NotAllowed(subject: Subject)                         // InvalidArgument
    | NotComparable(subject: Subject)                      // TypeError raised by `<` or `>` itself
    | NoLength(subject: Subject)                           // TypeError raised by `len` itself
    | NotIterable(subject: Subject)                        // TypeError raised by `in` on the unset sentinel
    | MultiplePositionalDefaults                           // ValueError from addPositionalArg
    | TooManyPositional(takes: nat, upTo: nat, given: nat) // TypeError: too many positional values
    | MissingPositional(names: seq<string>)                // TypeError: unpaired positionals
    | MissingKeyword(name: string)                         // TypeError: required keyword absent
    | UnexpectedKeyword(keys: set<string>)                 // TypeError: undeclared keywords left
    | NoPositionalToDefault                                // IndexError: flag set, no positional left

  /** The classes above every exception class. */
  const ExceptionBases: set<string> := {"Exception", "BaseException", "object"}

  const TypeErrorClass := Class("TypeError", ExceptionBases)
  const ValueErrorClass := Class("ValueError", ExceptionBases)

  /** Whether an error kind is raised as a `TypeError` (or a subclass of it). */
  predicate IsTypeErrorKind(e: Error) {
    e.InvalidConstraintSpec? || e.TypeMismatch? || e.SubClassMismatch? || e.NotComparable? ||
    e.NoLength? || e.NotIterable? || e.TooManyPositional? || e.MissingPositional? || e.MissingKeyword? ||
    e.UnexpectedKeyword?
  }

  /** Whether an error kind is raised as a `ValueError` (or a subclass of it). */
  predicate IsValueErrorKind(e: Error) {
    e.BelowMin? || e.AboveMax? || e.TooShort? || e.TooLong? || e.NotAllowed? ||
    e.MultiplePositionalDefaults?
  }

  /** The Python class of the exception raised for each error kind: the five
      `ValueError` subclasses and `SubClassError` declared by the module, and the
      built-in `TypeError`, `ValueError`, `NotImplementedError` and `IndexError`. */
  function ExceptionClass(e: Error): (c: Class)
    ensures IsSubclass(c, TypeErrorClass) <==> IsTypeErrorKind(e)
    ensures IsSubclass(c, ValueErrorClass) <==> IsValueErrorKind(e)
    ensures IsSubclass(c, Class("Exception", {"BaseException", "object"}))
  {
    match e
    case UnsupportedConstraint(_) => Class("NotImplementedError", {"RuntimeError"} + ExceptionBases)
    case SubClassMismatch(_) => Class("SubClassError", {"TypeError"} + ExceptionBases)
    case BelowMin(_) => Class("MinError", {"ValueError"} + ExceptionBases)
    case AboveMax(_) => Class("MaxError", {"ValueError"} + ExceptionBases)
    case TooShort(_) => Class("MinLengthError", {"ValueError"} + ExceptionBases)
    case TooLong(_) => Class("MaxLengthError", {"ValueError"} + ExceptionBases)
    case NotAllowed(_) => Class("InvalidArgument", {"ValueError"} + ExceptionBases)
    case MultiplePositionalDefaults => ValueErrorClass
    case NoPositionalToDefault => Class("IndexError", {"LookupError"} + ExceptionBases)
    case _ => TypeErrorClass
  }

  /** The rules for one parameter. `None` is "not given" (the source's `has…` flag
      is false); a `dtype` given as one type is kept as a one-element tuple, which
      `isinstance` treats the same way. */
  datatype Constraint = Constraint(
    dtype: Option<seq<Class>>,
    subClass: Option<Class>,
    min: Option<real>,
    max: Option<real>,
    minLength: Option<int>,
    maxLength: Option<int>,
    default: Option<Value>,
    possibleValues: Option<seq<Value>>,
    optional: bool)

  /** The `default` attribute: the default if given, Python's None otherwise. */
  function DefaultAttr(c: Constraint): (v: Value)
    ensures c.default.Some? ==> v == c.default.value
    ensures c.default.None? ==> v == NoneObj
  {
    match c.default
    case Some(d) => d
    case None => NoneObj
  }

  /** The six checks `validate` and `localValidate` share, in the source's order:
      dtype, subClass, min, max, minLength, maxLength. */
  function CheckRules(c: Constraint, s: Subject, v: Value): Outcome<Error> {
    if c.dtype.Some? && !IsInstance(v, c.dtype.value) then Fail(TypeMismatch(s))
    else if c.subClass.Some? && !IsSubclass(ClassOf(v), c.subClass.value) then Fail(SubClassMismatch(s))
    else if c.min.Some? && Num(v).None? then Fail(NotComparable(s))
    else if c.min.Some? && Num(v).value < c.min.value then Fail(BelowMin(s))
    else if c.max.Some? && Num(v).None? then Fail(NotComparable(s))
    else if c.max.Some? && Num(v).value > c.max.value then Fail(AboveMax(s))
    else if c.minLength.Some? && Len(v).None? then Fail(NoLength(s))
    else if c.minLength.Some? && Len(v).value < c.minLength.value then Fail(TooShort(s))
    else if c.maxLength.Some? && Len(v).None? then Fail(NoLength(s))
    else if c.maxLength.Some? && Len(v).value > c.maxLength.value then Fail(TooLong(s))
    else Pass
  }

  /** `ArgConstraint.validate(name, value)`: the six shared checks, then membership
      in `possibleValues`. */
  function Validate(c: Constraint, name: string, v: Value): (r: Outcome<Error>)
    ensures r.Pass? <==> Admits(c, v)
    ensures r.Fail? ==> IsActive(c, r.error) && IsValueError(r.error) && r.error.subject == Arg(name)
  {
    match CheckRules(c, Arg(name), v)
    case Fail(e) => Fail(e)
    case Pass =>
      if c.possibleValues.Some? && !In(v, c.possibleValues.value) then Fail(NotAllowed(Arg(name)))
      else Pass
  }

  /** The closure `localValidate` of `_parseConstraint`: the six shared checks, then,
      only when `possibleVals` is true, membership in `possibleValues`. The guard tests
      `possibleVals` and not whether `possibleValues` was given, so with no
      `possibleValues` the `in` test is made against the sentinel object, which is
      not iterable. */
  function LocalValidate(c: Constraint, s: Subject, v: Value, possibleVals: bool): (r: Outcome<Error>)
    ensures r.Pass? <==> AdmitsRules(c, v) && (possibleVals ==> c.possibleValues.Some? && In(v, c.possibleValues.value))
    ensures AdmitsRules(c, v) && possibleVals && c.possibleValues.None? ==> r == Fail(NotIterable(s))
    ensures AdmitsRules(c, v) && possibleVals && c.possibleValues.Some? && !In(v, c.possibleValues.value) ==>
      r == Fail(NotAllowed(s))
  {
    match CheckRules(c, s, v)
    case Fail(e) => Fail(e)
    case Pass =>
      if !possibleVals then Pass
      else if c.possibleValues.None? then Fail(NotIterable(s))
      else if !In(v, c.possibleValues.value) then Fail(NotAllowed(s))
      else Pass
  }

  // ----- An independent, check-by-check statement of the same rules -----

  function DtypeCheck(c: Constraint, s: Subject, v: Value): Outcome<Error> {
    match c.dtype
    case None => Pass
    case Some(ts) => if IsInstance(v, ts) then Pass else Fail(TypeMismatch(s))
  }

  function SubClassCheck(c: Constraint, s: Subject, v: Value): Outcome<Error> {
    match c.subClass
    case None => Pass
    case Some(b) => if IsSubclass(ClassOf(v), b) then Pass else Fail(SubClassMismatch(s))
  }

  function MinCheck(c: Constraint, s: Subject, v: Value): Outcome<Error> {
    match c.min
    case None => Pass
    case Some(m) =>
      match Num(v)
      case None => Fail(NotComparable(s))
      case Some(x) => if m <= x then Pass else Fail(BelowMin(s))
  }

  function MaxCheck(c: Constraint, s: Subject, v: Value): Outcome<Error> {
    match c.max
    case None => Pass
    case Some(m) =>
      match Num(v)
      case None => Fail(NotComparable(s))
      case Some(x) => if x <= m then Pass else Fail(AboveMax(s))
  }

  function MinLengthCheck(c: Constraint, s: Subject, v: Value): Outcome<Error> {
    match c.minLength
    case None => Pass
    case Some(a) =>
      match Len(v)
      case None => Fail(NoLength(s))
      case Some(n) => if a <= n then Pass else Fail(TooShort(s))
  }

  function MaxLengthCheck(c: Constraint, s: Subject, v: Value): Outcome<Error> {
    match c.maxLength
    case None => Pass
    case Some(b) =>
      match Len(v)
      case None => Fail(NoLength(s))
      case Some(n) => if n <= b then Pass else Fail(TooLong(s))
  }

  function MembershipCheck(c: Constraint, s: Subject, v: Value): Outcome<Error> {
    match c.possibleValues
    case None => Pass
    case Some(pv) => if In(v, pv) then Pass else Fail(NotAllowed(s))
  }

  /** The checks of `validate`, in the order the source runs them. */
  function Checks(c: Constraint, s: Subject, v: Value): (cs: seq<Outcome<Error>>)
    ensures |cs| == 7
  {
    [DtypeCheck(c, s, v), SubClassCheck(c, s, v), MinCheck(c, s, v), MaxCheck(c, s, v),
     MinLengthCheck(c, s, v), MaxLengthCheck(c, s, v), MembershipCheck(c, s, v)]
  }

  /** The first failure of a list of checks, or `Pass` when none fails. */
  function FirstFail(os: seq<Outcome<Error>>): Outcome<Error> {
    if os == [] then Pass
    else if os[0].Fail? then os[0]
    else FirstFail(os[1..])
  }

  /** `FirstFail` passes exactly when every check passes, and otherwise reports a
      failing check all of whose predecessors pass. */
  lemma {:induction false} FirstFailMeaning(os: seq<Outcome<Error>>)
    ensures FirstFail(os).Pass? <==> forall k :: 0 <= k < |os| ==> os[k].Pass?
    ensures FirstFail(os).Fail? ==>
      exists k :: 0 <= k < |os| && os[k] == FirstFail(os) && forall j :: 0 <= j < k ==> os[j].Pass?
  {
    if os != [] && os[0].Pass? {
      FirstFailMeaning(os[1..]);
      var r := FirstFail(os[1..]);
      assert forall k :: 1 <= k < |os| ==> os[k] == os[1..][k - 1];
      if r.Fail? {
        var k :| 0 <= k < |os| - 1 && os[1..][k] == r && forall j :: 0 <= j < k ==> os[1..][j].Pass?;
        assert os[k + 1] == r;
      }
    }
  }

  /** The six shared rules, stated directly: every active rule holds of `v`
      (bounds are inclusive). */
  predicate AdmitsRules(c: Constraint, v: Value) {
    (c.dtype.Some? ==> IsInstance(v, c.dtype.value)) &&
    (c.subClass.Some? ==> IsSubclass(ClassOf(v), c.subClass.value)) &&
    (c.min.Some? ==> Num(v).Some? && c.min.value <= Num(v).value) &&
    (c.max.Some? ==> Num(v).Some? && Num(v).value <= c.max.value) &&
    (c.minLength.Some? ==> Len(v).Some? && c.minLength.value <= Len(v).value) &&
    (c.maxLength.Some? ==> Len(v).Some? && Len(v).value <= c.maxLength.value)
  }

  /** All rules of `validate` hold of `v`. */
  predicate Admits(c: Constraint, v: Value) {
    AdmitsRules(c, v) && (c.possibleValues.Some? ==> In(v, c.possibleValues.value))
  }

  /** The error kinds a value check raises. */
  predicate IsValueError(e: Error) {
    e.TypeMismatch? || e.SubClassMismatch? || e.BelowMin? || e.AboveMax? || e.TooShort? ||
    e.TooLong? || e.NotAllowed? || e.NotComparable? || e.NoLength?
  }

  /** An error comes from a rule that was given. */
  predicate IsActive(c: Constraint, e: Error) {
    (e.TypeMismatch? ==> c.dtype.Some?) &&
    (e.SubClassMismatch? ==> c.subClass.Some?) &&
    (e.BelowMin? ==> c.min.Some?) &&
    (e.AboveMax? ==> c.max.Some?) &&
    (e.NotComparable? ==> c.min.Some? || c.max.Some?) &&
    (e.TooShort? ==> c.minLength.Some?) &&
    (e.TooLong? ==> c.maxLength.Some?) &&
    (e.NoLength? ==> c.minLength.Some? || c.maxLength.Some?) &&
    (e.NotAllowed? ==> c.possibleValues.Some?)
  }

  // ----- Properties of validate -----

  /** `FirstFail` of six checks, spelled out. */
  lemma FirstFailOfSix(a: Outcome<Error>, b: Outcome<Error>, c: Outcome<Error>,
                       d: Outcome<Error>, e: Outcome<Error>, f: Outcome<Error>)
    ensures FirstFail([a, b, c, d, e, f]) ==
      if a.Fail? then a else if b.Fail? then b else if c.Fail? then c
      else if d.Fail? then d else if e.Fail? then e else f
  {
    assert FirstFail([f]) == f by { assert [f][1..] == []; }
    assert FirstFail([e, f]) == if e.Fail? then e else FirstFail([f]) by { assert [e, f][1..] == [f]; }
    assert FirstFail([d, e, f]) == if d.Fail? then d else FirstFail([e, f]) by { assert [d, e, f][1..] == [e, f]; }
    assert FirstFail([c, d, e, f]) == if c.Fail? then c else FirstFail([d, e, f]) by { assert [c, d, e, f][1..] == [d, e, f]; }
    assert FirstFail([b, c, d, e, f]) == if b.Fail? then b else FirstFail([c, d, e, f]) by { assert [b, c, d, e, f][1..] == [c, d, e, f]; }
    assert [a, b, c, d, e, f][1..] == [b, c, d, e, f];
  }

  /** Running the rules one after the other and stopping at the first failure. */
  lemma FirstFailOfSeven(a: Outcome<Error>, b: Outcome<Error>, c: Outcome<Error>,
                         d: Outcome<Error>, e: Outcome<Error>, f: Outcome<Error>, g: Outcome<Error>)
    ensures FirstFail([a, b, c, d, e, f, g]) ==
      if FirstFail([a, b, c, d, e, f]).Fail? then FirstFail([a, b, c, d, e, f]) else g
  {
    assert FirstFail([g]) == g by { assert [g][1..] == []; }
    assert FirstFail([f, g]) == if f.Fail? then f else g by { assert [f, g][1..] == [g]; }
    assert FirstFail([e, f, g]) == if e.Fail? then e else FirstFail([f, g]) by { assert [e, f, g][1..] == [f, g]; }
    assert FirstFail([d, e, f, g]) == if d.Fail? then d else FirstFail([e, f, g]) by { assert [d, e, f, g][1..] == [e, f, g]; }
    assert FirstFail([c, d, e, f, g]) == if c.Fail? then c else FirstFail([d, e, f, g]) by { assert [c, d, e, f, g][1..] == [d, e, f, g]; }
    assert FirstFail([b, c, d, e, f, g]) == if b.Fail? then b else FirstFail([c, d, e, f, g]) by { assert [b, c, d, e, f, g][1..] == [c, d, e, f, g]; }
    assert [a, b, c, d, e, f, g][1..] == [b, c, d, e, f, g];
    FirstFailOfSix(a, b, c, d, e, f);
  }

  /** The shared rules report the first failing one of dtype, subClass, min, max,
      minLength, maxLength. */
  lemma CheckRulesChain(c: Constraint, s: Subject, v: Value)
    ensures CheckRules(c, s, v) ==
      var a, b, x, d, e, f := DtypeCheck(c, s, v), SubClassCheck(c, s, v), MinCheck(c, s, v),
                              MaxCheck(c, s, v), MinLengthCheck(c, s, v), MaxLengthCheck(c, s, v);
      if a.Fail? then a else if b.Fail? then b else if x.Fail? then x
      else if d.Fail? then d else if e.Fail? then e else f
  {
  }

  /** The six shared rules run in the order of `Checks` and report the first one that
      fails. */
  lemma RulesInOrder(c: Constraint, s: Subject, v: Value)
    ensures CheckRules(c, s, v) == FirstFail(Checks(c, s, v)[..6])
    ensures FirstFail(Checks(c, s, v)) ==
      if CheckRules(c, s, v).Fail? then CheckRules(c, s, v) else MembershipCheck(c, s, v)
  {
    var a, b, x, d, e, f, g := DtypeCheck(c, s, v), SubClassCheck(c, s, v), MinCheck(c, s, v),
                               MaxCheck(c, s, v), MinLengthCheck(c, s, v), MaxLengthCheck(c, s, v),
                               MembershipCheck(c, s, v);
    assert Checks(c, s, v) == [a, b, x, d, e, f, g];
    assert Checks(c, s, v)[..6] == [a, b, x, d, e, f];
    FirstFailOfSix(a, b, x, d, e, f);
    FirstFailOfSeven(a, b, x, d, e, f, g);
    CheckRulesChain(c, s, v);
  }

  /** Check order: `validate` runs dtype, subClass, min, max, minLength, maxLength and
      possibleValues in that order and reports only the first that fails. */
  lemma ValidateFirstFailure(c: Constraint, name: string, v: Value)
    ensures Validate(c, name, v) == FirstFail(Checks(c, Arg(name), v))
  {
    RulesInOrder(c, Arg(name), v);
  }

  /** `localValidate` as it is always called (`possibleVals` false) runs the first six
      checks of `validate` in the same order and never the membership check. */
  lemma LocalValidateFirstFailure(c: Constraint, s: Subject, v: Value)
    ensures LocalValidate(c, s, v, false) == FirstFail(Checks(c, s, v)[..6])
  {
    RulesInOrder(c, s, v);
  }

  /** `min` is an inclusive lower bound: once the dtype and subClass checks pass, a
      number fails with MinError exactly when it is below `min`. */
  lemma MinInclusive(c: Constraint, name: string, v: Value)
    requires c.min.Some? && Num(v).Some?
    requires DtypeCheck(c, Arg(name), v).Pass? && SubClassCheck(c, Arg(name), v).Pass?
    ensures Validate(c, name, v) == Fail(BelowMin(Arg(name))) <==> Num(v).value < c.min.value
  {
  }

  /** `max` is an inclusive upper bound: once the earlier checks pass, a number fails
      with MaxError exactly when it is above `max`. */
  lemma MaxInclusive(c: Constraint, name: string, v: Value)
    requires c.max.Some? && Num(v).Some?
    requires DtypeCheck(c, Arg(name), v).Pass? && SubClassCheck(c, Arg(name), v).Pass?
    requires MinCheck(c, Arg(name), v).Pass?
    ensures Validate(c, name, v) == Fail(AboveMax(Arg(name))) <==> Num(v).value > c.max.value
  {
  }

  /** `minLength` is inclusive: once the earlier checks pass, a sized value fails with
      MinLengthError exactly when it is shorter. */
  lemma MinLengthInclusive(c: Constraint, name: string, v: Value)
    requires c.minLength.Some? && Len(v).Some?
    requires DtypeCheck(c, Arg(name), v).Pass? && SubClassCheck(c, Arg(name), v).Pass?
    requires MinCheck(c, Arg(name), v).Pass? && MaxCheck(c, Arg(name), v).Pass?
    ensures Validate(c, name, v) == Fail(TooShort(Arg(name))) <==> Len(v).value < c.minLength.value
  {
  }

  /** `maxLength` is inclusive: once the earlier checks pass, a sized value fails with
      MaxLengthError exactly when it is longer. */
  lemma MaxLengthInclusive(c: Constraint, name: string, v: Value)
    requires c.maxLength.Some? && Len(v).Some?
    requires DtypeCheck(c, Arg(name), v).Pass? && SubClassCheck(c, Arg(name), v).Pass?
    requires MinCheck(c, Arg(name), v).Pass? && MaxCheck(c, Arg(name), v).Pass?
    requires MinLengthCheck(c, Arg(name), v).Pass?
    ensures Validate(c, name, v) == Fail(TooLong(Arg(name))) <==> Len(v).value > c.maxLength.value
  {
  }

  /** Once the six rules pass, `validate` fails with InvalidArgument exactly when the
      value is not `==` to any of `possibleValues`. */
  lemma MembershipExact(c: Constraint, name: string, v: Value)
    requires c.possibleValues.Some? && AdmitsRules(c, v)
    ensures Validate(c, name, v) == Fail(NotAllowed(Arg(name))) <==> !In(v, c.possibleValues.value)
  {
  }
}
