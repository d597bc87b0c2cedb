/** The declaration half of `ArgParser`: `_parseConstraint` (with `localValidate`),
    `addKeywordArg` and `addPositionalArg`, as functions of the parser's state. */
module Declarations {
  import opened Wrappers
  import opened PyValues
  import opened Tables
  import opened ArgConstraint

  /** The keyword arguments given to a declaration call, in call order. */
  type Options = Table<Value>

  /** The nine option names `_parseConstraint` recognises. */
  const Recognised: set<string> :=
    {"dtype", "subClass", "min", "max", "minLength", "maxLength", "default", "optional", "possibleValues"}

  /** The options whose shape is checked, in the order they are checked. */
  const ShapeOrder: seq<string> :=
    ["dtype", "subClass", "min", "max", "minLength", "maxLength", "optional", "possibleValues"]

  /** The parser's state: the `_hasDefaultPositionalArg` flag, the `_args` and
      `_kwargs` declaration dicts, and the attributes `parseArgs` sets (`bound`). */
  datatype ParserState = ParserState(
    hasDefaultPositionalArg: bool,
    args: Table<Constraint>,
    kwargs: Table<Constraint>,
    bound: map<string, Value>)

  const EmptyParser := ParserState(false, [], [], map[])

  /** What the parser keeps true between calls: both dicts have unique keys; a
      positional with a default is the only positional and has set the flag; and
      while the flag is set, the positional left (if any) is the defaulted one. */
  predicate WellFormed(s: ParserState) {
    UniqueKeys(s.args) && UniqueKeys(s.kwargs) &&
    (s.hasDefaultPositionalArg ==> |s.args| <= 1 && forall j :: 0 <= j < |s.args| ==> s.args[j].1.default.Some?) &&
    (forall j :: 0 <= j < |s.args| && s.args[j].1.default.Some? ==> s.hasDefaultPositionalArg && |s.args| == 1)
  }

  // ----- _parseConstraint -----

  /** The first option key, from position `i` on, that is not one of the nine. */
  function FirstUnsupportedFrom(opts: Options, i: nat): Option<string>
    decreases |opts| - i
  {
    if i >= |opts| then None
    else if opts[i].0 !in Recognised then Some(opts[i].0)
    else FirstUnsupportedFrom(opts, i + 1)
  }

  /** `isinstance(dtype, (type, tuple))` and, for a tuple, every element a type. */
  predicate IsTypeSpec(v: Value) {
    v.TypeObj? || (v.Tuple? && forall k :: 0 <= k < |v.elems| ==> v.elems[k].TypeObj?)
  }

  /** The classes a well-shaped `dtype` stands for. */
  function TypeSpecClasses(v: Value): (cs: seq<Class>)
    requires IsTypeSpec(v)
    ensures v.TypeObj? ==> cs == [v.cls]
    ensures v.Tuple? ==> |cs| == |v.elems| && forall k :: 0 <= k < |cs| ==> cs[k] == v.elems[k].cls
  {
    if v.TypeObj? then [v.cls]
    else seq(|v.elems|, k requires 0 <= k < |v.elems| => v.elems[k].cls)
  }

  /** Whether the value given for option `key` has the shape `_parseConstraint` demands. */
  predicate ShapeOk(key: string, v: Value) {
    if key == "dtype" then IsTypeSpec(v)
    else if key == "subClass" then v.TypeObj?
    else if key == "min" || key == "max" then IsNumber(v)
    else if key == "minLength" || key == "maxLength" then IsInt(v)
    else if key == "optional" then v.Bool?
    else if key == "possibleValues" then v.List? || v.Tuple?
    else true
  }

  /** Option `key`, if given, has the right shape. */
  predicate OptShapeOk(opts: Options, key: string) {
    Find(opts, key).None? || ShapeOk(key, Find(opts, key).value)
  }

  /** Every checked option that is given has the right shape. */
  predicate WellShaped(opts: Options) {
    var dtype, subClass, minVal, maxVal := Find(opts, "dtype"), Find(opts, "subClass"), Find(opts, "min"), Find(opts, "max");
    var minLength, maxLength := Find(opts, "minLength"), Find(opts, "maxLength");
    var optional, possibleValues := Find(opts, "optional"), Find(opts, "possibleValues");
    (dtype.Some? ==> IsTypeSpec(dtype.value)) && (subClass.Some? ==> subClass.value.TypeObj?) &&
    (minVal.Some? ==> IsNumber(minVal.value)) && (maxVal.Some? ==> IsNumber(maxVal.value)) &&
    (minLength.Some? ==> IsInt(minLength.value)) && (maxLength.Some? ==> IsInt(maxLength.value)) &&
    (optional.Some? ==> optional.value.Bool?) &&
    (possibleValues.Some? ==> possibleValues.value.List? || possibleValues.value.Tuple?)
  }

  /** The first option of `ShapeOrder`, from position `k` on, that is given with the
      wrong shape. */
  function FirstMisshapedFrom(opts: Options, k: nat): Option<string>
    decreases |ShapeOrder| - k
  {
    if k >= |ShapeOrder| then None
    else if !OptShapeOk(opts, ShapeOrder[k]) then Some(ShapeOrder[k])
    else FirstMisshapedFrom(opts, k + 1)
  }

  /** The shape checks of `_parseConstraint`, in the source's order. */
  function ShapeError(name: string, opts: Options): (r: Option<Error>)
    ensures r.None? <==> WellShaped(opts)
  {
    var dtype, subClass, minVal, maxVal := Find(opts, "dtype"), Find(opts, "subClass"), Find(opts, "min"), Find(opts, "max");
    var minLength, maxLength := Find(opts, "minLength"), Find(opts, "maxLength");
    var optional, possibleValues := Find(opts, "optional"), Find(opts, "possibleValues");
    if dtype.Some? && !IsTypeSpec(dtype.value) then Some(InvalidConstraintSpec(name, "dtype"))
    else if subClass.Some? && !subClass.value.TypeObj? then Some(InvalidConstraintSpec(name, "subClass"))
    else if minVal.Some? && !IsNumber(minVal.value) then Some(InvalidConstraintSpec(name, "min"))
    else if maxVal.Some? && !IsNumber(maxVal.value) then Some(InvalidConstraintSpec(name, "max"))
    else if minLength.Some? && !IsInt(minLength.value) then Some(InvalidConstraintSpec(name, "minLength"))
    else if maxLength.Some? && !IsInt(maxLength.value) then Some(InvalidConstraintSpec(name, "maxLength"))
    else if optional.Some? && !optional.value.Bool? then Some(InvalidConstraintSpec(name, "optional"))
    else if possibleValues.Some? && !(possibleValues.value.List? || possibleValues.value.Tuple?) then
      Some(InvalidConstraintSpec(name, "possibleValues"))
    else None
  }

  /** The constraint built from well-shaped options (`ArgConstraint(...)` at the end
      of `_parseConstraint`); `optional` defaults to False. */
  function Build(opts: Options): (c: Constraint)
    requires WellShaped(opts)
    ensures c.dtype.Some? <==> Find(opts, "dtype").Some?
    ensures c.dtype.Some? ==> c.dtype.value == TypeSpecClasses(Find(opts, "dtype").value)
    ensures c.subClass.Some? <==> Find(opts, "subClass").Some?
    ensures c.subClass.Some? ==> c.subClass.value == Find(opts, "subClass").value.cls
    ensures c.min.Some? <==> Find(opts, "min").Some?
    ensures c.min.Some? ==> c.min == Num(Find(opts, "min").value)
    ensures c.max.Some? <==> Find(opts, "max").Some?
    ensures c.max.Some? ==> c.max == Num(Find(opts, "max").value)
    ensures c.minLength.Some? <==> Find(opts, "minLength").Some?
    ensures c.minLength.Some? ==> c.minLength.value == IntValue(Find(opts, "minLength").value)
    ensures c.maxLength.Some? <==> Find(opts, "maxLength").Some?
    ensures c.maxLength.Some? ==> c.maxLength.value == IntValue(Find(opts, "maxLength").value)
    ensures c.default == Find(opts, "default")
    ensures c.optional <==> Find(opts, "optional") == Some(Bool(true))
    ensures c.possibleValues.Some? <==> Find(opts, "possibleValues").Some?
    ensures c.possibleValues.Some? ==> c.possibleValues.value == Find(opts, "possibleValues").value.elems
  {
    var optional, possibleValues := Find(opts, "optional"), Find(opts, "possibleValues");
    Constraint(
      dtype := GivenClasses(Find(opts, "dtype")),
      subClass := GivenClass(Find(opts, "subClass")),
      min := GivenNum(Find(opts, "min")),
      max := GivenNum(Find(opts, "max")),
      minLength := GivenInt(Find(opts, "minLength")),
      maxLength := GivenInt(Find(opts, "maxLength")),
      default := Find(opts, "default"),
      possibleValues := if possibleValues.Some? then Some(possibleValues.value.elems) else None,
      optional := optional.Some? && optional.value.b)
  }

  /** The classes of a `dtype` option, if given. */
  function GivenClasses(o: Option<Value>): (r: Option<seq<Class>>)
    requires o.Some? ==> IsTypeSpec(o.value)
    ensures r.Some? <==> o.Some?
    ensures r.Some? ==> r.value == TypeSpecClasses(o.value)
  {
    if o.Some? then Some(TypeSpecClasses(o.value)) else None
  }

  /** The class of a `subClass` option, if given. */
  function GivenClass(o: Option<Value>): (r: Option<Class>)
    requires o.Some? ==> o.value.TypeObj?
    ensures r.Some? <==> o.Some?
    ensures r.Some? ==> r.value == o.value.cls
  {
    if o.Some? then Some(o.value.cls) else None
  }

  /** The number of a `min` or `max` option, if given. */
  function GivenNum(o: Option<Value>): (r: Option<real>)
    requires o.Some? ==> IsNumber(o.value)
    ensures r.Some? <==> o.Some?
    ensures r.Some? ==> r == Num(o.value)
  {
    if o.Some? then Num(o.value) else None
  }

  /** The integer of a `minLength` or `maxLength` option, if given. */
  function GivenInt(o: Option<Value>): (r: Option<int>)
    requires o.Some? ==> IsInt(o.value)
    ensures r.Some? <==> o.Some?
    ensures r.Some? ==> r.value == IntValue(o.value)
  {
    if o.Some? then Some(IntValue(o.value)) else None
  }

  /** The loop over `possibleValues` from index `i`: the first element `localValidate`
      rejects (always with `possibleVals` false). */
  function FirstInvalidItemFrom(c: Constraint, items: seq<Value>, i: nat): Outcome<Error>
    decreases |items| - i
  {
    if i >= |items| then Pass
    else match LocalValidate(c, PossibleValuesItem(i), items[i], false)
      case Fail(e) => Fail(e)
      case Pass => FirstInvalidItemFrom(c, items, i + 1)
  }

  /** `_parseConstraint(name, **opts)`: unknown keys, then shapes, then each element
      of `possibleValues` in order, then `default`, each through `localValidate`. */
  function ConstraintFrom(name: string, opts: Options): (r: Result<Constraint, Error>)
    ensures r.Ok? ==> forall j :: 0 <= j < |opts| ==> opts[j].0 in Recognised
    ensures r.Ok? ==> WellShaped(opts) && r.value == Build(opts)
    ensures r.Ok? && r.value.possibleValues.Some? ==>
      forall i :: 0 <= i < |r.value.possibleValues.value| ==> AdmitsRules(r.value, r.value.possibleValues.value[i])
    ensures r.Ok? && r.value.default.Some? ==> AdmitsRules(r.value, r.value.default.value)
  {
    match FirstUnsupportedFrom(opts, 0)
    case Some(k) => Err(UnsupportedConstraint(k))
    case None =>
      AllRecognised(opts, 0);
      match ShapeError(name, opts)
      case Some(e) => Err(e)
      case None =>
        var c := Build(opts);
        var items := if c.possibleValues.Some? then c.possibleValues.value else [];
        match FirstInvalidItemFrom(c, items, 0)
        case Fail(e) => Err(e)
        case Pass =>
          ItemsAdmitted(c, items, 0);
          if c.default.Some? && LocalValidate(c, DefaultValue, c.default.value, false).Fail? then
            Err(LocalValidate(c, DefaultValue, c.default.value, false).error)
          else Ok(c)
  }

  /** The shape errors come in the order of `ShapeOrder`: the one reported is about
      the first option given with the wrong shape. */
  lemma ShapeErrorInOrder(name: string, opts: Options)
    ensures ShapeError(name, opts) ==
      match FirstMisshapedFrom(opts, 0)
      case Some(k) => Some(InvalidConstraintSpec(name, k))
      case None => None
  {
    ShapeOkByKey(opts);
    assert ShapeOrder[0] == "dtype" && ShapeOrder[1] == "subClass" && ShapeOrder[2] == "min" && ShapeOrder[3] == "max";
    assert ShapeOrder[4] == "minLength" && ShapeOrder[5] == "maxLength" && ShapeOrder[6] == "optional";
    assert ShapeOrder[7] == "possibleValues";
    assert FirstMisshapedFrom(opts, 8) == None;
    assert FirstMisshapedFrom(opts, 6) ==
      if !OptShapeOk(opts, "optional") then Some("optional")
      else if !OptShapeOk(opts, "possibleValues") then Some("possibleValues") else None;
    assert FirstMisshapedFrom(opts, 3) ==
      if !OptShapeOk(opts, "max") then Some("max")
      else if !OptShapeOk(opts, "minLength") then Some("minLength")
      else if !OptShapeOk(opts, "maxLength") then Some("maxLength")
      else FirstMisshapedFrom(opts, 6);
  }

  /** `OptShapeOk` for each checked option, with the key dispatch of `ShapeOk` done. */
  lemma ShapeOkByKey(opts: Options)
    ensures OptShapeOk(opts, "dtype") <==> Find(opts, "dtype").None? || IsTypeSpec(Find(opts, "dtype").value)
    ensures OptShapeOk(opts, "subClass") <==> Find(opts, "subClass").None? || Find(opts, "subClass").value.TypeObj?
    ensures OptShapeOk(opts, "min") <==> Find(opts, "min").None? || IsNumber(Find(opts, "min").value)
    ensures OptShapeOk(opts, "max") <==> Find(opts, "max").None? || IsNumber(Find(opts, "max").value)
    ensures OptShapeOk(opts, "minLength") <==> Find(opts, "minLength").None? || IsInt(Find(opts, "minLength").value)
    ensures OptShapeOk(opts, "maxLength") <==> Find(opts, "maxLength").None? || IsInt(Find(opts, "maxLength").value)
    ensures OptShapeOk(opts, "optional") <==> Find(opts, "optional").None? || Find(opts, "optional").value.Bool?
    ensures OptShapeOk(opts, "possibleValues") <==>
      Find(opts, "possibleValues").None? || Find(opts, "possibleValues").value.List? || Find(opts, "possibleValues").value.Tuple?
  {
  }

  lemma {:induction false} AllRecognised(opts: Options, i: nat)
    requires FirstUnsupportedFrom(opts, i).None?
    ensures forall j :: i <= j < |opts| ==> opts[j].0 in Recognised
    decreases |opts| - i
  {
    if i < |opts| {
      AllRecognised(opts, i + 1);
    }
  }

  /** The element loop passes exactly when every element from `i` on satisfies the rules. */
  lemma {:induction false} ItemsAdmitted(c: Constraint, items: seq<Value>, i: nat)
    ensures FirstInvalidItemFrom(c, items, i).Pass? <==> forall j :: i <= j < |items| ==> AdmitsRules(c, items[j])
    decreases |items| - i
  {
    if i < |items| {
      ItemsAdmitted(c, items, i + 1);
    }
  }

  // ----- addKeywordArg / addPositionalArg -----

  /** `addKeywordArg(name, **opts)`: store the parsed constraint under `name`. */
  function AddKeyword(s: ParserState, name: string, opts: Options): (ParserState, Outcome<Error>) {
    match ConstraintFrom(name, opts)
    case Err(e) => (s, Fail(e))
    case Ok(c) => (s.(kwargs := Put(s.kwargs, name, c)), Pass)
  }

  /** `addPositionalArg(name, **opts)`: refuse once a defaulted positional exists,
      parse the constraint, refuse a default unless no positional is declared yet. */
  function AddPositional(s: ParserState, name: string, opts: Options): (ParserState, Outcome<Error>) {
    if s.hasDefaultPositionalArg then (s, Fail(MultiplePositionalDefaults))
    else match ConstraintFrom(name, opts)
      case Err(e) => (s, Fail(e))
      case Ok(c) =>
        if c.default.Some? then
          if |s.args| != 0 then (s, Fail(MultiplePositionalDefaults))
          else (s.(hasDefaultPositionalArg := true, args := Put(s.args, name, c)), Pass)
        else (s.(args := Put(s.args, name, c)), Pass)
  }
}

module DeclarationProperties {
  import opened Wrappers
  import opened PyValues
  import opened Tables
  import opened ArgConstraint
  import opened Declarations

  /** The first unknown key from `i` on is a key of `opts` that is not recognised
      and comes after only recognised ones. */
  lemma {:induction false} FirstUnsupportedMeaning(opts: Options, i: nat)
    ensures FirstUnsupportedFrom(opts, i).None? <==> forall j :: i <= j < |opts| ==> opts[j].0 in Recognised
    ensures FirstUnsupportedFrom(opts, i).Some? ==>
      exists j :: i <= j < |opts| && opts[j].0 == FirstUnsupportedFrom(opts, i).value && opts[j].0 !in Recognised &&
        forall m :: i <= m < j ==> opts[m].0 in Recognised
    decreases |opts| - i
  {
    if i < |opts| {
      FirstUnsupportedMeaning(opts, i + 1);
    }
  }

  /** An unknown option key is rejected with NotImplementedError before anything
      else is looked at, and it is the first unknown key in call order. */
  lemma UnsupportedRejectedFirst(name: string, opts: Options)
    ensures (exists j :: 0 <= j < |opts| && opts[j].0 !in Recognised) <==>
      ConstraintFrom(name, opts).Err? && ConstraintFrom(name, opts).error.UnsupportedConstraint?
    ensures ConstraintFrom(name, opts).Err? && ConstraintFrom(name, opts).error.UnsupportedConstraint? ==>
      exists j :: 0 <= j < |opts| && opts[j].0 == ConstraintFrom(name, opts).error.key &&
        opts[j].0 !in Recognised && forall m :: 0 <= m < j ==> opts[m].0 in Recognised
  {
    FirstUnsupportedMeaning(opts, 0);
    if FirstUnsupportedFrom(opts, 0).None? {
      var r := ConstraintFrom(name, opts);
      if r.Err? && r.error.UnsupportedConstraint? {
        match ShapeError(name, opts)
        case Some(e) =>
        case None =>
          var c := Build(opts);
          var items := if c.possibleValues.Some? then c.possibleValues.value else [];
          NoUnsupportedFromItems(c, items, 0);
      }
    }
  }

  /** Validation at declaration time never reports an unknown key. */
  lemma {:induction false} NoUnsupportedFromItems(c: Constraint, items: seq<Value>, i: nat)
    ensures FirstInvalidItemFrom(c, items, i).Fail? ==> !FirstInvalidItemFrom(c, items, i).error.UnsupportedConstraint?
    decreases |items| - i
  {
    if i < |items| {
      NoUnsupportedFromItems(c, items, i + 1);
    }
  }

  /** With only known keys, the first option of dtype, subClass, min, max, minLength,
      maxLength, optional, possibleValues given with the wrong shape is rejected with
      TypeError, before any value is validated. */
  lemma ShapeRejected(name: string, opts: Options, k: string)
    requires forall j :: 0 <= j < |opts| ==> opts[j].0 in Recognised
    requires FirstMisshapedFrom(opts, 0) == Some(k)
    ensures ConstraintFrom(name, opts) == Err(InvalidConstraintSpec(name, k))
  {
    FirstUnsupportedMeaning(opts, 0);
    ShapeErrorInOrder(name, opts);
  }

  /** The element loop reports the error of the first element that breaks a rule. */
  lemma {:induction false} FirstInvalidItemAt(c: Constraint, items: seq<Value>, i0: nat, i: nat)
    requires i0 <= i < |items|
    requires forall j :: i0 <= j < i ==> AdmitsRules(c, items[j])
    requires !AdmitsRules(c, items[i])
    ensures FirstInvalidItemFrom(c, items, i0) == LocalValidate(c, PossibleValuesItem(i), items[i], false)
    decreases i - i0
  {
    if i0 < i {
      FirstInvalidItemAt(c, items, i0 + 1, i);
    }
  }

  /** Validation at declaration: with known keys and well-shaped options, each element
      of `possibleValues` in index order and then `default` are checked against the
      six rules only; the first failure is the result, and otherwise the constraint
      is built. Membership of `default` in `possibleValues` is not required. */
  lemma DeclarationValidation(name: string, opts: Options)
    requires forall j :: 0 <= j < |opts| ==> opts[j].0 in Recognised
    requires WellShaped(opts)
    ensures var c := Build(opts);
      var items := if c.possibleValues.Some? then c.possibleValues.value else [];
      (forall i :: 0 <= i < |items| && (forall j :: 0 <= j < i ==> AdmitsRules(c, items[j])) && !AdmitsRules(c, items[i]) ==>
         ConstraintFrom(name, opts) == Err(LocalValidate(c, PossibleValuesItem(i), items[i], false).error)) &&
      ((forall i :: 0 <= i < |items| ==> AdmitsRules(c, items[i])) && c.default.Some? && !AdmitsRules(c, c.default.value) ==>
         ConstraintFrom(name, opts) == Err(LocalValidate(c, DefaultValue, c.default.value, false).error)) &&
      ((forall i :: 0 <= i < |items| ==> AdmitsRules(c, items[i])) && (c.default.Some? ==> AdmitsRules(c, c.default.value)) ==>
         ConstraintFrom(name, opts) == Ok(c))
  {
    FirstUnsupportedMeaning(opts, 0);
    var c := Build(opts);
    var items := if c.possibleValues.Some? then c.possibleValues.value else [];
    ItemsAdmitted(c, items, 0);
    forall i | 0 <= i < |items| && (forall j :: 0 <= j < i ==> AdmitsRules(c, items[j])) && !AdmitsRules(c, items[i])
      ensures ConstraintFrom(name, opts) == Err(LocalValidate(c, PossibleValuesItem(i), items[i], false).error)
    {
      FirstInvalidItemAt(c, items, 0, i);
    }
  }

  /** The default is never checked against `possibleValues`: a default outside the
      list is accepted when the parameter is declared, although `validate` would
      reject the same value if it were supplied. */
  lemma DefaultOutsidePossibleValuesAccepted()
    ensures var opts := [("possibleValues", List([Str("a"), Str("b")])), ("default", Str("z"))];
      ConstraintFrom("p", opts).Ok? &&
      ConstraintFrom("p", opts).value.default == Some(Str("z")) &&
      Validate(ConstraintFrom("p", opts).value, "p", Str("z")) == Fail(NotAllowed(Arg("p")))
  {
    var opts := [("possibleValues", List([Str("a"), Str("b")])), ("default", Str("z"))];
    assert Find(opts, "possibleValues") == Some(List([Str("a"), Str("b")]));
    assert Find(opts, "default") == Some(Str("z"));
    assert WellShaped(opts);
    DeclarationValidation("p", opts);
    var c := Build(opts);
    assert c.possibleValues == Some([Str("a"), Str("b")]);
    assert !In(Str("z"), [Str("a"), Str("b")]) by {
      forall k | 0 <= k < 2 ensures !PyEq(Str("z"), [Str("a"), Str("b")][k]) {
      }
    }
  }

  // ----- addKeywordArg / addPositionalArg -----

  /** `addKeywordArg` stores the parsed constraint under `name`, replacing an earlier
      declaration of that name in place; a failed declaration changes nothing. */
  lemma AddKeywordStores(s: ParserState, name: string, opts: Options)
    requires UniqueKeys(s.kwargs)
    ensures var (s', o) := AddKeyword(s, name, opts);
      (o.Pass? <==> ConstraintFrom(name, opts).Ok?) &&
      (o.Fail? ==> s' == s && o.error == ConstraintFrom(name, opts).error) &&
      (o.Pass? ==>
        s' == s.(kwargs := s'.kwargs) && UniqueKeys(s'.kwargs) &&
        Find(s'.kwargs, name) == Some(ConstraintFrom(name, opts).value) &&
        (forall k :: k != name ==> Find(s'.kwargs, k) == Find(s.kwargs, k)) &&
        (name in Keys(s.kwargs) ==> Keys(s'.kwargs) == Keys(s.kwargs)) &&
        (name !in Keys(s.kwargs) ==> Keys(s'.kwargs) == Keys(s.kwargs) + [name]))
  {
    if ConstraintFrom(name, opts).Ok? {
      var c := ConstraintFrom(name, opts).value;
      PutUnique(s.kwargs, name, c);
      forall k ensures Find(Put(s.kwargs, name, c), name) == Some(c) &&
        (k != name ==> Find(Put(s.kwargs, name, c), k) == Find(s.kwargs, k)) {
        PutFind(s.kwargs, name, c, k);
      }
      if name !in Keys(s.kwargs) {
        assert Keys(s.kwargs + [(name, c)]) == Keys(s.kwargs) + [name];
      }
    }
  }

  /** Declaring the entries of a table with unique names one after another, in
      order, builds that table: entry `n` is appended to the first `n`. */
  lemma AddKeywordAppends(s: ParserState, t: Table<Constraint>, n: nat, opts: Options)
    requires UniqueKeys(t) && n < |t| && s.kwargs == t[..n]
    requires ConstraintFrom(t[n].0, opts) == Ok(t[n].1)
    ensures AddKeyword(s, t[n].0, opts) == (s.(kwargs := t[..n + 1]), Pass)
  {
    PutAfterPrefix(t, n);
  }

  /** The single-defaulted-positional rule: once a defaulted positional exists every
      further positional is refused; a defaulted positional is accepted only as the
      first one and then sets the flag; a refused declaration changes nothing. */
  lemma AddPositionalRule(s: ParserState, name: string, opts: Options)
    ensures var (s', o) := AddPositional(s, name, opts);
      (s.hasDefaultPositionalArg ==> s' == s && o == Fail(MultiplePositionalDefaults)) &&
      (o.Fail? ==> s' == s) &&
      (o.Pass? <==> !s.hasDefaultPositionalArg && ConstraintFrom(name, opts).Ok? &&
                    (ConstraintFrom(name, opts).value.default.Some? ==> s.args == [])) &&
      (o.Pass? && ConstraintFrom(name, opts).value.default.Some? ==>
         s' == s.(hasDefaultPositionalArg := true, args := [(name, ConstraintFrom(name, opts).value)])) &&
      (o.Pass? && ConstraintFrom(name, opts).value.default.None? ==>
         s' == s.(args := Put(s.args, name, ConstraintFrom(name, opts).value)))
  {
  }

  /** A second defaulted positional is refused whichever is declared first: after a
      defaulted one, and also when the defaulted one comes after any other. */
  lemma SecondDefaultRefused(s: ParserState, name: string, opts: Options)
    requires WellFormed(s)
    requires (exists j :: 0 <= j < |s.args| && s.args[j].1.default.Some?) ||
             (s.args != [] && ConstraintFrom(name, opts).Ok? && ConstraintFrom(name, opts).value.default.Some?)
    ensures AddPositional(s, name, opts) == (s, Fail(MultiplePositionalDefaults))
  {
  }

  /** Both declaration calls keep the parser well formed, on success and on failure. */
  lemma AddPreservesWellFormed(s: ParserState, name: string, opts: Options)
    requires WellFormed(s)
    ensures WellFormed(AddKeyword(s, name, opts).0)
    ensures WellFormed(AddPositional(s, name, opts).0)
  {
    if ConstraintFrom(name, opts).Ok? {
      var c := ConstraintFrom(name, opts).value;
      PutUnique(s.kwargs, name, c);
      PutUnique(s.args, name, c);
      var s' := AddPositional(s, name, opts).0;
      if !s.hasDefaultPositionalArg && c.default.None? {
        forall j | 0 <= j < |s'.args| ensures s'.args[j].1.default.None? {
          if j < |s.args| {
            if s.args[j].0 != name {
              PutKeepsOthers(s.args, name, c, j);
            } else {
              PutAt(s.args, name, c, j);
            }
          } else {
            assert s'.args == s.args + [(name, c)];
          }
        }
      }
    }
  }
}
