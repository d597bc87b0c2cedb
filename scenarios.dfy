/** The parser of the repository's test suite: one positional `pos1` (a `str` with
    default "value") and four keywords `kw1` (an instance of `ParentClass`), `kw2`
    (of a subclass of `ParentClass`), `kw3` (between 1 and 1.1, default 1.05) and
    `kw4` (a `str` of length 2 to 4, default "str"), and what `parseArgs` does with
    the argument lists the tests pass. */
module Scenarios {
  import opened Wrappers
  import opened PyValues
  import opened Tables
  import opened ArgConstraint
  import opened Declarations
  import opened DeclarationProperties
  import opened Binding
  import opened BindingProperties
  import opened ArgParser

  const ParentClass := Class("ParentClass", {"object"})
  const ChildClass := Class("ChildClass", {"ParentClass", "object"})
  const OtherClass := Class("OtherClass", {"object"})

  const Pos1Opts: Options := [("dtype", TypeObj(StrClass)), ("default", Str("value"))]
  const Kw1Opts: Options := [("dtype", TypeObj(ParentClass))]
  const Kw2Opts: Options := [("subClass", TypeObj(ParentClass))]
  const Kw3Opts: Options := [("min", Int(1)), ("max", Float(1.1)), ("default", Float(1.05))]
  const Kw4Opts: Options := [("dtype", TypeObj(StrClass)), ("minLength", Int(2)), ("maxLength", Int(4)), ("default", Str("str"))]

  const Pos1 := Constraint(Some([StrClass]), None, None, None, None, None, Some(Str("value")), None, false)
  const Kw1 := Constraint(Some([ParentClass]), None, None, None, None, None, None, None, false)
  const Kw2 := Constraint(None, Some(ParentClass), None, None, None, None, None, None, false)
  const Kw3 := Constraint(None, None, Some(1.0), Some(1.1), None, None, Some(Float(1.05)), None, false)
  const Kw4 := Constraint(Some([StrClass]), None, None, None, Some(2), Some(4), Some(Str("str")), None, false)

  lemma Pos1Parsed()
    ensures ConstraintFrom("pos1", Pos1Opts) == Ok(Pos1)
  {
    var opts := Pos1Opts;
    assert Find(opts, "dtype") == Some(TypeObj(StrClass));
    assert Find(opts, "default") == Some(Str("value"));
    assert Find(opts, "subClass") == Find(opts, "min") == Find(opts, "max") == None;
    assert Find(opts, "minLength") == Find(opts, "maxLength") == None;
    assert Find(opts, "optional") == Find(opts, "possibleValues") == None;
    assert WellShaped(opts);
    assert Build(opts) == Pos1;
    assert IsInstance(Str("value"), [StrClass]) by { assert IsSubclass(ClassOf(Str("value")), [StrClass][0]); }
    DeclarationValidation("pos1", opts);
  }

  lemma Kw1Parsed()
    ensures ConstraintFrom("kw1", Kw1Opts) == Ok(Kw1)
  {
    var opts := Kw1Opts;
    assert Find(opts, "dtype") == Some(TypeObj(ParentClass));
    assert Find(opts, "default") == Find(opts, "subClass") == Find(opts, "min") == Find(opts, "max") == None;
    assert Find(opts, "minLength") == Find(opts, "maxLength") == None;
    assert Find(opts, "optional") == Find(opts, "possibleValues") == None;
    assert WellShaped(opts);
    assert Build(opts) == Kw1;
    DeclarationValidation("kw1", opts);
  }

  lemma Kw2Parsed()
    ensures ConstraintFrom("kw2", Kw2Opts) == Ok(Kw2)
  {
    var opts := Kw2Opts;
    assert Find(opts, "subClass") == Some(TypeObj(ParentClass));
    assert Find(opts, "default") == Find(opts, "dtype") == Find(opts, "min") == Find(opts, "max") == None;
    assert Find(opts, "minLength") == Find(opts, "maxLength") == None;
    assert Find(opts, "optional") == Find(opts, "possibleValues") == None;
    assert WellShaped(opts);
    assert Build(opts) == Kw2;
    DeclarationValidation("kw2", opts);
  }

  lemma Kw3Parsed()
    ensures ConstraintFrom("kw3", Kw3Opts) == Ok(Kw3)
  {
    Kw3Built();
    assert AdmitsRules(Kw3, Float(1.05));
    DeclarationValidation("kw3", Kw3Opts);
  }

  lemma Kw3Built()
    ensures WellShaped(Kw3Opts) && Build(Kw3Opts) == Kw3
  {
    Kw3Given();
    Kw3Absent();
  }

  /** The options `kw3` is declared with, looked up. */
  lemma Kw3Given()
    ensures Find(Kw3Opts, "min") == Some(Int(1))
    ensures Find(Kw3Opts, "max") == Some(Float(1.1))
    ensures Find(Kw3Opts, "default") == Some(Float(1.05))
  {
    var opts := Kw3Opts;
    assert opts[1..] == [("max", Float(1.1)), ("default", Float(1.05))];
    assert opts[1..][1..] == [("default", Float(1.05))];
  }

  /** The options `kw3` is declared without. */
  lemma Kw3Absent()
    ensures Find(Kw3Opts, "dtype") == Find(Kw3Opts, "subClass") == None
    ensures Find(Kw3Opts, "minLength") == Find(Kw3Opts, "maxLength") == None
    ensures Find(Kw3Opts, "optional") == Find(Kw3Opts, "possibleValues") == None
  {
    assert Keys(Kw3Opts) == ["min", "max", "default"];
  }

  lemma Kw4Options()
    ensures Find(Kw4Opts, "dtype") == Some(TypeObj(StrClass))
    ensures Find(Kw4Opts, "minLength") == Some(Int(2))
    ensures Find(Kw4Opts, "maxLength") == Some(Int(4))
    ensures Find(Kw4Opts, "default") == Some(Str("str"))
    ensures Find(Kw4Opts, "subClass") == Find(Kw4Opts, "min") == Find(Kw4Opts, "max") == None
    ensures Find(Kw4Opts, "optional") == Find(Kw4Opts, "possibleValues") == None
  {
    Kw4Given();
    Kw4Absent();
  }

  /** The options `kw4` is declared with, looked up. */
  lemma Kw4Given()
    ensures Find(Kw4Opts, "dtype") == Some(TypeObj(StrClass))
    ensures Find(Kw4Opts, "minLength") == Some(Int(2))
    ensures Find(Kw4Opts, "maxLength") == Some(Int(4))
    ensures Find(Kw4Opts, "default") == Some(Str("str"))
  {
    var opts := Kw4Opts;
    var tail := [("maxLength", Int(4)), ("default", Str("str"))];
    assert opts[1..] == [("minLength", Int(2))] + tail;
    assert opts[1..][1..] == tail;
    assert tail[1..] == [("default", Str("str"))];
    assert Find(opts, "maxLength") == Find(opts[1..], "maxLength") == Find(tail, "maxLength");
    assert Find(opts, "default") == Find(opts[1..], "default") == Find(tail, "default") == Find(tail[1..], "default");
  }

  /** The options `kw4` is declared without. */
  lemma Kw4Absent()
    ensures Find(Kw4Opts, "subClass") == Find(Kw4Opts, "min") == Find(Kw4Opts, "max") == None
    ensures Find(Kw4Opts, "optional") == Find(Kw4Opts, "possibleValues") == None
  {
    assert Keys(Kw4Opts) == ["dtype", "minLength", "maxLength", "default"];
  }

  lemma Kw4Built()
    ensures WellShaped(Kw4Opts) && Build(Kw4Opts) == Kw4
  {
    Kw4Options();
  }

  lemma Kw4Parsed()
    ensures ConstraintFrom("kw4", Kw4Opts) == Ok(Kw4)
  {
    Kw4Built();
    Kw4DefaultAdmitted();
    Kw4Recognised();
    DeclarationValidation("kw4", Kw4Opts);
  }

  /** `kw4` is declared with supported options only. */
  lemma Kw4Recognised()
    ensures forall j :: 0 <= j < |Kw4Opts| ==> Kw4Opts[j].0 in Recognised
  {
    assert Keys(Kw4Opts) == ["dtype", "minLength", "maxLength", "default"];
  }

  /** The default of `kw4` is a string of length three, within its bounds. */
  lemma Kw4DefaultAdmitted()
    ensures AdmitsRules(Kw4, Str("str"))
  {
    assert IsInstance(Str("str"), [StrClass]) by { assert IsSubclass(ClassOf(Str("str")), [StrClass][0]); }
  }

  /** The four keyword declarations, in order. */
  const KeywordDecls: Table<Constraint> := [("kw1", Kw1), ("kw2", Kw2), ("kw3", Kw3), ("kw4", Kw4)]

  /** The parser after the five declarations. */
  const Declared := ParserState(true, [("pos1", Pos1)], KeywordDecls, map[])

  /** Declaring `pos1` with a default on a fresh parser sets the flag. */
  lemma Pos1Declared()
    ensures AddPositional(EmptyParser, "pos1", Pos1Opts) == (Declared.(kwargs := []), Pass)
  {
    Pos1Parsed();
  }

  /** Declaring keyword `name` when it is not declared yet appends it. */
  lemma KeywordAppended(s: ParserState, name: string, opts: Options, c: Constraint)
    requires ConstraintFrom(name, opts) == Ok(c) && name !in Keys(s.kwargs)
    ensures AddKeyword(s, name, opts) == (s.(kwargs := s.kwargs + [(name, c)]), Pass)
  {
  }

  /** The declarations made so far after the positional and the first `n` keywords. */
  function DeclaredUpTo(n: nat): ParserState
    requires n <= 4
  {
    Declared.(kwargs := KeywordDecls[..n])
  }

  /** Declaring keyword `n` of the test parser appends it. */
  lemma KeywordDeclared(n: nat, opts: Options)
    requires n < 4 && ConstraintFrom(KeywordDecls[n].0, opts) == Ok(KeywordDecls[n].1)
    ensures AddKeyword(DeclaredUpTo(n), KeywordDecls[n].0, opts) == (DeclaredUpTo(n + 1), Pass)
  {
    KeywordDeclsUnique();
    AddKeywordAppends(DeclaredUpTo(n), KeywordDecls, n, opts);
  }

  /** Declaring the four keywords, one by one, appends each. */
  lemma KeywordsDeclared()
    ensures AddKeyword(DeclaredUpTo(0), "kw1", Kw1Opts) == (DeclaredUpTo(1), Pass)
    ensures AddKeyword(DeclaredUpTo(1), "kw2", Kw2Opts) == (DeclaredUpTo(2), Pass)
    ensures AddKeyword(DeclaredUpTo(2), "kw3", Kw3Opts) == (DeclaredUpTo(3), Pass)
    ensures AddKeyword(DeclaredUpTo(3), "kw4", Kw4Opts) == (DeclaredUpTo(4), Pass)
  {
    Kw1Parsed();
    KeywordDeclared(0, Kw1Opts);
    Kw2Parsed();
    KeywordDeclared(1, Kw2Opts);
    Kw3Parsed();
    KeywordDeclared(2, Kw3Opts);
    Kw4Parsed();
    KeywordDeclared(3, Kw4Opts);
  }

  /** The test parser is well formed. */
  lemma DeclaredWellFormed()
    ensures DeclaredUpTo(4) == Declared && WellFormed(Declared)
  {
    assert KeywordDecls[..4] == KeywordDecls;
    KeywordDeclsUnique();
  }

  // ----- parseArgs on the test parser -----

  const Parent := Instance(ParentClass, 0)
  const Child := Instance(ChildClass, 1)
  const Other := Instance(OtherClass, 2)

  const KeywordNames: set<string> := {"kw1", "kw2", "kw3", "kw4"}

  /** What `getParsedVals` reads back: the five attributes. */
  predicate ParsedVals(b: map<string, Value>, pos1: Value, kw1: Value, kw2: Value, kw3: Value, kw4: Value) {
    "pos1" in b && "kw1" in b && "kw2" in b && "kw3" in b && "kw4" in b &&
    b["pos1"] == pos1 && b["kw1"] == kw1 && b["kw2"] == kw2 && b["kw3"] == kw3 && b["kw4"] == kw4
  }

  /** The keyword names in declaration order. */
  lemma KeywordKeys()
    ensures Keys(KeywordDecls) == ["kw1", "kw2", "kw3", "kw4"]
  {
    var t := KeywordDecls;
    assert t[1..] == [("kw2", Kw2), ("kw3", Kw3), ("kw4", Kw4)];
    assert t[1..][1..] == [("kw3", Kw3), ("kw4", Kw4)];
    assert t[1..][1..][1..] == [("kw4", Kw4)];
  }

  lemma KeywordDeclsUnique()
    ensures UniqueKeys(KeywordDecls) && KeySet(KeywordDecls) == KeywordNames
  {
    var t := KeywordDecls;
    assert t[1..] == [("kw2", Kw2), ("kw3", Kw3), ("kw4", Kw4)];
    assert t[1..][1..] == [("kw3", Kw3), ("kw4", Kw4)];
    assert t[1..][1..][1..] == [("kw4", Kw4)];
    assert Keys(t[1..][1..][1..]) == ["kw4"];
    assert Keys(t[1..][1..]) == ["kw3", "kw4"];
    assert Keys(t[1..]) == ["kw2", "kw3", "kw4"];
    assert Keys(t) == ["kw1", "kw2", "kw3", "kw4"];
    assert UniqueKeys(t[1..][1..][1..]);
    assert UniqueKeys(t[1..][1..]);
    assert UniqueKeys(t[1..]);
  }

  /** The four keywords of the test parser, by index. */
  lemma KeywordDeclsAt()
    ensures |KeywordDecls| == 4
    ensures KeywordDecls[0] == ("kw1", Kw1) && KeywordDecls[1] == ("kw2", Kw2)
    ensures KeywordDecls[2] == ("kw3", Kw3) && KeywordDecls[3] == ("kw4", Kw4)
  {
  }

  /** All four keywords of the test parser resolve against `kw`. */
  predicate TestResolves(kw: Kwargs) {
    Resolve(Kw1, "kw1", kw).Ok? && Resolve(Kw2, "kw2", kw).Ok? &&
    Resolve(Kw3, "kw3", kw).Ok? && Resolve(Kw4, "kw4", kw).Ok?
  }

  lemma TestAllResolve(kw: Kwargs)
    requires TestResolves(kw)
    ensures AllResolve(KeywordDecls, kw)
  {
    KeywordDeclsAt();
  }

  /** The keyword phase of the test parser when all four keywords resolve fails
      only on unexpected names. */
  lemma TestKeywordOutcome(s1: ParserState, kw: Kwargs)
    requires s1.kwargs == KeywordDecls && TestResolves(kw)
    ensures var (s', o) := ParseKeyword(s1, kw);
      (kw.Keys <= KeywordNames ==> o == Pass) &&
      (!(kw.Keys <= KeywordNames) ==> o == Fail(UnexpectedKeyword(kw.Keys - KeywordNames))) &&
      s'.kwargs == []
  {
    KeywordDeclsUnique();
    TestAllResolve(kw);
    KeywordSuccess(s1, kw);
  }

  /** The keyword phase of the test parser when all four keywords resolve binds
      keyword `j` to its resolution. */
  lemma TestKeywordBound(s1: ParserState, kw: Kwargs, j: nat)
    requires s1.kwargs == KeywordDecls && AllResolve(KeywordDecls, kw) && j < 4
    ensures var b := ParseKeyword(s1, kw).0.bound;
      KeywordDecls[j].0 in b && Resolve(KeywordDecls[j].1, KeywordDecls[j].0, kw).Ok? &&
      b[KeywordDecls[j].0] == Resolve(KeywordDecls[j].1, KeywordDecls[j].0, kw).value
  {
    KeywordDeclsUnique();
    KeywordBinds(s1, kw);
  }

  /** The positional name is none of the keyword names. */
  lemma Pos1NotKeyword()
    ensures "pos1" !in KeySet(KeywordDecls)
  {
    KeywordDeclsAt();
    var ks := Keys(KeywordDecls);
    assert forall j :: 0 <= j < |ks| ==> ks[j][0] == 'k';
    assert "pos1" !in ks;
  }

  /** The keyword phase of the test parser when all four keywords resolve binds
      each keyword to its resolution and keeps `pos1`. */
  lemma TestKeywordBinds(s1: ParserState, kw: Kwargs, pos1: Value)
    requires s1.kwargs == KeywordDecls && TestResolves(kw)
    requires "pos1" in s1.bound && s1.bound["pos1"] == pos1
    ensures ParsedVals(ParseKeyword(s1, kw).0.bound, pos1,
                       Resolve(Kw1, "kw1", kw).value, Resolve(Kw2, "kw2", kw).value,
                       Resolve(Kw3, "kw3", kw).value, Resolve(Kw4, "kw4", kw).value)
  {
    KeywordDeclsAt();
    TestAllResolve(kw);
    TestKeywordBound(s1, kw, 0);
    TestKeywordBound(s1, kw, 1);
    TestKeywordBound(s1, kw, 2);
    TestKeywordBound(s1, kw, 3);
    KeywordDeclsUnique();
    Pos1NotKeyword();
    KeywordKeeps(s1, kw, "pos1");
  }

  lemma ParentIsInstance()
    ensures IsInstance(Parent, [ParentClass]) && IsSubclass(ClassOf(Child), ParentClass)
    ensures !IsSubclass(ClassOf(Other), ParentClass)
  {
    assert IsSubclass(ClassOf(Parent), [ParentClass][0]);
  }

  /** `testDefaults`: no positional value, `kw4` left out: `pos1` and `kw4` take
      their defaults. The stale flag stays set. */
  lemma TestDefaults()
    ensures var kw := map["kw1" := Parent, "kw2" := Child, "kw3" := Float(1.065)];
      WellFormed(Declared) &&
      var (s', o) := Parse(Declared, [], kw);
      o == Pass && s'.args == [] && s'.kwargs == [] && s'.hasDefaultPositionalArg &&
      ParsedVals(s'.bound, Str("value"), Parent, Child, Float(1.065), Str("str"))
  {
    var kw := map["kw1" := Parent, "kw2" := Child, "kw3" := Float(1.065)];
    NoPositionalValue(kw);
    var s1 := Declared.(bound := map["pos1" := Str("value")], args := []);
    DefaultsResolve();
    assert TestResolves(kw);
    assert Parse(Declared, [], kw) == ParseKeyword(s1, kw);
    KeywordShape(s1, kw);
    TestKeywordOutcome(s1, kw);
    TestKeywordBinds(s1, kw, Str("value"));
  }

  /** The four keywords of `testDefaults` resolve to the supplied values and, for
      `kw4`, to its default. */
  lemma DefaultsResolve()
    ensures var kw := map["kw1" := Parent, "kw2" := Child, "kw3" := Float(1.065)];
      Resolve(Kw1, "kw1", kw) == Ok(Parent) && Resolve(Kw2, "kw2", kw) == Ok(Child) &&
      Resolve(Kw3, "kw3", kw) == Ok(Float(1.065)) && Resolve(Kw4, "kw4", kw) == Ok(Str("str"))
  {
    ParentIsInstance();
  }

  /** The keyword phase of the test parser reports the first keyword, in
      declaration order, that cannot be resolved. */
  lemma TestKeywordFails(s1: ParserState, kw: Kwargs, j: nat)
    requires s1.kwargs == KeywordDecls && j < 4
    requires forall m :: 0 <= m < j ==> Resolve(KeywordDecls[m].1, KeywordDecls[m].0, kw).Ok?
    requires Resolve(KeywordDecls[j].1, KeywordDecls[j].0, kw).Err?
    ensures ParseKeyword(s1, kw).1 == Fail(Resolve(KeywordDecls[j].1, KeywordDecls[j].0, kw).error)
  {
    KeywordDeclsUnique();
    KeywordFirstFailure(s1, kw, j);
  }

  /** The state after the positional phase of a call with no positional value:
      `pos1` is bound to its default "value". */
  lemma NoPositionalValue(kw: Kwargs)
    ensures WellFormed(Declared) &&
      ParsePositional(Declared, [], kw) == (Declared.(bound := map["pos1" := Str("value")], args := []), Ok(kw))
  {
    DeclaredWellFormed();
    DefaultPositional(Declared, kw);
  }

  /** A call with no positional value fails with the error `Resolve` reports for the
      first keyword `j` that cannot be resolved. */
  lemma NoPositionalFails(kw: Kwargs, j: nat)
    requires j < 4
    requires forall m :: 0 <= m < j ==> Resolve(KeywordDecls[m].1, KeywordDecls[m].0, kw).Ok?
    requires Resolve(KeywordDecls[j].1, KeywordDecls[j].0, kw).Err?
    ensures WellFormed(Declared) && Parse(Declared, [], kw).1 == Fail(Resolve(KeywordDecls[j].1, KeywordDecls[j].0, kw).error)
  {
    NoPositionalValue(kw);
    TestKeywordFails(Declared.(bound := map["pos1" := Str("value")], args := []), kw, j);
  }

  /** A call with no positional value in which `kw1`..`kw3` resolve and `kw4` does
      not fails with the error of `kw4`. */
  lemma Kw4Fails(kw: Kwargs, e: Error)
    requires Resolve(Kw1, "kw1", kw).Ok? && Resolve(Kw2, "kw2", kw).Ok? && Resolve(Kw3, "kw3", kw).Ok?
    requires Resolve(Kw4, "kw4", kw) == Err(e)
    ensures WellFormed(Declared) && Parse(Declared, [], kw).1 == Fail(e)
  {
    KeywordDeclsAt();
    NoPositionalFails(kw, 3);
  }

  /** `testMin`: 0.5 is below the minimum 1 of `kw3`: MinError, a ValueError. */
  lemma TestMin()
    ensures var kw := map["kw1" := Parent, "kw2" := Child, "kw3" := Float(0.5)];
      WellFormed(Declared) && Parse(Declared, [], kw).1 == Fail(BelowMin(Arg("kw3"))) &&
      IsSubclass(ExceptionClass(BelowMin(Arg("kw3"))), ValueErrorClass)
  {
    var kw := map["kw1" := Parent, "kw2" := Child, "kw3" := Float(0.5)];
    ParentIsInstance();
    KeywordDeclsAt();
    NoPositionalFails(kw, 2);
  }

  /** `testMax`: 2 is above the maximum 1.1 of `kw3`: MaxError, a ValueError. */
  lemma TestMax()
    ensures var kw := map["kw1" := Parent, "kw2" := Child, "kw3" := Int(2)];
      WellFormed(Declared) && Parse(Declared, [], kw).1 == Fail(AboveMax(Arg("kw3"))) &&
      IsSubclass(ExceptionClass(AboveMax(Arg("kw3"))), ValueErrorClass)
  {
    var kw := map["kw1" := Parent, "kw2" := Child, "kw3" := Int(2)];
    ParentIsInstance();
    KeywordDeclsAt();
    NoPositionalFails(kw, 2);
  }

  /** `testMinLength`: "a" is shorter than 2: MinLengthError, a ValueError; `kw3`
      takes its default first. */
  lemma TestMinLength()
    ensures var kw := map["kw1" := Parent, "kw2" := Child, "kw4" := Str("a")];
      WellFormed(Declared) && Parse(Declared, [], kw).1 == Fail(TooShort(Arg("kw4"))) &&
      IsSubclass(ExceptionClass(TooShort(Arg("kw4"))), ValueErrorClass)
  {
    var kw := map["kw1" := Parent, "kw2" := Child, "kw4" := Str("a")];
    ParentIsInstance();
    assert IsInstance(Str("a"), [StrClass]) by { assert IsSubclass(ClassOf(Str("a")), [StrClass][0]); }
    assert Resolve(Kw1, "kw1", kw).Ok? && Resolve(Kw2, "kw2", kw).Ok? && Resolve(Kw3, "kw3", kw).Ok?;
    Kw4Fails(kw, TooShort(Arg("kw4")));
  }

  /** `testMaxLength`: "aaaaa" is longer than 4: MaxLengthError, a ValueError. */
  lemma TestMaxLength()
    ensures var kw := map["kw1" := Parent, "kw2" := Child, "kw4" := Str("aaaaa")];
      WellFormed(Declared) && Parse(Declared, [], kw).1 == Fail(TooLong(Arg("kw4"))) &&
      IsSubclass(ExceptionClass(TooLong(Arg("kw4"))), ValueErrorClass)
  {
    var kw := map["kw1" := Parent, "kw2" := Child, "kw4" := Str("aaaaa")];
    ParentIsInstance();
    assert IsInstance(Str("aaaaa"), [StrClass]) by { assert IsSubclass(ClassOf(Str("aaaaa")), [StrClass][0]); }
    assert Resolve(Kw1, "kw1", kw).Ok? && Resolve(Kw2, "kw2", kw).Ok? && Resolve(Kw3, "kw3", kw).Ok?;
    Kw4Fails(kw, TooLong(Arg("kw4")));
  }

  /** `testDtype`: 3 is not a `str`: TypeError. */
  lemma TestDtype()
    ensures var kw := map["kw1" := Parent, "kw2" := Child, "kw4" := Int(3)];
      WellFormed(Declared) && Parse(Declared, [], kw).1 == Fail(TypeMismatch(Arg("kw4"))) &&
      IsSubclass(ExceptionClass(TypeMismatch(Arg("kw4"))), TypeErrorClass)
  {
    var kw := map["kw1" := Parent, "kw2" := Child, "kw4" := Int(3)];
    ParentIsInstance();
    assert Resolve(Kw1, "kw1", kw).Ok? && Resolve(Kw2, "kw2", kw).Ok? && Resolve(Kw3, "kw3", kw).Ok?;
    Kw4Fails(kw, TypeMismatch(Arg("kw4")));
  }

  /** `testSubClass`: an `OtherClass` instance for `kw2`: SubClassError, a
      TypeError. */
  lemma TestSubClass()
    ensures var kw := map["kw1" := Parent, "kw2" := Other];
      WellFormed(Declared) && Parse(Declared, [], kw).1 == Fail(SubClassMismatch(Arg("kw2"))) &&
      IsSubclass(ExceptionClass(SubClassMismatch(Arg("kw2"))), TypeErrorClass)
  {
    var kw := map["kw1" := Parent, "kw2" := Other];
    ParentIsInstance();
    KeywordDeclsAt();
    NoPositionalFails(kw, 1);
  }

  /** `testPositionalArgCountEnforcement`: six values, one positional and four
      keywords: TypeError, nothing bound. */
  lemma TestPositionalArgCount()
    ensures var argv := [Str("test"), Parent, Child, Float(1.065), Str("test"), Str("Extra Arg")];
      WellFormed(Declared) && Parse(Declared, argv, map[]) == (Declared, Fail(TooManyPositional(1, 5, 6)))
  {
    DeclaredWellFormed();
  }

  /** The positional phase of a call with one to five values, the first admitted
      by `pos1`: `pos1` is bound to it and the rest overflow into `kw1`..`kw4`. */
  lemma OnePositionalValue(argv: seq<Value>, kw: Kwargs)
    requires 1 <= |argv| <= 5 && Validate(Pos1, "pos1", argv[0]).Pass?
    ensures WellFormed(Declared) &&
      ParsePositional(Declared, argv, kw) ==
        (Declared.(bound := map["pos1" := argv[0]], args := []), Ok(Overflow(kw, Keys(KeywordDecls), argv[1..], 0)))
  {
    DeclaredWellFormed();
    SinglePositionalBound(Declared, argv, kw);
  }

  /** The keyword dict built by overflowing four values into the test parser's
      keyword names, with nothing supplied by keyword. */
  lemma OverflowFour(rest: seq<Value>)
    requires |rest| == 4
    ensures var kw := Overflow(map[], ["kw1", "kw2", "kw3", "kw4"], rest, 0);
      kw.Keys == KeywordNames &&
      kw["kw1"] == rest[0] && kw["kw2"] == rest[1] && kw["kw3"] == rest[2] && kw["kw4"] == rest[3]
  {
    var names := ["kw1", "kw2", "kw3", "kw4"];
    OverflowAt(map[], names, rest, 0);
    var kw := Overflow(map[], names, rest, 0);
    assert names[0] in kw && names[1] in kw && names[2] in kw && names[3] in kw;
  }

  /** The last four values of `testKwargOverflow`, overflowed into the keyword
      names, resolve to themselves. */
  lemma OverflowResolves(rest: seq<Value>)
    requires rest == [Parent, Child, Float(1.065), Str("test")]
    ensures var kw := Overflow(map[], Keys(KeywordDecls), rest, 0);
      kw.Keys == KeywordNames &&
      Resolve(Kw1, "kw1", kw) == Ok(Parent) && Resolve(Kw2, "kw2", kw) == Ok(Child) &&
      Resolve(Kw3, "kw3", kw) == Ok(Float(1.065)) && Resolve(Kw4, "kw4", kw) == Ok(Str("test"))
  {
    KeywordKeys();
    OverflowFour(rest);
    SuppliedResolve(Overflow(map[], Keys(KeywordDecls), rest, 0));
  }

  /** A keyword dict holding the values of `testKwargOverflow` resolves each of
      them to itself. */
  lemma SuppliedResolve(kw: Kwargs)
    requires "kw1" in kw && "kw2" in kw && "kw3" in kw && "kw4" in kw
    requires kw["kw1"] == Parent && kw["kw2"] == Child && kw["kw3"] == Float(1.065) && kw["kw4"] == Str("test")
    ensures Resolve(Kw1, "kw1", kw) == Ok(Parent) && Resolve(Kw2, "kw2", kw) == Ok(Child)
    ensures Resolve(Kw3, "kw3", kw) == Ok(Float(1.065)) && Resolve(Kw4, "kw4", kw) == Ok(Str("test"))
  {
    ParentIsInstance();
    assert IsInstance(Str("test"), [StrClass]) by { assert IsSubclass(ClassOf(Str("test")), [StrClass][0]); }
  }

  /** `testKwargOverflow`: five positional values: `pos1` takes the first and the
      other four overflow, in order, into `kw1`..`kw4`, which all validate. */
  lemma TestKwargOverflow()
    ensures var argv := [Str("test"), Parent, Child, Float(1.065), Str("test")];
      WellFormed(Declared) &&
      var (s', o) := Parse(Declared, argv, map[]);
      o == Pass && s'.args == [] && s'.kwargs == [] &&
      ParsedVals(s'.bound, Str("test"), Parent, Child, Float(1.065), Str("test"))
  {
    var argv := [Str("test"), Parent, Child, Float(1.065), Str("test")];
    assert IsInstance(Str("test"), [StrClass]) by { assert IsSubclass(ClassOf(Str("test")), [StrClass][0]); }
    OnePositionalValue(argv, map[]);
    assert argv[1..] == [Parent, Child, Float(1.065), Str("test")];
    OverflowResolves(argv[1..]);
    var kw := Overflow(map[], Keys(KeywordDecls), argv[1..], 0);
    var s1 := Declared.(bound := map["pos1" := Str("test")], args := []);
    assert TestResolves(kw);
    KeywordShape(s1, kw);
    TestKeywordOutcome(s1, kw);
    TestKeywordBinds(s1, kw, Str("test"));
    assert Parse(Declared, argv, map[]) == ParseKeyword(s1, kw);
  }

  /** `testKeywordArgCountEnforcement`: a fifth, undeclared keyword `kw5`: TypeError
      naming it, after every declared keyword has been bound. */
  lemma TestKeywordArgCount()
    ensures var kw := map["kw1" := Parent, "kw2" := Child, "kw3" := Float(1.065), "kw4" := Str("test"), "kw5" := Str("Extra Arg")];
      WellFormed(Declared) &&
      Parse(Declared, [Str("test")], kw).1 == Fail(UnexpectedKeyword({"kw5"})) &&
      IsSubclass(ExceptionClass(UnexpectedKeyword({"kw5"})), TypeErrorClass)
  {
    var kw := map["kw1" := Parent, "kw2" := Child, "kw3" := Float(1.065), "kw4" := Str("test"), "kw5" := Str("Extra Arg")];
    assert IsInstance(Str("test"), [StrClass]) by { assert IsSubclass(ClassOf(Str("test")), [StrClass][0]); }
    OnePositionalValue([Str("test")], kw);
    assert [Str("test")][1..] == [];
    var s1 := Declared.(bound := map["pos1" := Str("test")], args := []);
    ArgCountResolves();
    TestKeywordOutcome(s1, kw);
    Kw5Extra();
  }

  /** The four declared keywords of `testKeywordArgCountEnforcement` resolve. */
  lemma ArgCountResolves()
    ensures TestResolves(map["kw1" := Parent, "kw2" := Child, "kw3" := Float(1.065), "kw4" := Str("test"), "kw5" := Str("Extra Arg")])
  {
    var kw := map["kw1" := Parent, "kw2" := Child, "kw3" := Float(1.065), "kw4" := Str("test"), "kw5" := Str("Extra Arg")];
    SuppliedResolve(kw);
  }

  /** `kw5` is the only name of `testKeywordArgCountEnforcement` not declared. */
  lemma Kw5Extra()
    ensures var kw := map["kw1" := Parent, "kw2" := Child, "kw3" := Float(1.065), "kw4" := Str("test"), "kw5" := Str("Extra Arg")];
      !(kw.Keys <= KeywordNames) && kw.Keys - KeywordNames == {"kw5"}
  {
    var kw := map["kw1" := Parent, "kw2" := Child, "kw3" := Float(1.065), "kw4" := Str("test"), "kw5" := Str("Extra Arg")];
    assert forall x :: x in KeywordNames ==> x[2] != '5';
    assert kw.Keys == KeywordNames + {"kw5"};
  }

  // ----- The same on the object -----

  /** `TestClass()` with the arguments of `testDefaults`, on the `ArgParser`
      object: each declaration and the parse succeed and the attributes read back
      are the defaults and the supplied values. */
  method TestDefaultsOnObject() returns (vals: seq<Value>)
    ensures vals == [Str("value"), Parent, Child, Float(1.065), Str("str")]
  {
    var p := new ArgParser();
    Pos1Declared();
    KeywordsDeclared();
    DeclaredWellFormed();
    var o := p.AddPositionalArg("pos1", Pos1Opts);
    o := p.AddKeywordArg("kw1", Kw1Opts);
    o := p.AddKeywordArg("kw2", Kw2Opts);
    o := p.AddKeywordArg("kw3", Kw3Opts);
    o := p.AddKeywordArg("kw4", Kw4Opts);
    assert p.State() == Declared;
    TestDefaults();
    o := p.ParseArgs([], map["kw1" := Parent, "kw2" := Child, "kw3" := Float(1.065)]);
    assert o == Pass;
    vals := [p.bound["pos1"], p.bound["kw1"], p.bound["kw2"], p.bound["kw3"], p.bound["kw4"]];
  }
}
