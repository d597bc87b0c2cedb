/** The `ArgParser` object itself: its attributes are updated in place by the
    declaration calls and by `parseArgs`. Each method is proved to leave the object
    in the state the corresponding function of `Declarations` or `Binding`
    describes, and to keep `Valid()`. */
module ArgParser {
  import opened Wrappers
  import opened PyValues
  import opened Tables
  import opened ArgConstraint
  import opened Declarations
  import opened Binding
  import opened DeclarationProperties
  import opened BindingProperties

  class ArgParser {
    /** `_hasDefaultPositionalArg` */
    var hasDefaultPositionalArg: bool
    /** `_args`: positional declarations in insertion order */
    var args: Table<Constraint>
    /** `_kwargs`: keyword declarations in insertion order */
    var kwargs: Table<Constraint>
    /** The attributes set on the object by `setattr` while parsing. */
    var bound: map<string, Value>

    /** The object's attributes as a value. */
    function State(): ParserState
      reads this
    {
      ParserState(hasDefaultPositionalArg, args, kwargs, bound)
    }

    predicate Valid()
      reads this
    {
      WellFormed(State())
    }

    /** `ArgParser()`: no declarations, flag cleared. */
    constructor()
      ensures Valid() && State() == EmptyParser
    {
      hasDefaultPositionalArg := false;
      args := [];
      kwargs := [];
      bound := map[];
    }

    /** `_parseConstraint(name, **opts)`: the loop over the option keys, the shape
        checks, the loop over the elements of `possibleValues` and the check of
        `default`. It changes nothing. */
    method ParseConstraint(name: string, opts: Options) returns (r: Result<Constraint, Error>)
      ensures r == ConstraintFrom(name, opts)
    {
      var i := 0;
      while i < |opts|
        invariant 0 <= i <= |opts|
        invariant FirstUnsupportedFrom(opts, i) == FirstUnsupportedFrom(opts, 0)
      {
        if opts[i].0 !in Recognised {
          return Err(UnsupportedConstraint(opts[i].0));
        }
        i := i + 1;
      }
      var shape := ShapeError(name, opts);
      if shape.Some? {
        return Err(shape.value);
      }
      var c := Build(opts);
      var items := if c.possibleValues.Some? then c.possibleValues.value else [];
      var j := 0;
      while j < |items|
        invariant 0 <= j <= |items|
        invariant FirstInvalidItemFrom(c, items, j) == FirstInvalidItemFrom(c, items, 0)
      {
        var o := LocalValidate(c, PossibleValuesItem(j), items[j], false);
        if o.Fail? {
          return Err(o.error);
        }
        j := j + 1;
      }
      if c.default.Some? {
        var o := LocalValidate(c, DefaultValue, c.default.value, false);
        if o.Fail? {
          return Err(o.error);
        }
      }
      return Ok(c);
    }

    /** `addKeywordArg(name, **opts)` */
    method AddKeywordArg(name: string, opts: Options) returns (o: Outcome<Error>)
      requires Valid()
      modifies this
      ensures Valid() && (State(), o) == AddKeyword(old(State()), name, opts)
    {
      AddPreservesWellFormed(State(), name, opts);
      var r := ParseConstraint(name, opts);
      if r.Err? {
        return Fail(r.error);
      }
      kwargs := Put(kwargs, name, r.value);
      return Pass;
    }

    /** `addPositionalArg(name, **opts)` */
    method AddPositionalArg(name: string, opts: Options) returns (o: Outcome<Error>)
      requires Valid()
      modifies this
      ensures Valid() && (State(), o) == AddPositional(old(State()), name, opts)
    {
      AddPreservesWellFormed(State(), name, opts);
      if hasDefaultPositionalArg {
        return Fail(MultiplePositionalDefaults);
      }
      var r := ParseConstraint(name, opts);
      if r.Err? {
        return Fail(r.error);
      }
      if r.value.default.Some? {
        if |args| != 0 {
          return Fail(MultiplePositionalDefaults);
        }
        hasDefaultPositionalArg := true;
      }
      args := Put(args, name, r.value);
      return Pass;
    }

    /** The pairing loop of `_parsePositionalArgs`: validate the value at index `i`
        of the shrinking list against declaration `i` of a copy of `_args`, set
        the attribute, delete the value and the declaration. Returns what is left
        of the list and whether a validation failed. */
    method PairValues(argv: seq<Value>) returns (rest: seq<Value>, o: Outcome<Error>)
      requires UniqueKeys(args)
      modifies this
      ensures (State(), rest, o) == Pairing(old(State()), argv, old(args), 0)
    {
      ghost var s0 := State();
      var list := argv;
      var decls := args;
      assert decls[0..] == decls;
      var i := 0;
      while i < |list| && i < |decls|
        invariant 0 <= i <= |decls| && args == decls[i..]
        invariant Pairing(s0, argv, decls, 0) == Pairing(State(), list, decls, i)
        decreases |decls| - i
      {
        var name := decls[i].0;
        var check := Validate(decls[i].1, name, list[i]);
        if check.Fail? {
          return list, check;
        }
        SuffixUnique(decls, i);
        RemoveFirst(decls[i..]);
        assert decls[i..][1..] == decls[i + 1..];
        bound := bound[name := list[i]];
        list := list[..i] + list[i + 1..];
        args := Remove(args, name);
        i := i + 1;
      }
      return list, Pass;
    }

    /** `_parsePositionalArgs(*argv, **kw)`: returns the keyword dict to hand on. */
    method ParsePositionalArgs(argv: seq<Value>, kw: Kwargs) returns (r: Result<Kwargs, Error>)
      requires Valid()
      modifies this
      ensures Valid() && (State(), r) == ParsePositional(old(State()), argv, kw)
    {
      ghost var s0 := State();
      PositionalPreservesWellFormed(s0, argv, kw);
      var p, k, a := |args|, |kwargs|, |argv|;
      var keywordless := false;
      if a > p {
        if k == 0 {
          return Err(TooManyPositional(p, p, a));
        } else if k + p < a {
          return Err(TooManyPositional(p, p + k, a));
        } else {
          keywordless := true;
        }
      }
      if hasDefaultPositionalArg && a == 0 {
        if args == [] {
          return Err(NoPositionalToDefault);
        }
        var name := args[0].0;
        bound := bound[name := DefaultAttr(args[0].1)];
        args := Remove(args, name);
        return Ok(kw);
      }
      assert s0.args[0..] == s0.args;
      PairingCounts(s0, argv, s0.args, 0);
      var rest, o := PairValues(argv);
      ghost var s1 := State();
      assert ParsePositional(s0, argv, kw) == AfterPairing(s1, rest, o, a > p, kw);
      r := AfterPairingArgs(rest, o, keywordless, kw);
    }

    /** The end of `_parsePositionalArgs` once the pairing loop has run: the
        failure it raised, the missing-positional error, or the overflow. */
    method AfterPairingArgs(rest: seq<Value>, o: Outcome<Error>, keywordless: bool, kw: Kwargs) returns (r: Result<Kwargs, Error>)
      requires o.Pass? && keywordless && |args| == 0 ==> |rest| <= |kwargs|
      modifies this
      ensures (State(), r) == AfterPairing(old(State()), rest, o, keywordless, kw)
    {
      if o.Fail? {
        return Err(o.error);
      }
      if |args| > 0 {
        if |args| == 1 {
          var name := args[0].0;
          args := [];
          return Err(MissingPositional([name]));
        }
        return Err(MissingPositional(Keys(args)));
      }
      if keywordless {
        var kw' := OverflowInto(kw, Keys(kwargs), rest);
        return Ok(kw');
      }
      return Ok(kw);
    }

    /** The keyword loop of `_parseKeywordArgs` over a copy of `_kwargs`. Returns
        the supplied keywords no declaration consumed, and whether resolution
        failed. */
    method ResolveKeywords(kw: Kwargs) returns (rest: Kwargs, o: Outcome<Error>)
      modifies this
      ensures (State(), rest, o) == Resolving(old(State()), kw, old(kwargs), 0)
    {
      ghost var s0 := State();
      var decls := kwargs;
      rest := kw;
      var i := 0;
      while i < |decls|
        invariant 0 <= i <= |decls|
        invariant Resolving(s0, kw, decls, 0) == Resolving(State(), rest, decls, i)
      {
        var name := decls[i].0;
        var c := decls[i].1;
        if name in rest {
          var v := rest[name];
          var check := Validate(c, name, v);
          if check.Fail? {
            return rest, check;
          }
          bound := bound[name := v];
          rest := rest - {name};
        } else if c.default.Some? {
          bound := bound[name := c.default.value];
        } else if c.optional {
          bound := bound[name := NoneObj];
        } else {
          return rest, Fail(MissingKeyword(name));
        }
        kwargs := Remove(kwargs, name);
        i := i + 1;
      }
      return rest, Pass;
    }

    /** `_parseKeywordArgs(**kw)` */
    method ParseKeywordArgs(kw: Kwargs) returns (o: Outcome<Error>)
      requires Valid()
      modifies this
      ensures Valid() && (State(), o) == ParseKeyword(old(State()), kw)
    {
      KeywordPreservesWellFormed(State(), kw);
      var rest;
      rest, o := ResolveKeywords(kw);
      if o.Fail? {
        return o;
      }
      if |rest| > 0 {
        return Fail(UnexpectedKeyword(rest.Keys));
      }
      return Pass;
    }

    /** `parseArgs(*argv, **kw)` */
    method ParseArgs(argv: seq<Value>, kw: Kwargs) returns (o: Outcome<Error>)
      requires Valid()
      modifies this
      ensures Valid() && (State(), o) == Parse(old(State()), argv, kw)
    {
      var r := ParsePositionalArgs(argv, kw);
      if r.Err? {
        return Fail(r.error);
      }
      o := ParseKeywordArgs(r.value);
    }
  }

  /** The overflow loop of `_parsePositionalArgs`: leftover value `i` is stored
      under keyword name `i`, overwriting a supplied value of that name. */
  method OverflowInto(kw: Kwargs, names: seq<string>, rest: seq<Value>) returns (kw': Kwargs)
    requires |rest| <= |names|
    ensures kw' == Overflow(kw, names, rest, 0)
  {
    kw' := kw;
    var j := 0;
    while j < |rest|
      invariant 0 <= j <= |rest|
      invariant Overflow(kw', names, rest, j) == Overflow(kw, names, rest, 0)
    {
      kw' := kw'[names[j] := rest[j]];
      j := j + 1;
    }
  }
}
