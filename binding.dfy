/** The binding half of `ArgParser`: `_parsePositionalArgs`, `_parseKeywordArgs` and
    `parseArgs`, as functions of the parser's state. The state after a failure is
    modelled too: Python leaves the attributes set and the declarations deleted so
    far in place when an exception interrupts a loop. */
module Binding {
  import opened Wrappers
  import opened PyValues
  import opened Tables
  import opened ArgConstraint
  import opened Declarations

  /** The supplied keyword arguments (`**kwargs`). */
  type Kwargs = map<string, Value>

  /** The loop `for i, (arg, (name, constraint)) in enumerate(zip(args, decls))` with
      `del args[i]` in its body, from step `i`: `list` is the supplied-values list as
      shrunk so far, `decls` the copy of the positional declarations taken when the
      loop started. Each step validates, sets the attribute and deletes the value
      and the declaration. Returns the new state, the shrunk list and the outcome. */
  function Pairing(s: ParserState, list: seq<Value>, decls: Table<Constraint>, i: nat): (ParserState, seq<Value>, Outcome<Error>)
    decreases |decls| - i
  {
    if i < |list| && i < |decls| then
      var name := decls[i].0;
      match Validate(decls[i].1, name, list[i])
      case Fail(e) => (s, list, Fail(e))
      case Pass =>
        Pairing(s.(bound := s.bound[name := list[i]], args := Remove(s.args, name)),
                list[..i] + list[i + 1..], decls, i + 1)
    else (s, list, Pass)
  }

  /** The overflow loop `kwargs[kwargNames[i]] = arg` over the leftover values, from
      index `i`: an explicitly supplied keyword of the same name is overwritten. */
  function Overflow(kw: Kwargs, names: seq<string>, rest: seq<Value>, i: nat): Kwargs
    requires |rest| <= |names|
    decreases |rest| - i
  {
    if i < |rest| then Overflow(kw[names[i] := rest[i]], names, rest, i + 1) else kw
  }

  /** `_parsePositionalArgs(*argv, **kw)`: the arity checks, the defaulted-positional
      case, the pairing loop, the missing-positional error and the overflow into the
      keyword names. Returns the new state and the keyword dict handed on. */
  function ParsePositional(s: ParserState, argv: seq<Value>, kw: Kwargs): (ParserState, Result<Kwargs, Error>)
    requires WellFormed(s)
  {
    var p, k, a := |s.args|, |s.kwargs|, |argv|;
    if a > p && k == 0 then (s, Err(TooManyPositional(p, p, a)))
    else if a > p && k + p < a then (s, Err(TooManyPositional(p, p + k, a)))
    else if s.hasDefaultPositionalArg && a == 0 then
      if s.args == [] then (s, Err(NoPositionalToDefault))
      else
        var name := s.args[0].0;
        (s.(bound := s.bound[name := DefaultAttr(s.args[0].1)], args := Remove(s.args, name)), Ok(kw))
    else
      var (s1, rest, o) := Pairing(s, argv, s.args, 0);
      PairingCounts(s, argv, s.args, 0);
      AfterPairing(s1, rest, o, a > p, kw)
  }

  /** The end of `_parsePositionalArgs` once the pairing loop has left state `s1`,
      the values `rest` and outcome `o`: the failure, the missing-positional error
      (a single one is taken out by `popitem`), or the overflow of `rest` into the
      keyword names when more values than positionals were given. */
  function AfterPairing(s1: ParserState, rest: seq<Value>, o: Outcome<Error>, overflow: bool, kw: Kwargs): (ParserState, Result<Kwargs, Error>)
    requires o.Pass? && overflow && |s1.args| == 0 ==> |rest| <= |s1.kwargs|
  {
    if o.Fail? then (s1, Err(o.error))
    else if |s1.args| == 1 then (s1.(args := []), Err(MissingPositional([s1.args[0].0])))
    else if |s1.args| > 1 then (s1, Err(MissingPositional(Keys(s1.args))))
    else if overflow then (s1, Ok(Overflow(kw, Keys(s1.kwargs), rest, 0)))
    else (s1, Ok(kw))
  }

  /** Each pairing step removes one value and one declaration; the keyword
      declarations and the flag are untouched, and the declarations left are a
      suffix of the copy. */
  lemma {:induction false} PairingCounts(s: ParserState, list: seq<Value>, decls: Table<Constraint>, i: nat)
    requires i <= |decls| && s.args == decls[i..] && UniqueKeys(decls)
    ensures var (s', rest, _) := Pairing(s, list, decls, i);
      |list| - |rest| == |s.args| - |s'.args| &&
      s'.kwargs == s.kwargs && s'.hasDefaultPositionalArg == s.hasDefaultPositionalArg &&
      exists m :: i <= m <= |decls| && s'.args == decls[m..]
    decreases |decls| - i
  {
    if i < |list| && i < |decls| {
      var name := decls[i].0;
      if Validate(decls[i].1, name, list[i]).Pass? {
        SuffixUnique(decls, i);
        RemoveFirst(decls[i..]);
        assert decls[i..][1..] == decls[i + 1..];
        PairingCounts(s.(bound := s.bound[name := list[i]], args := Remove(s.args, name)),
                      list[..i] + list[i + 1..], decls, i + 1);
      }
    }
  }

  /** The loop `for name, constraint in list(self._kwargs.items())` from step `i`:
      a supplied value is validated and bound and its name deleted from `kw`;
      otherwise the default, otherwise None when optional, otherwise
      missing-keyword. Each handled declaration is deleted from `_kwargs`. */
  function Resolving(s: ParserState, kw: Kwargs, decls: Table<Constraint>, i: nat): (ParserState, Kwargs, Outcome<Error>)
    decreases |decls| - i
  {
    if i < |decls| then
      var (name, c) := decls[i];
      if name in kw then
        match Validate(c, name, kw[name])
        case Fail(e) => (s, kw, Fail(e))
        case Pass =>
          Resolving(s.(bound := s.bound[name := kw[name]], kwargs := Remove(s.kwargs, name)), kw - {name}, decls, i + 1)
      else if c.default.Some? then
        Resolving(s.(bound := s.bound[name := c.default.value], kwargs := Remove(s.kwargs, name)), kw, decls, i + 1)
      else if c.optional then
        Resolving(s.(bound := s.bound[name := NoneObj], kwargs := Remove(s.kwargs, name)), kw, decls, i + 1)
      else (s, kw, Fail(MissingKeyword(name)))
    else (s, kw, Pass)
  }

  /** `_parseKeywordArgs(**kw)`: resolve every declared keyword, then refuse any
      supplied name left over. */
  function ParseKeyword(s: ParserState, kw: Kwargs): (ParserState, Outcome<Error>) {
    var (s1, rest, o) := Resolving(s, kw, s.kwargs, 0);
    if o.Fail? then (s1, o)
    else if |rest| > 0 then (s1, Fail(UnexpectedKeyword(rest.Keys)))
    else (s1, Pass)
  }

  /** `parseArgs(*argv, **kw)`: positional phase, then keyword phase on the keyword
      dict it hands on. */
  function Parse(s: ParserState, argv: seq<Value>, kw: Kwargs): (ParserState, Outcome<Error>)
    requires WellFormed(s)
  {
    var (s1, r) := ParsePositional(s, argv, kw);
    match r
    case Err(e) => (s1, Fail(e))
    case Ok(kw1) => ParseKeyword(s1, kw1)
  }
}
