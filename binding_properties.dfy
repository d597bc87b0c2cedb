/** What `_parsePositionalArgs`, `_parseKeywordArgs` and `parseArgs` guarantee. */
module BindingProperties {
  import opened Wrappers
  import opened PyValues
  import opened Tables
  import opened ArgConstraint
  import opened Declarations
  import opened Binding

  // ----- The pairing loop over a shrinking list -----

  /** The supplied-values list after `k` pairing steps: each step `i` deletes the
      value at index `i` of the list as it then is, which is the value originally at
      index `2i`. What is left is the values at odd positions below `2k`, then every
      value from position `2k` on. */
  function Shrunk(argv: seq<Value>, k: nat): (r: seq<Value>)
    requires 2 * k <= |argv| + 1
    ensures |r| == |argv| - k
  {
    var m := if 2 * k <= |argv| then k else k - 1;
    seq(m, j requires 0 <= j < m => argv[2 * j + 1]) + (if 2 * k <= |argv| then argv[2 * k..] else [])
  }

  /** How many positional declarations the loop pairs: step `i` runs only while
      `i` is below both the number of declarations and the shrunk list's length
      `|argv| - i`, that is while `2i < |argv|`. */
  function PairCount(p: nat, a: nat): (n: nat)
    ensures n <= p && 2 * n <= a + 1
    ensures forall j :: 0 <= j < n ==> 2 * j < a
    ensures n == p || a <= 2 * n
  {
    if p <= (a + 1) / 2 then p else (a + 1) / 2
  }

  /** Reference statement of what the loop binds: declaration `j` gets the value at
      original index `2j`, for `i <= j < n`. */
  function BindEvens(b: map<string, Value>, decls: Table<Constraint>, argv: seq<Value>, i: nat, n: nat): map<string, Value>
    requires n <= |decls| && forall j :: 0 <= j < n ==> 2 * j < |argv|
    decreases n - i
  {
    if i < n then BindEvens(b[decls[i].0 := argv[2 * i]], decls, argv, i + 1, n) else b
  }

  /** One pairing step, seen on the original values. */
  lemma ShrunkStep(argv: seq<Value>, k: nat)
    requires 2 * k < |argv|
    ensures Shrunk(argv, k)[k] == argv[2 * k]
    ensures Shrunk(argv, k)[..k] + Shrunk(argv, k)[k + 1..] == Shrunk(argv, k + 1)
  {
    var l := Shrunk(argv, k);
    var l' := l[..k] + l[k + 1..];
    assert |l'| == |Shrunk(argv, k + 1)|;
    forall j | 0 <= j < |l'| ensures l'[j] == Shrunk(argv, k + 1)[j] {
      if j < k {
        assert l'[j] == argv[2 * j + 1];
      } else if j == k {
        assert l'[j] == l[k + 1];
        if 2 * k + 1 < |argv| {
          assert l[k + 1] == argv[2 * k + 1];
        }
      } else {
        assert l'[j] == l[j + 1];
      }
    }
  }

  /** With at most one positional declaration, what is left after pairing is the
      supplied values after the first `k`, in order. */
  lemma ShrunkOneToOne(argv: seq<Value>, k: nat)
    requires k <= 1 && k <= |argv|
    ensures Shrunk(argv, k) == argv[k..]
  {
    if k == 1 {
      var l := Shrunk(argv, 1);
      forall j | 0 <= j < |l| ensures l[j] == argv[1..][j] {
        if j == 0 && |argv| >= 2 {
          assert l[0] == argv[1];
        }
      }
    }
  }

  /** The pairing loop from step `i`, described on the original values: it
      validates declaration `j` against the original value `2j` for `i <= j < n`,
      stops at the first failure, and otherwise has bound each of them, deleted
      them from `_args` and left `Shrunk(argv, n)`. */
  lemma PairingFrom(s: ParserState, argv: seq<Value>, decls: Table<Constraint>, i: nat, list: seq<Value>)
    requires UniqueKeys(decls) && i <= |decls| && s.args == decls[i..]
    requires 2 * i <= |argv| + 1 && list == Shrunk(argv, i)
    requires i <= PairCount(|decls|, |argv|)
    ensures var n := PairCount(|decls|, |argv|);
      var (s', rest, o) := Pairing(s, list, decls, i);
      (o.Pass? <==> forall j :: i <= j < n ==> Validate(decls[j].1, decls[j].0, argv[2 * j]).Pass?) &&
      (o.Fail? ==> exists j :: i <= j < n && o == Validate(decls[j].1, decls[j].0, argv[2 * j]) &&
                     forall m :: i <= m < j ==> Validate(decls[m].1, decls[m].0, argv[2 * m]).Pass?) &&
      (o.Pass? ==> s'.args == decls[n..] && rest == Shrunk(argv, n) && s'.bound == BindEvens(s.bound, decls, argv, i, n))
  {
    PairingOutcome(s, argv, decls, i, list);
    PairingPassState(s, argv, decls, i, list);
  }

  /** The outcome of the pairing loop from step `i`: the first rejected pair, if any. */
  lemma PairingOutcome(s: ParserState, argv: seq<Value>, decls: Table<Constraint>, i: nat, list: seq<Value>)
    requires UniqueKeys(decls) && i <= |decls| && s.args == decls[i..]
    requires 2 * i <= |argv| + 1 && list == Shrunk(argv, i)
    requires i <= PairCount(|decls|, |argv|)
    ensures var n := PairCount(|decls|, |argv|);
      var o := Pairing(s, list, decls, i).2;
      (o.Pass? <==> forall j :: i <= j < n ==> Validate(decls[j].1, decls[j].0, argv[2 * j]).Pass?) &&
      (o.Fail? ==> exists j :: i <= j < n && o == Validate(decls[j].1, decls[j].0, argv[2 * j]) &&
                     forall m :: i <= m < j ==> Validate(decls[m].1, decls[m].0, argv[2 * m]).Pass?)
  {
    PairingPasses(s, argv, decls, i, list);
    PairingFirstFailure(s, argv, decls, i, list);
  }

  /** The pairing loop from step `i` passes exactly when every pair it reaches is admitted. */
  lemma {:induction false} PairingPasses(s: ParserState, argv: seq<Value>, decls: Table<Constraint>, i: nat, list: seq<Value>)
    requires UniqueKeys(decls) && i <= |decls| && s.args == decls[i..]
    requires 2 * i <= |argv| + 1 && list == Shrunk(argv, i)
    requires i <= PairCount(|decls|, |argv|)
    ensures Pairing(s, list, decls, i).2.Pass? <==>
      forall j :: i <= j < PairCount(|decls|, |argv|) ==> Validate(decls[j].1, decls[j].0, argv[2 * j]).Pass?
    decreases |decls| - i
  {
    var n := PairCount(|decls|, |argv|);
    if i < n {
      ShrunkStep(argv, i);
      if Validate(decls[i].1, decls[i].0, argv[2 * i]).Pass? {
        PairingStep(s, argv, decls, i, list);
        PairingPasses(s.(bound := s.bound[decls[i].0 := argv[2 * i]], args := decls[i + 1..]),
                      argv, decls, i + 1, Shrunk(argv, i + 1));
      }
    }
  }

  /** A failure of the pairing loop from step `i` is the error of the first rejected pair. */
  lemma {:induction false} PairingFirstFailure(s: ParserState, argv: seq<Value>, decls: Table<Constraint>, i: nat, list: seq<Value>)
    requires UniqueKeys(decls) && i <= |decls| && s.args == decls[i..]
    requires 2 * i <= |argv| + 1 && list == Shrunk(argv, i)
    requires i <= PairCount(|decls|, |argv|)
    ensures var o := Pairing(s, list, decls, i).2;
      o.Fail? ==> exists j :: i <= j < PairCount(|decls|, |argv|) && o == Validate(decls[j].1, decls[j].0, argv[2 * j]) &&
                    forall m :: i <= m < j ==> Validate(decls[m].1, decls[m].0, argv[2 * m]).Pass?
    decreases |decls| - i
  {
    var n := PairCount(|decls|, |argv|);
    var o := Pairing(s, list, decls, i).2;
    if i < n {
      ShrunkStep(argv, i);
      var v := Validate(decls[i].1, decls[i].0, argv[2 * i]);
      if v.Pass? {
        PairingStep(s, argv, decls, i, list);
        PairingFirstFailure(s.(bound := s.bound[decls[i].0 := argv[2 * i]], args := decls[i + 1..]),
                            argv, decls, i + 1, Shrunk(argv, i + 1));
        FirstFailureStep(decls, argv, i, n, o);
      } else {
        PairingFailsAt(s, argv, decls, i, list);
      }
    } else {
      PairingStops(s, argv, decls, i, list);
    }
  }

  /** An admitted pair at `i` moves the first rejected pair from after `i` to from `i` on. */
  lemma FirstFailureStep(decls: Table<Constraint>, argv: seq<Value>, i: nat, n: nat, o: Outcome<Error>)
    requires i < n <= |decls| && 2 * (n - 1) < |argv|
    requires Validate(decls[i].1, decls[i].0, argv[2 * i]).Pass?
    requires o.Fail? ==> exists j :: i + 1 <= j < n && o == Validate(decls[j].1, decls[j].0, argv[2 * j]) &&
                           forall m :: i + 1 <= m < j ==> Validate(decls[m].1, decls[m].0, argv[2 * m]).Pass?
    ensures o.Fail? ==> exists j :: i <= j < n && o == Validate(decls[j].1, decls[j].0, argv[2 * j]) &&
                          forall m :: i <= m < j ==> Validate(decls[m].1, decls[m].0, argv[2 * m]).Pass?
  {
    if o.Fail? {
      var j :| i + 1 <= j < n && o == Validate(decls[j].1, decls[j].0, argv[2 * j]) &&
               forall m :: i + 1 <= m < j ==> Validate(decls[m].1, decls[m].0, argv[2 * m]).Pass?;
      assert forall m :: i <= m < j ==> Validate(decls[m].1, decls[m].0, argv[2 * m]).Pass?;
    }
  }

  /** A rejected pair ends the pairing loop with its validation error. */
  lemma PairingFailsAt(s: ParserState, argv: seq<Value>, decls: Table<Constraint>, i: nat, list: seq<Value>)
    requires i < |decls| && 2 * i < |argv| && list == Shrunk(argv, i)
    requires Validate(decls[i].1, decls[i].0, argv[2 * i]).Fail?
    ensures Pairing(s, list, decls, i).2 == Validate(decls[i].1, decls[i].0, argv[2 * i])
  {
    ShrunkStep(argv, i);
  }

  /** Past the pair count, the pairing loop has ended and passes. */
  lemma PairingStops(s: ParserState, argv: seq<Value>, decls: Table<Constraint>, i: nat, list: seq<Value>)
    requires 2 * i <= |argv| + 1 && list == Shrunk(argv, i)
    requires PairCount(|decls|, |argv|) <= i
    ensures Pairing(s, list, decls, i).2 == Pass
  {
    assert !(i < |list| && i < |decls|);
  }

  /** The state the pairing loop from step `i` leaves when no pair is rejected. */
  lemma {:induction false} PairingPassState(s: ParserState, argv: seq<Value>, decls: Table<Constraint>, i: nat, list: seq<Value>)
    requires UniqueKeys(decls) && i <= |decls| && s.args == decls[i..]
    requires 2 * i <= |argv| + 1 && list == Shrunk(argv, i)
    requires i <= PairCount(|decls|, |argv|)
    ensures var n := PairCount(|decls|, |argv|);
      var (s', rest, o) := Pairing(s, list, decls, i);
      o.Pass? ==> s'.args == decls[n..] && rest == Shrunk(argv, n) && s'.bound == BindEvens(s.bound, decls, argv, i, n)
    decreases |decls| - i
  {
    var n := PairCount(|decls|, |argv|);
    if i < n {
      ShrunkStep(argv, i);
      if Validate(decls[i].1, decls[i].0, argv[2 * i]).Pass? {
        PairingStep(s, argv, decls, i, list);
        PairingPassState(s.(bound := s.bound[decls[i].0 := argv[2 * i]], args := decls[i + 1..]),
                         argv, decls, i + 1, Shrunk(argv, i + 1));
        assert BindEvens(s.bound, decls, argv, i, n) == BindEvens(s.bound[decls[i].0 := argv[2 * i]], decls, argv, i + 1, n);
      }
    } else {
      assert !(i < |list| && i < |decls|);
    }
  }

  /** One step of the pairing loop that validates, seen on the original values:
      value `2i` is bound to declaration `i`, which is deleted from `_args`. */
  lemma PairingStep(s: ParserState, argv: seq<Value>, decls: Table<Constraint>, i: nat, list: seq<Value>)
    requires UniqueKeys(decls) && i < |decls| && s.args == decls[i..]
    requires 2 * i < |argv| && list == Shrunk(argv, i)
    requires Validate(decls[i].1, decls[i].0, argv[2 * i]).Pass?
    ensures Pairing(s, list, decls, i) ==
      Pairing(s.(bound := s.bound[decls[i].0 := argv[2 * i]], args := decls[i + 1..]), Shrunk(argv, i + 1), decls, i + 1)
  {
    ShrunkStep(argv, i);
    SuffixUnique(decls, i);
    RemoveFirst(decls[i..]);
    assert decls[i..][1..] == decls[i + 1..];
  }

  /** `BindEvens` pointwise: with unique names, declaration `j` is bound to the value
      at `2j`, and every other name keeps what it had. */
  lemma {:induction false} BindEvensAt(b: map<string, Value>, decls: Table<Constraint>, argv: seq<Value>, i: nat, n: nat)
    requires UniqueKeys(decls) && i <= n <= |decls| && forall j :: 0 <= j < n ==> 2 * j < |argv|
    ensures var r := BindEvens(b, decls, argv, i, n);
      (forall j :: i <= j < n ==> decls[j].0 in r && r[decls[j].0] == argv[2 * j]) &&
      (forall x :: (forall j :: i <= j < n ==> decls[j].0 != x) ==> (x in r <==> x in b) && (x in b ==> r[x] == b[x]))
    decreases n - i
  {
    if i < n {
      BindEvensAt(b[decls[i].0 := argv[2 * i]], decls, argv, i + 1, n);
      forall j | i < j < n ensures decls[j].0 != decls[i].0 {
        SuffixUnique(decls, i + 1);
        assert Keys(decls[i + 1..])[j - i - 1] == decls[j].0;
      }
    }
  }

  // ----- _parsePositionalArgs -----

  /** The pairing loop raises only what `validate` raises. */
  lemma {:induction false} PairingErrors(s: ParserState, list: seq<Value>, decls: Table<Constraint>, i: nat)
    ensures Pairing(s, list, decls, i).2.Fail? ==> IsValueError(Pairing(s, list, decls, i).2.error)
    decreases |decls| - i
  {
    if i < |list| && i < |decls| {
      var name := decls[i].0;
      PairingErrors(s.(bound := s.bound[name := list[i]], args := Remove(s.args, name)), list[..i] + list[i + 1..], decls, i + 1);
    }
  }

  /** Arity: more values than positionals is refused when there are no keyword
      declarations, and more than positionals plus keywords is refused always,
      before anything changes; no other case raises this error. */
  lemma ArityChecks(s: ParserState, argv: seq<Value>, kw: Kwargs)
    requires WellFormed(s)
    ensures var p, k, a := |s.args|, |s.kwargs|, |argv|;
      (a > p && k == 0 ==> ParsePositional(s, argv, kw) == (s, Err(TooManyPositional(p, p, a)))) &&
      (a > p + k && k > 0 ==> ParsePositional(s, argv, kw) == (s, Err(TooManyPositional(p, p + k, a)))) &&
      (ParsePositional(s, argv, kw).1.Err? && ParsePositional(s, argv, kw).1.error.TooManyPositional? <==>
         a > p && (k == 0 || a > p + k))
  {
    PairingErrors(s, argv, s.args, 0);
  }

  /** The defaulted positional: with no values supplied it is bound to its default,
      which is not validated again, and deleted from `_args`. Once `_args` has been
      emptied by an earlier parse, the stale flag makes the lookup raise IndexError. */
  lemma DefaultPositional(s: ParserState, kw: Kwargs)
    requires WellFormed(s) && s.hasDefaultPositionalArg
    ensures s.args != [] ==>
      s.args[0].1.default.Some? &&
      ParsePositional(s, [], kw) == (s.(bound := s.bound[s.args[0].0 := s.args[0].1.default.value], args := []), Ok(kw))
    ensures s.args == [] ==> ParsePositional(s, [], kw) == (s, Err(NoPositionalToDefault))
  {
    if s.args != [] {
      RemoveFirst(s.args);
      assert s.args[1..] == [];
    }
  }

  /** Within the arity limits, outside the defaulted case, `PairCount` declarations
      are reached and validated against the values at the even original indices. */
  predicate PairsAdmitted(decls: Table<Constraint>, argv: seq<Value>) {
    forall j :: 0 <= j < PairCount(|decls|, |argv|) ==> Validate(decls[j].1, decls[j].0, argv[2 * j]).Pass?
  }

  /** The usual positional case: within the arity limits and not the defaulted
      positional bound from nothing. */
  predicate PairingCase(s: ParserState, argv: seq<Value>) {
    !(|argv| > |s.args| && (|s.kwargs| == 0 || |argv| > |s.args| + |s.kwargs|)) &&
    !(s.hasDefaultPositionalArg && |argv| == 0)
  }

  /** A failed validation in the pairing loop propagates: the error is that of the
      first declaration `j` whose value at original index `2j` is rejected. */
  lemma PositionalValidationFails(s: ParserState, argv: seq<Value>, kw: Kwargs)
    requires WellFormed(s) && PairingCase(s, argv) && !PairsAdmitted(s.args, argv)
    ensures var decls := s.args;
      exists j :: 0 <= j < PairCount(|decls|, |argv|) && Validate(decls[j].1, decls[j].0, argv[2 * j]).Fail? &&
        ParsePositional(s, argv, kw).1 == Err(Validate(decls[j].1, decls[j].0, argv[2 * j]).error) &&
        forall m :: 0 <= m < j ==> Validate(decls[m].1, decls[m].0, argv[2 * m]).Pass?
  {
    var decls := s.args;
    assert decls[0..] == decls;
    PairingFrom(s, argv, decls, 0, argv);
    var (s1, rest, o) := Pairing(s, argv, decls, 0);
    assert o.Fail?;
    assert ParsePositional(s, argv, kw).1 == Err(o.error);
  }

  /** Declarations the loop does not reach raise missing-positional, naming them;
      with a single one, `popitem` has already emptied `_args`. */
  lemma PositionalMissing(s: ParserState, argv: seq<Value>, kw: Kwargs)
    requires WellFormed(s) && PairingCase(s, argv) && PairsAdmitted(s.args, argv)
    requires PairCount(|s.args|, |argv|) < |s.args|
    ensures var decls, n := s.args, PairCount(|s.args|, |argv|);
      var (s', r) := ParsePositional(s, argv, kw);
      (n + 1 == |decls| ==> r == Err(MissingPositional([decls[n].0])) && s'.args == []) &&
      (n + 1 < |decls| ==> r == Err(MissingPositional(Keys(decls[n..]))))
  {
    var decls, n := s.args, PairCount(|s.args|, |argv|);
    assert decls[0..] == decls;
    PairingPasses(s, argv, decls, 0, argv);
    PairingPassState(s, argv, decls, 0, argv);
    PositionalPairs(s, argv, kw);
    var (s1, rest, o) := Pairing(s, argv, decls, 0);
    assert o.Pass? && s1.args == decls[n..];
    if n + 1 == |decls| {
      assert decls[n..] == [decls[n]];
    }
  }

  /** When every positional is reached and admitted, each is bound to its value at
      the even original index, `_args` is emptied, the flag and the keyword
      declarations are untouched, and the leftover values overflow into the keyword dict. */
  lemma PositionalBound(s: ParserState, argv: seq<Value>, kw: Kwargs)
    requires WellFormed(s) && PairingCase(s, argv) && PairsAdmitted(s.args, argv)
    requires PairCount(|s.args|, |argv|) == |s.args|
    ensures var decls, n := s.args, |s.args|;
      var (s', r) := ParsePositional(s, argv, kw);
      r.Ok? && s'.hasDefaultPositionalArg == s.hasDefaultPositionalArg &&
      s'.args == [] && s'.kwargs == s.kwargs &&
      s'.bound == BindEvens(s.bound, decls, argv, 0, n) &&
      (|argv| > |decls| ==> r.value == Overflow(kw, Keys(s.kwargs), Shrunk(argv, n), 0)) &&
      (|argv| <= |decls| ==> r.value == kw)
  {
    var n := |s.args|;
    assert s.args[0..] == s.args;
    PairingPasses(s, argv, s.args, 0, argv);
    PairingPassState(s, argv, s.args, 0, argv);
    PairingCounts(s, argv, s.args, 0);
    PositionalPairs(s, argv, kw);
    var (s1, rest, o) := Pairing(s, argv, s.args, 0);
    assert o.Pass? && s1.args == [] && rest == Shrunk(argv, n);
    AfterPairingPass(s1, rest, kw, |argv| > n);
  }

  /** Outside the arity errors and the defaulted case, the positional phase is the
      pairing loop followed by its end. */
  lemma PositionalPairs(s: ParserState, argv: seq<Value>, kw: Kwargs)
    requires WellFormed(s) && PairingCase(s, argv)
    ensures var (s1, rest, o) := Pairing(s, argv, s.args, 0);
      (o.Pass? && |argv| > |s.args| && |s1.args| == 0 ==> |rest| <= |s1.kwargs|) &&
      ParsePositional(s, argv, kw) == AfterPairing(s1, rest, o, |argv| > |s.args|, kw)
  {
    PairingCounts(s, argv, s.args, 0);
  }

  /** The end of the positional phase once every declaration is paired: the keyword
      dict handed on, with the leftover values overflowed when there are more values. */
  lemma AfterPairingPass(s1: ParserState, rest: seq<Value>, kw: Kwargs, overflow: bool)
    requires s1.args == [] && (overflow ==> |rest| <= |s1.kwargs|)
    ensures overflow ==> AfterPairing(s1, rest, Pass, overflow, kw) == (s1, Ok(Overflow(kw, Keys(s1.kwargs), rest, 0)))
    ensures !overflow ==> AfterPairing(s1, rest, Pass, overflow, kw) == (s1, Ok(kw))
  {
  }

  /** With one positional declaration and at least one value it admits, the phase
      binds that declaration to the first value and overflows the others, at most
      one per keyword declaration, into the keyword dict. */
  lemma SinglePositionalBound(s: ParserState, argv: seq<Value>, kw: Kwargs)
    requires WellFormed(s) && |s.args| == 1 && 1 <= |argv| <= 1 + |s.kwargs|
    requires Validate(s.args[0].1, s.args[0].0, argv[0]).Pass?
    ensures ParsePositional(s, argv, kw) ==
      (s.(bound := s.bound[s.args[0].0 := argv[0]], args := []), Ok(Overflow(kw, Keys(s.kwargs), argv[1..], 0)))
  {
    assert PairCount(1, |argv|) == 1;
    PositionalBound(s, argv, kw);
    ShrunkOneToOne(argv, 1);
    assert BindEvens(s.bound, s.args, argv, 0, 1) == s.bound[s.args[0].0 := argv[0]];
    if |argv| == 1 {
      assert argv[1..] == [];
    }
  }

  /** A successful positional phase outside the defaulted case has reached every
      positional declaration: with `p` declarations, `2(p-1) < |argv|`. */
  lemma PositionalOkReachesAll(s: ParserState, argv: seq<Value>, kw: Kwargs)
    requires WellFormed(s) && PairingCase(s, argv) && ParsePositional(s, argv, kw).1.Ok?
    ensures PairsAdmitted(s.args, argv) && PairCount(|s.args|, |argv|) == |s.args|
    ensures |s.args| > 0 ==> 2 * (|s.args| - 1) < |argv|
  {
    if !PairsAdmitted(s.args, argv) {
      PositionalValidationFails(s, argv, kw);
    } else if PairCount(|s.args|, |argv|) < |s.args| {
      PositionalMissing(s, argv, kw);
    }
  }

  /** With unique names, the overflow loop gives keyword name `i` the leftover value
      `i`, whether or not that name was supplied explicitly, and leaves every other
      supplied keyword as it was. */
  lemma {:induction false} OverflowAt(kw: Kwargs, names: seq<string>, rest: seq<Value>, i: nat)
    requires |rest| <= |names|
    requires forall a, b :: 0 <= a < b < |names| ==> names[a] != names[b]
    ensures var r := Overflow(kw, names, rest, i);
      (forall j :: i <= j < |rest| ==> names[j] in r && r[names[j]] == rest[j]) &&
      (forall x :: (forall j :: i <= j < |rest| ==> names[j] != x) ==> (x in r <==> x in kw) && (x in kw ==> r[x] == kw[x]))
    decreases |rest| - i
  {
    if i < |rest| {
      OverflowAt(kw[names[i] := rest[i]], names, rest, i + 1);
    }
  }

  /** Overflow order: when more values than positionals are supplied and the
      positional phase succeeds, the keyword dict handed on gives the `i`-th keyword
      declaration the `i`-th leftover value, overwriting an explicitly supplied
      value of that name, and leaves the other supplied keywords alone; with at
      most one positional the leftovers are simply the values after it. */
  lemma OverflowIntoKeywords(s: ParserState, argv: seq<Value>, kw: Kwargs)
    requires WellFormed(s) && |argv| > |s.args|
    requires ParsePositional(s, argv, kw).1.Ok?
    ensures var names, p := Keys(s.kwargs), |s.args|;
      2 * p <= |argv| + 1 && |argv| - p <= |names| &&
      var rest := Shrunk(argv, p);
      var kw' := ParsePositional(s, argv, kw).1.value;
      (forall i :: 0 <= i < |rest| ==> names[i] in kw' && kw'[names[i]] == rest[i]) &&
      (forall x :: x !in names[..|rest|] ==> (x in kw' <==> x in kw) && (x in kw ==> kw'[x] == kw[x])) &&
      (p <= 1 ==> rest == argv[p..])
  {
    var names, p := Keys(s.kwargs), |s.args|;
    ArityChecks(s, argv, kw);
    PositionalOkReachesAll(s, argv, kw);
    PositionalBound(s, argv, kw);
    var rest := Shrunk(argv, p);
    KeysDistinct(s.kwargs);
    OverflowAt(kw, names, rest, 0);
    forall x | x !in names[..|rest|] ensures forall j :: 0 <= j < |rest| ==> names[j] != x {
      forall j | 0 <= j < |rest| ensures names[j] != x {
        assert names[..|rest|][j] == names[j];
      }
    }
    if p <= 1 {
      ShrunkOneToOne(argv, p);
    }
  }

  /** Quirk of the pairing loop: two positionals and exactly two values raise
      missing-positional for the second, because the second step looks at index 1
      of a list already shrunk to one value. */
  lemma TwoPositionalsTwoValues(s: ParserState, argv: seq<Value>, kw: Kwargs)
    requires WellFormed(s) && |s.args| == 2 && |argv| == 2
    requires Validate(s.args[0].1, s.args[0].0, argv[0]).Pass?
    ensures ParsePositional(s, argv, kw).1 == Err(MissingPositional([s.args[1].0]))
  {
    PositionalMissing(s, argv, kw);
  }

  /** Quirk of overflow: a value that overflows into a keyword name replaces a value
      supplied explicitly under that name. */
  lemma OverflowOverwritesExplicit(s: ParserState, v: Value, kw: Kwargs)
    requires WellFormed(s) && s.args == [] && s.kwargs != []
    ensures ParsePositional(s, [v], kw).1 == Ok(kw[s.kwargs[0].0 := v])
  {
    PositionalBound(s, [v], kw);
    assert Shrunk([v], 0) == [v];
  }

  // ----- _parseKeywordArgs -----

  /** Reference statement of how one keyword declaration is resolved against the
      supplied keywords: a supplied value must pass `validate`; otherwise the
      default (not validated again); otherwise None when optional; otherwise
      missing-keyword. */
  function Resolve(c: Constraint, name: string, kw: Kwargs): (r: Result<Value, Error>)
    ensures name in kw ==> (r.Ok? <==> Validate(c, name, kw[name]).Pass?) && (r.Ok? ==> r.value == kw[name])
    ensures name !in kw && c.default.Some? ==> r == Ok(c.default.value)
    ensures name !in kw && c.default.None? && c.optional ==> r == Ok(NoneObj)
    ensures name !in kw && c.default.None? && !c.optional ==> r == Err(MissingKeyword(name))
  {
    if name in kw then
      (match Validate(c, name, kw[name])
       case Fail(e) => Err(e)
       case Pass => Ok(kw[name]))
    else if c.default.Some? then Ok(c.default.value)
    else if c.optional then Ok(NoneObj)
    else Err(MissingKeyword(name))
  }

  /** The names of the first `i` declarations. */
  function PrefixNames(decls: Table<Constraint>, i: nat): set<string>
    requires i <= |decls|
  {
    set j | 0 <= j < i :: decls[j].0
  }

  /** Reference statement of what the keyword loop binds, from declaration `i` on. */
  function BindResolved(b: map<string, Value>, decls: Table<Constraint>, kw: Kwargs, i: nat): map<string, Value>
    decreases |decls| - i
  {
    if i < |decls| && Resolve(decls[i].1, decls[i].0, kw).Ok? then
      BindResolved(b[decls[i].0 := Resolve(decls[i].1, decls[i].0, kw).value], decls, kw, i + 1)
    else b
  }

  /** One step of the keyword loop, described against the keywords `kw0` as
      supplied: since the names are unique, deleting the handled names from `kw`
      never hides a later declaration's value. */
  lemma ResolvingStep(s: ParserState, kw0: Kwargs, decls: Table<Constraint>, i: nat, kw: Kwargs)
    requires UniqueKeys(decls) && i < |decls| && s.kwargs == decls[i..]
    requires kw == kw0 - PrefixNames(decls, i)
    ensures var r := Resolve(decls[i].1, decls[i].0, kw0);
      (r.Err? ==> Resolving(s, kw, decls, i) == (s, kw, Fail(r.error))) &&
      (r.Ok? ==>
         Resolving(s, kw, decls, i) ==
         Resolving(s.(bound := s.bound[decls[i].0 := r.value], kwargs := decls[i + 1..]),
                   kw0 - PrefixNames(decls, i + 1), decls, i + 1))
  {
    var (name, c) := decls[i];
    assert name !in PrefixNames(decls, i) by {
      SuffixUnique(decls, i);
      assert Keys(decls[i..])[0] == name;
    }
    assert PrefixNames(decls, i + 1) == PrefixNames(decls, i) + {name};
    SuffixUnique(decls, i);
    RemoveFirst(decls[i..]);
    assert decls[i..][1..] == decls[i + 1..];
    if name in kw {
      assert kw - {name} == kw0 - PrefixNames(decls, i + 1);
    } else {
      assert kw == kw0 - PrefixNames(decls, i + 1);
    }
  }

  /** The keyword loop leaves `_args` and the flag alone and leaves a suffix of the
      keyword declarations. */
  lemma {:induction false} ResolvingShape(s: ParserState, kw0: Kwargs, decls: Table<Constraint>, i: nat, kw: Kwargs)
    requires UniqueKeys(decls) && i <= |decls| && s.kwargs == decls[i..]
    requires kw == kw0 - PrefixNames(decls, i)
    ensures var s' := Resolving(s, kw, decls, i).0;
      s'.args == s.args && s'.hasDefaultPositionalArg == s.hasDefaultPositionalArg &&
      exists m :: i <= m <= |decls| && s'.kwargs == decls[m..]
    decreases |decls| - i
  {
    if i < |decls| {
      ResolvingStep(s, kw0, decls, i, kw);
      var r := Resolve(decls[i].1, decls[i].0, kw0);
      if r.Ok? {
        ResolvingShape(s.(bound := s.bound[decls[i].0 := r.value], kwargs := decls[i + 1..]),
                       kw0, decls, i + 1, kw0 - PrefixNames(decls, i + 1));
      }
    }
  }

  /** The keyword loop from step `i` against the keywords as supplied: it passes
      exactly when every remaining declaration resolves, reports the first that
      does not, and on success has emptied `_kwargs`, bound every declaration and
      left the supplied names no declaration consumed. */
  lemma {:induction false} ResolvingFrom(s: ParserState, kw0: Kwargs, decls: Table<Constraint>, i: nat, kw: Kwargs)
    requires UniqueKeys(decls) && i <= |decls| && s.kwargs == decls[i..]
    requires kw == kw0 - PrefixNames(decls, i)
    ensures var (s', rest, o) := Resolving(s, kw, decls, i);
      (o.Pass? <==> forall j :: i <= j < |decls| ==> Resolve(decls[j].1, decls[j].0, kw0).Ok?) &&
      (o.Fail? ==> exists j :: i <= j < |decls| && Resolve(decls[j].1, decls[j].0, kw0).Err? &&
                     o == Fail(Resolve(decls[j].1, decls[j].0, kw0).error) &&
                     forall m :: i <= m < j ==> Resolve(decls[m].1, decls[m].0, kw0).Ok?) &&
      (o.Pass? ==> s'.kwargs == [] && rest == kw0 - PrefixNames(decls, |decls|) &&
                   s'.bound == BindResolved(s.bound, decls, kw0, i))
    decreases |decls| - i
  {
    if i < |decls| {
      ResolvingStep(s, kw0, decls, i, kw);
      var r := Resolve(decls[i].1, decls[i].0, kw0);
      if r.Ok? {
        ResolvingFrom(s.(bound := s.bound[decls[i].0 := r.value], kwargs := decls[i + 1..]),
                      kw0, decls, i + 1, kw0 - PrefixNames(decls, i + 1));
      }
    } else {
      assert decls[i..] == [];
    }
  }

  /** `BindResolved` pointwise: each declaration is bound to its resolved value,
      and any other name keeps what it had. */
  lemma {:induction false} BindResolvedAt(b: map<string, Value>, decls: Table<Constraint>, kw: Kwargs, i: nat)
    requires UniqueKeys(decls) && i <= |decls|
    requires forall j :: i <= j < |decls| ==> Resolve(decls[j].1, decls[j].0, kw).Ok?
    ensures var r := BindResolved(b, decls, kw, i);
      (forall j :: i <= j < |decls| ==> decls[j].0 in r && r[decls[j].0] == Resolve(decls[j].1, decls[j].0, kw).value) &&
      (forall x :: (forall j :: i <= j < |decls| ==> decls[j].0 != x) ==> (x in r <==> x in b) && (x in b ==> r[x] == b[x]))
    decreases |decls| - i
  {
    if i < |decls| {
      var name, v := decls[i].0, Resolve(decls[i].1, decls[i].0, kw).value;
      var b' := b[name := v];
      BindResolvedAt(b', decls, kw, i + 1);
      LaterKeysDiffer(decls, i);
      var r := BindResolved(b, decls, kw, i);
      assert r == BindResolved(b', decls, kw, i + 1);
      assert name in r && r[name] == v;
    }
  }

  /** All keyword declarations resolve against the supplied keywords. */
  predicate AllResolve(decls: Table<Constraint>, kw: Kwargs) {
    forall j :: 0 <= j < |decls| ==> Resolve(decls[j].1, decls[j].0, kw).Ok?
  }

  /** The keyword phase leaves `_args` and the flag alone and keeps the keyword
      declarations a suffix of what they were. */
  lemma KeywordShape(s: ParserState, kw: Kwargs)
    requires UniqueKeys(s.kwargs)
    ensures var s' := ParseKeyword(s, kw).0;
      s'.args == s.args && s'.hasDefaultPositionalArg == s.hasDefaultPositionalArg &&
      exists m :: 0 <= m <= |s.kwargs| && s'.kwargs == s.kwargs[m..]
  {
    assert s.kwargs[0..] == s.kwargs;
    assert kw == kw - PrefixNames(s.kwargs, 0);
    ResolvingShape(s, kw, s.kwargs, 0, kw);
  }

  /** Keyword resolution, failure: declarations are handled in insertion order and
      the first that cannot be resolved raises its error. */
  lemma KeywordFailure(s: ParserState, kw: Kwargs)
    requires UniqueKeys(s.kwargs) && !AllResolve(s.kwargs, kw)
    ensures var decls := s.kwargs;
      exists j :: 0 <= j < |decls| && Resolve(decls[j].1, decls[j].0, kw).Err? &&
        ParseKeyword(s, kw).1 == Fail(Resolve(decls[j].1, decls[j].0, kw).error) &&
        forall m :: 0 <= m < j ==> Resolve(decls[m].1, decls[m].0, kw).Ok?
  {
    var decls := s.kwargs;
    assert decls[0..] == decls;
    assert kw == kw - PrefixNames(decls, 0);
    ResolvingFrom(s, kw, decls, 0, kw);
    var (s1, rest, o) := Resolving(s, kw, decls, 0);
    assert o.Fail?;
    assert ParseKeyword(s, kw).1 == o;
  }

  /** The error the keyword phase raises is that of the first declaration that
      cannot be resolved. */
  lemma KeywordFirstFailure(s: ParserState, kw: Kwargs, j: nat)
    requires UniqueKeys(s.kwargs) && j < |s.kwargs|
    requires forall m :: 0 <= m < j ==> Resolve(s.kwargs[m].1, s.kwargs[m].0, kw).Ok?
    requires Resolve(s.kwargs[j].1, s.kwargs[j].0, kw).Err?
    ensures ParseKeyword(s, kw).1 == Fail(Resolve(s.kwargs[j].1, s.kwargs[j].0, kw).error)
  {
    KeywordFailure(s, kw);
  }

  /** Every declared name is among the names of all declarations. */
  lemma PrefixNamesAll(decls: Table<Constraint>)
    ensures PrefixNames(decls, |decls|) == KeySet(decls)
  {
    forall x | x in KeySet(decls) ensures x in PrefixNames(decls, |decls|) {
      var j :| 0 <= j < |decls| && Keys(decls)[j] == x;
      assert decls[j].0 == x;
    }
  }

  /** Keyword resolution, when every declaration resolves: supplied names that no
      declaration consumed raise unexpected-keyword, naming all of them, and
      `_kwargs` ends empty. */
  lemma KeywordSuccess(s: ParserState, kw: Kwargs)
    requires UniqueKeys(s.kwargs) && AllResolve(s.kwargs, kw)
    ensures var (s', o) := ParseKeyword(s, kw);
      var extra := kw.Keys - KeySet(s.kwargs);
      (extra != {} ==> o == Fail(UnexpectedKeyword(extra))) &&
      (extra == {} ==> o == Pass) &&
      s'.kwargs == [] &&
      s'.bound == BindResolved(s.bound, s.kwargs, kw, 0)
  {
    ResolvingAll(s, kw);
    var (s1, rest, o) := Resolving(s, kw, s.kwargs, 0);
    EmptyKeys(rest);
    assert ParseKeyword(s, kw).0 == s1;
    assert ParseKeyword(s, kw).1 == if |rest| > 0 then Fail(UnexpectedKeyword(rest.Keys)) else Pass;
  }

  /** The keyword loop, when every declaration resolves: it passes, empties
      `_kwargs`, and leaves the supplied names no declaration consumed. */
  lemma ResolvingAll(s: ParserState, kw: Kwargs)
    requires UniqueKeys(s.kwargs) && AllResolve(s.kwargs, kw)
    ensures var (s1, rest, o) := Resolving(s, kw, s.kwargs, 0);
      o.Pass? && s1.kwargs == [] && rest.Keys == kw.Keys - KeySet(s.kwargs) &&
      s1.bound == BindResolved(s.bound, s.kwargs, kw, 0)
  {
    var decls := s.kwargs;
    assert decls[0..] == decls;
    assert kw == kw - PrefixNames(decls, 0);
    ResolvingFrom(s, kw, decls, 0, kw);
    PrefixNamesAll(decls);
  }

  /** A dict is empty exactly when it has no keys. */
  lemma EmptyKeys(m: Kwargs)
    ensures m.Keys == {} <==> |m| == 0
  {
    if m.Keys != {} {
      var x :| x in m.Keys;
      assert |m| > 0;
    }
  }

  /** A binding made before the keyword phase under a name no keyword declares
      survives it. */
  lemma KeywordKeeps(s: ParserState, kw: Kwargs, x: string)
    requires UniqueKeys(s.kwargs) && AllResolve(s.kwargs, kw)
    requires x in s.bound && x !in KeySet(s.kwargs)
    ensures var s' := ParseKeyword(s, kw).0;
      x in s'.bound && s'.bound[x] == s.bound[x]
  {
    KeywordBinds(s, kw);
  }

  /** Keyword resolution, when every declaration resolves: every declared keyword
      is bound to its resolved value and every other attribute is kept. */
  lemma KeywordBinds(s: ParserState, kw: Kwargs)
    requires UniqueKeys(s.kwargs) && AllResolve(s.kwargs, kw)
    ensures var s' := ParseKeyword(s, kw).0;
      var decls := s.kwargs;
      (forall j :: 0 <= j < |decls| ==> decls[j].0 in s'.bound && s'.bound[decls[j].0] == Resolve(decls[j].1, decls[j].0, kw).value) &&
      (forall x :: x in s.bound && x !in KeySet(decls) ==> x in s'.bound && s'.bound[x] == s.bound[x])
  {
    var decls := s.kwargs;
    KeywordSuccess(s, kw);
    BindResolvedAt(s.bound, decls, kw, 0);
    forall x | x in s.bound && x !in KeySet(decls) ensures forall j :: 0 <= j < |decls| ==> decls[j].0 != x {
      forall j | 0 <= j < |decls| ensures decls[j].0 != x {
        assert Keys(decls)[j] == decls[j].0;
      }
    }
  }

  // ----- parseArgs -----

  /** A suffix of a table whose elements all satisfy the flag invariant keeps it. */
  lemma SuffixWellFormed(s: ParserState, m: nat)
    requires WellFormed(s) && m <= |s.args|
    ensures WellFormed(s.(args := s.args[m..]))
  {
    SuffixUnique(s.args, m);
    forall j | 0 <= j < |s.args[m..]| ensures s.args[m..][j] == s.args[m + j] { }
  }

  /** The pairing loop keeps the parser well formed and `_kwargs` untouched. */
  lemma PairingPreservesWellFormed(s: ParserState, argv: seq<Value>)
    requires WellFormed(s)
    ensures var s1 := Pairing(s, argv, s.args, 0).0;
      WellFormed(s1) && s1.kwargs == s.kwargs
  {
    assert s.args[0..] == s.args;
    PairingCounts(s, argv, s.args, 0);
    var s1 := Pairing(s, argv, s.args, 0).0;
    var m :| 0 <= m <= |s.args| && s1.args == s.args[m..];
    SuffixWellFormed(s.(bound := s1.bound), m);
    assert s1 == s.(bound := s1.bound).(args := s.args[m..]);
  }

  /** The positional phase keeps the parser well formed, whether it passes or fails:
      `_args` only loses declarations and `_kwargs` is untouched. */
  lemma PositionalPreservesWellFormed(s: ParserState, argv: seq<Value>, kw: Kwargs)
    requires WellFormed(s)
    ensures WellFormed(ParsePositional(s, argv, kw).0)
    ensures ParsePositional(s, argv, kw).0.kwargs == s.kwargs
  {
    var p, k, a := |s.args|, |s.kwargs|, |argv|;
    if a > p && (k == 0 || k + p < a) {
    } else if s.hasDefaultPositionalArg && a == 0 {
      if s.args != [] {
        RemoveFirst(s.args);
        assert Remove(s.args, s.args[0].0) == s.args[1..] == [];
      }
    } else {
      PairingPreservesWellFormed(s, argv);
      var s1 := Pairing(s, argv, s.args, 0).0;
      assert WellFormed(s1.(args := []));
      assert ParsePositional(s, argv, kw).0 in {s1, s1.(args := [])};
    }
  }

  /** The keyword phase keeps the parser well formed, whether it passes or fails:
      only `_kwargs` loses declarations. */
  lemma KeywordPreservesWellFormed(s: ParserState, kw: Kwargs)
    requires WellFormed(s)
    ensures WellFormed(ParseKeyword(s, kw).0)
  {
    KeywordShape(s, kw);
    var s' := ParseKeyword(s, kw).0;
    var m :| 0 <= m <= |s.kwargs| && s'.kwargs == s.kwargs[m..];
    SuffixUnique(s.kwargs, m);
  }

  /** `parseArgs` keeps the parser well formed, whether it passes or fails. */
  lemma ParsePreservesWellFormed(s: ParserState, argv: seq<Value>, kw: Kwargs)
    requires WellFormed(s)
    ensures WellFormed(Parse(s, argv, kw).0)
  {
    PositionalPreservesWellFormed(s, argv, kw);
    var (s1, r) := ParsePositional(s, argv, kw);
    if r.Ok? {
      KeywordPreservesWellFormed(s1, r.value);
    }
  }

  /** A successful positional phase has bound every positional declaration, deleted
      them all from `_args`, kept every attribute already set and left `_kwargs`
      alone. */
  lemma PositionalConsumes(s: ParserState, argv: seq<Value>, kw: Kwargs)
    requires WellFormed(s) && ParsePositional(s, argv, kw).1.Ok?
    ensures var s' := ParsePositional(s, argv, kw).0;
      s'.args == [] && s'.kwargs == s.kwargs &&
      (forall x :: x in KeySet(s.args) ==> x in s'.bound) &&
      (forall x :: x in s.bound ==> x in s'.bound)
  {
    ArityChecks(s, argv, kw);
    if s.hasDefaultPositionalArg && |argv| == 0 {
      DefaultPositional(s, kw);
      if s.args != [] {
        forall x | x in KeySet(s.args) ensures x == s.args[0].0 {
          var j :| 0 <= j < |s.args| && Keys(s.args)[j] == x;
        }
      }
    } else {
      assert PairingCase(s, argv);
      PositionalOkReachesAll(s, argv, kw);
      PositionalBound(s, argv, kw);
      BindEvensAt(s.bound, s.args, argv, 0, |s.args|);
      forall x | x in KeySet(s.args) ensures exists j :: 0 <= j < |s.args| && s.args[j].0 == x {
        var j :| 0 <= j < |s.args| && Keys(s.args)[j] == x;
        assert s.args[j].0 == x;
      }
    }
  }

  /** A successful keyword phase has resolved every keyword declaration, bound it
      to its resolution, deleted them all from `_kwargs`, kept every attribute
      already set and left `_args` alone. */
  lemma KeywordConsumes(s: ParserState, kw: Kwargs)
    requires UniqueKeys(s.kwargs) && ParseKeyword(s, kw).1.Pass?
    ensures var s' := ParseKeyword(s, kw).0;
      s'.args == s.args && s'.kwargs == [] &&
      (forall x :: x in s.bound ==> x in s'.bound) &&
      (forall x :: x in KeySet(s.kwargs) ==> x in s'.bound) &&
      forall j :: 0 <= j < |s.kwargs| ==>
        Resolve(s.kwargs[j].1, s.kwargs[j].0, kw).Ok? &&
        s'.bound[s.kwargs[j].0] == Resolve(s.kwargs[j].1, s.kwargs[j].0, kw).value
  {
    if !AllResolve(s.kwargs, kw) {
      KeywordFailure(s, kw);
      assert false;
    }
    KeywordShape(s, kw);
    KeywordSuccess(s, kw);
    KeywordBinds(s, kw);
    BindResolvedAt(s.bound, s.kwargs, kw, 0);
    var s' := ParseKeyword(s, kw).0;
    forall x | x in KeySet(s.kwargs) ensures x in s'.bound {
      var j :| 0 <= j < |s.kwargs| && Keys(s.kwargs)[j] == x;
      assert s.kwargs[j].0 == x;
    }
  }

  /** A successful `parseArgs` consumes every declaration: both tables are empty
      afterwards, every declared name, positional or keyword, is bound, and each
      keyword is bound to its resolution against the keyword dict the positional
      phase handed on. */
  lemma ParseConsumes(s: ParserState, argv: seq<Value>, kw: Kwargs)
    requires WellFormed(s) && Parse(s, argv, kw).1.Pass?
    ensures var s' := Parse(s, argv, kw).0;
      ParsePositional(s, argv, kw).1.Ok? &&
      var kw' := ParsePositional(s, argv, kw).1.value;
      s'.args == [] && s'.kwargs == [] &&
      (forall x :: x in KeySet(s.args) + KeySet(s.kwargs) ==> x in s'.bound) &&
      forall j :: 0 <= j < |s.kwargs| ==>
        Resolve(s.kwargs[j].1, s.kwargs[j].0, kw').Ok? &&
        s'.bound[s.kwargs[j].0] == Resolve(s.kwargs[j].1, s.kwargs[j].0, kw').value
  {
    var (s1, r) := ParsePositional(s, argv, kw);
    assert r.Ok?;
    PositionalConsumes(s, argv, kw);
    KeywordConsumes(s1, r.value);
  }
}
