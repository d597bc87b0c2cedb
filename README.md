# ArgParser, modelled in Dafny

`ArgParser` is a runtime argument-validation helper for Python. A caller declares
positional and keyword parameters, each with a constraint: a type (`dtype`), a
required class (`subClass`), a numeric range (`min`, `max`), a length range
(`minLength`, `maxLength`), allowed values (`possibleValues`), a `default` and the
`optional` flag. Then `parseArgs(*args, **kwargs)` checks the call's values against
those constraints and sets each parameter as an attribute of the parser.

This project models `ArgParser/ArgParser.py`:

- the `ArgConstraint` rule record and its `validate`;
- `_parseConstraint` with its `localValidate` closure;
- `addKeywordArg` and `addPositionalArg`;
- `_parsePositionalArgs`, `_parseKeywordArgs` and `parseArgs`.

It proves properties of that model.

## Modules

- `wrappers.dfy`: `Option`, `Result` and `Outcome`.
- `py_values.dfy` (`PyValues`): the Python values the parser can see.
  - The values are None, bool, int, float (as real numbers), str, tuple, list, class objects and instances of user classes.
  - A class has a name and the set of the names of all its ancestors. `isinstance` and `issubclass` are both that ancestry relation, and `bool` is a subclass of `int`.
  - Python `==` between numbers compares numerically. Instances compare by identity.
- `tables.dfy` (`Tables`): Python's insertion-ordered dicts as association lists.
  - `Put` (`d[k] = v`) replaces a value in place or appends a new entry.
  - `Remove` is `del d[k]`.
- `arg_constraint.dfy` (`ArgConstraint`):
  - the `Constraint` datatype, in which a rule that was not given is `None` (the source's `has…` flags);
  - `Validate` and `LocalValidate`;
  - the error kinds and the Python exception class of each;
  - an independent, check-by-check statement of the rules (`Checks`, `FirstFail`) with the lemmas that tie the two together.
- `declarations.dfy`:
  - module `Declarations`: `_parseConstraint` (`ConstraintFrom`), `addKeywordArg` and `addPositionalArg`, as functions of the parser state;
  - module `DeclarationProperties`: what they guarantee.
- `binding.dfy` (`Binding`): `_parsePositionalArgs`, `_parseKeywordArgs` and `parseArgs` as functions of the parser state.
  - Their loops are written out as the source runs them, including the state an exception leaves behind.
- `binding_properties.dfy` (`BindingProperties`): independent statements of what the binding loops compute, the lemmas tying the loops to them, and the consequences.
- `arg_parser.dfy` (`ArgParser`): the `ArgParser` object as a class.
  - Its fields are `_hasDefaultPositionalArg`, `_args`, `_kwargs` and a map of the attributes set by `setattr`.
  - Its methods update those fields in place with the source's loops.
  - Each method is proved to end in the state the corresponding function describes.
  - Each public method (`addKeywordArg`, `addPositionalArg`, `_parsePositionalArgs`, `_parseKeywordArgs`, `parseArgs`) is also proved to keep the parser well formed.
- `scenarios.dfy` (`Scenarios`): the parser of `tests/test.py` and what each of its test calls produces.

Three behaviours of the code are modelled as written:

- **The pairing loop.** At `ArgParser/ArgParser.py:371-375` the loop deletes from the list of values while `zip` walks it. So positional declaration `j` receives the value at original index `2j`, and only while `2j` is below the number of values (`PairingFrom`, `TwoPositionalsTwoValues`).
- **The default and `possibleValues`.** The default is never checked against `possibleValues` (`DefaultOutsidePossibleValuesAccepted`).
- **Overflow.** Overflow replaces a keyword value supplied explicitly under the same name (`OverflowOverwritesExplicit`).

Where the documented behaviour and the code differ, the model follows the code:

- a `dtype` given as an empty tuple is accepted;
- the default is not checked for membership in `possibleValues`;
- an overflow value silently replaces an explicit keyword of the same name;
- the declarations are deleted as they are resolved, so a second `parseArgs` sees fewer (or none);
- an exception leaves behind the attributes already set and the declarations already deleted.

## Model

| member | source | states |
|---|---|---|
| PyValues.Num | ArgParser/ArgParser.py:88-92 | a value can be compared with a number exactly when it is a bool, int or float, and then it has a numeric value |
| PyValues.Len | ArgParser/ArgParser.py:94-98 | `len` is defined for str, tuple and list, and gives the number of characters or elements |
| PyValues.PyEqReflexive | ArgParser/ArgParser.py:100 | Python `==` as used by `in` is reflexive on every value, including nested tuples and lists |
| PyValues.MemberIsIn | ArgParser/ArgParser.py:100 | every element of a list is `in` that list |
| Tables.Find | ArgParser/ArgParser.py:212-260 | a lookup in an ordered dict finds a value exactly when the key is present; which value is stated by `Tables.FindFirst` |
| Tables.FindFirst | ArgParser/ArgParser.py:212-260 | the value a lookup finds is the one stored in the first entry under that key |
| Tables.Put | ArgParser/ArgParser.py:289 | assigning a present key keeps the key order; assigning a new key appends it at the end |
| Tables.Remove | ArgParser/ArgParser.py:337 | deleting a key removes exactly that key, never lengthens the dict, and every other key still maps to the value it had; the order of the kept entries is given by `Tables.RemoveAt` |
| Tables.PutUnique | ArgParser/ArgParser.py:289 | assignment keeps the keys of a dict distinct |
| Tables.PutFind | ArgParser/ArgParser.py:289 | after `d[k] = v`, `k` maps to `v` and every other key maps to what it did before |
| Tables.PutAfterPrefix | ArgParser/ArgParser.py:289 | assigning, in order, the keys of a dict with distinct keys rebuilds that dict one entry at a time |
| Tables.RemoveFirst | ArgParser/ArgParser.py:375 | with distinct keys, deleting the first entry's key leaves the remaining entries in order |
| Tables.RemoveAfter | ArgParser/ArgParser.py:337 | deleting a key that none of the leading entries has keeps those entries, in order, in front |
| Tables.RemoveAt | ArgParser/ArgParser.py:337 | with distinct keys, deleting the key of any entry drops exactly that entry and keeps every other entry, with its value, in its order |
| ArgConstraint.ExceptionClass | ArgParser/ArgParser.py:9-25 | the error kinds raised as subclasses of `TypeError` and of `ValueError` are exactly the ones the tests catch as such |
| ArgConstraint.DefaultAttr | ArgParser/ArgParser.py:62-63 | the `default` attribute is the default if one was given, and None otherwise |
| ArgConstraint.Validate | ArgParser/ArgParser.py:82-101 | `validate` passes exactly when every given rule admits the value; a failure comes from a rule that was given, is a value-check error, and names the argument |
| ArgConstraint.LocalValidate | ArgParser/ArgParser.py:186-205 | `localValidate` passes exactly when the six shared rules admit the value and, only when `possibleVals` is true, `possibleValues` was given and holds the value; with `possibleVals` true and no `possibleValues`, the `in` test against the sentinel raises TypeError |
| ArgConstraint.FirstFailMeaning | ArgParser/ArgParser.py:82-101 | running a list of checks passes exactly when every check passes; otherwise it reports the first failing check, and every earlier check passed |
| ArgConstraint.RulesInOrder | ArgParser/ArgParser.py:82-98 | the six shared checks run in the order dtype, subClass, min, max, minLength, maxLength, and the first failure is reported |
| ArgConstraint.ValidateFirstFailure | ArgParser/ArgParser.py:82-101 | `validate` equals running the seven independent checks in source order and reporting the first failure |
| ArgConstraint.LocalValidateFirstFailure | ArgParser/ArgParser.py:186-205 | `localValidate` as it is always called equals running only the first six independent checks |
| ArgConstraint.MinInclusive | ArgParser/ArgParser.py:88-89 | once the earlier checks pass, a number fails with MinError exactly when it is below `min`, so `min` itself passes |
| ArgConstraint.MaxInclusive | ArgParser/ArgParser.py:91-92 | once the earlier checks pass, a number fails with MaxError exactly when it is above `max` |
| ArgConstraint.MinLengthInclusive | ArgParser/ArgParser.py:94-95 | once the earlier checks pass, a sized value fails with MinLengthError exactly when it is shorter than `minLength` |
| ArgConstraint.MaxLengthInclusive | ArgParser/ArgParser.py:97-98 | once the earlier checks pass, a sized value fails with MaxLengthError exactly when it is longer than `maxLength` |
| ArgConstraint.MembershipExact | ArgParser/ArgParser.py:100-101 | a value that passes the six rules fails with InvalidArgument exactly when it equals no element of `possibleValues` |
| Declarations.TypeSpecClasses | ArgParser/ArgParser.py:214-218 | a `dtype` given as one type stands for that type alone, and a tuple of types for its elements in order |
| Declarations.ShapeError | ArgParser/ArgParser.py:212-254 | the shape checks find no error exactly when every given option has the required shape |
| Declarations.Build | ArgParser/ArgParser.py:31-68 | each of the nine rules is present exactly when its option was given, and holds that option's value: the classes of `dtype`, the class of `subClass`, the numbers of `min` and `max`, the integers of `minLength` and `maxLength`, the default, and the elements of `possibleValues`; `optional` is true only when given as True |
| Declarations.ConstraintFrom | ArgParser/ArgParser.py:159-278 | a constraint is produced only when every key is recognised and every option is well shaped; it is built from the options, and each element of `possibleValues` and the default satisfy the six rules |
| Declarations.ShapeErrorInOrder | ArgParser/ArgParser.py:212-254 | the shape error reported concerns the first misshapen option in the order dtype, subClass, min, max, minLength, maxLength, optional, possibleValues |
| Declarations.ItemsAdmitted | ArgParser/ArgParser.py:257-258 | the loop over the elements of `possibleValues` passes exactly when every element satisfies the six rules |
| DeclarationProperties.FirstUnsupportedMeaning | ArgParser/ArgParser.py:208-210 | the key loop finds nothing exactly when every key is recognised; otherwise it reports the first unrecognised key in call order |
| DeclarationProperties.UnsupportedRejectedFirst | ArgParser/ArgParser.py:208-210 | an unrecognised key is present exactly when NotImplementedError is raised, before any other check, naming the first such key |
| DeclarationProperties.ShapeRejected | ArgParser/ArgParser.py:212-254 | with only known keys, the first misshapen option raises TypeError naming that option |
| DeclarationProperties.FirstInvalidItemAt | ArgParser/ArgParser.py:257-258 | the element loop reports the error of the first element that breaks a rule |
| DeclarationProperties.DeclarationValidation | ArgParser/ArgParser.py:252-278 | with known, well-shaped options, the first rule-breaking element of `possibleValues` in index order, then the default, is the error; otherwise the constraint is built, and membership of the default in `possibleValues` is never required |
| DeclarationProperties.DefaultOutsidePossibleValuesAccepted | ArgParser/ArgParser.py:204 | a default outside `possibleValues` is accepted at declaration time, although `validate` rejects the same value when it is supplied |
| DeclarationProperties.AddKeywordStores | ArgParser/ArgParser.py:280-289 | `addKeywordArg` succeeds exactly when the constraint parses; it stores the constraint under its name, replacing an earlier one in place and leaving the others alone; a failure changes nothing |
| DeclarationProperties.AddKeywordAppends | ArgParser/ArgParser.py:280-289 | declaring the keywords of a table with distinct names one after another, in order, builds that table |
| DeclarationProperties.AddPositionalRule | ArgParser/ArgParser.py:291-310 | once the flag is set every positional is refused; a defaulted positional is accepted only as the first and sets the flag; a refused declaration changes nothing |
| DeclarationProperties.SecondDefaultRefused | ArgParser/ArgParser.py:299-306 | a second defaulted positional is refused, whichever of the two is declared first |
| DeclarationProperties.AddPreservesWellFormed | ArgParser/ArgParser.py:280-310 | both declaration calls keep the names distinct, and keep any defaulted positional as the only positional |
| ArgConstraint.CheckRules | ArgParser/ArgParser.py:82-98 | no contract; specified by `ArgConstraint.RulesInOrder`, `ArgConstraint.Validate` and `ArgConstraint.LocalValidate` |
| Declarations.FirstUnsupportedFrom | ArgParser/ArgParser.py:208-210 | no contract; specified by `DeclarationProperties.FirstUnsupportedMeaning` and `DeclarationProperties.UnsupportedRejectedFirst` |
| Declarations.FirstInvalidItemFrom | ArgParser/ArgParser.py:257-258 | no contract; specified by `Declarations.ItemsAdmitted` and `DeclarationProperties.FirstInvalidItemAt` |
| Declarations.AddKeyword | ArgParser/ArgParser.py:280-289 | no contract; specified by `DeclarationProperties.AddKeywordStores` and `DeclarationProperties.AddPreservesWellFormed` |
| Declarations.AddPositional | ArgParser/ArgParser.py:291-310 | no contract; specified by `DeclarationProperties.AddPositionalRule`, `DeclarationProperties.SecondDefaultRefused` and `DeclarationProperties.AddPreservesWellFormed` |
| Binding.Pairing | ArgParser/ArgParser.py:370-375 | no contract; specified by `Binding.PairingCounts`, `BindingProperties.PairingFrom` and `BindingProperties.PairingErrors` |
| Binding.Overflow | ArgParser/ArgParser.py:385-388 | no contract; specified by `BindingProperties.OverflowAt` |
| Binding.ParsePositional | ArgParser/ArgParser.py:346-390 | no contract; specified by `BindingProperties.ArityChecks`, `BindingProperties.DefaultPositional`, `BindingProperties.PositionalValidationFails`, `BindingProperties.PositionalMissing`, `BindingProperties.PositionalBound`, `BindingProperties.OverflowIntoKeywords`, `BindingProperties.PositionalConsumes` and `BindingProperties.PositionalPreservesWellFormed` |
| Binding.AfterPairing | ArgParser/ArgParser.py:378-390 | no contract; specified through `Binding.ParsePositional` by `BindingProperties.PositionalMissing` and `BindingProperties.PositionalBound` |
| Binding.Resolving | ArgParser/ArgParser.py:324-337 | no contract; specified by `BindingProperties.ResolvingFrom` and `BindingProperties.ResolvingShape` |
| Binding.ParseKeyword | ArgParser/ArgParser.py:312-344 | no contract; specified by `BindingProperties.KeywordShape`, `BindingProperties.KeywordFailure`, `BindingProperties.KeywordSuccess`, `BindingProperties.KeywordBinds`, `BindingProperties.KeywordConsumes` and `BindingProperties.KeywordPreservesWellFormed` |
| Binding.Parse | ArgParser/ArgParser.py:393-402 | no contract; specified by `BindingProperties.ParseConsumes` and `BindingProperties.ParsePreservesWellFormed` |
| Binding.PairingCounts | ArgParser/ArgParser.py:371-375 | each pairing step deletes one value and one declaration; the keyword declarations and the flag are untouched, and the positionals left are a suffix of the original ones |
| BindingProperties.Shrunk | ArgParser/ArgParser.py:371-374 | the value list after `k` pairing steps is shorter by `k` |
| BindingProperties.PairCount | ArgParser/ArgParser.py:371 | the loop pairs a declaration `j` only while the original index `2j` is within the values, and stops only when the declarations run out or index `2n` is past the values |
| BindingProperties.ShrunkStep | ArgParser/ArgParser.py:371-374 | at step `k` the loop reads original value `2k`, and deleting it leaves the list of step `k+1` |
| BindingProperties.PairingFrom | ArgParser/ArgParser.py:371-375 | the pairing loop validates declaration `j` against original value `2j`, stops at the first failure, and otherwise binds each declaration and deletes it |
| BindingProperties.BindEvensAt | ArgParser/ArgParser.py:373 | after pairing, declaration `j` is bound to original value `2j`, and any other attribute keeps its value |
| BindingProperties.PairingErrors | ArgParser/ArgParser.py:372 | the pairing loop raises only what `validate` raises |
| BindingProperties.ArityChecks | ArgParser/ArgParser.py:357-361 | more values than positionals with no keyword declarations, or more than positionals plus keywords, raise TypeError before anything changes; no other case raises it |
| BindingProperties.DefaultPositional | ArgParser/ArgParser.py:365-368 | with the flag set and no values, the positional is bound to its default without validation and deleted; if an earlier parse already deleted it, the lookup raises IndexError |
| BindingProperties.PositionalValidationFails | ArgParser/ArgParser.py:371-372 | a rejected value propagates the error of the first declaration `j` whose value `2j` fails |
| BindingProperties.PositionalMissing | ArgParser/ArgParser.py:378-382 | declarations left unpaired raise missing-positional naming them; a single one has been taken out by `popitem` |
| BindingProperties.PositionalBound | ArgParser/ArgParser.py:365-390 | when every positional is reached and admitted, each is bound to its value, `_args` is emptied, the flag and `_kwargs` are untouched, and the leftover values overflow into the keyword dict |
| BindingProperties.SinglePositionalBound | ArgParser/ArgParser.py:365-390 | with one positional declaration and a first value it admits, that declaration is bound to the first value and the others overflow, in order, into the keyword names |
| BindingProperties.PositionalPairs | ArgParser/ArgParser.py:350-390 | outside the arity errors and the defaulted case, the positional phase is the pairing loop followed by its end, and a loop that pairs every declaration leaves no more values than keyword declarations |
| BindingProperties.PositionalOkReachesAll | ArgParser/ArgParser.py:370-382 | a successful positional phase has validated every positional declaration |
| BindingProperties.OverflowAt | ArgParser/ArgParser.py:386-388 | leftover value `i` goes to keyword name `i`, whether or not that name was supplied, and the other supplied keywords are untouched |
| BindingProperties.OverflowIntoKeywords | ArgParser/ArgParser.py:357-390 | after a successful positional phase with extra values, the `i`-th keyword declaration receives the `i`-th leftover value; with at most one positional, the leftovers are simply the values after it |
| BindingProperties.TwoPositionalsTwoValues | ArgParser/ArgParser.py:371-380 | two positionals with exactly two values raise missing-positional for the second |
| BindingProperties.OverflowOverwritesExplicit | ArgParser/ArgParser.py:388 | an overflow value replaces a value supplied explicitly under the same keyword name |
| BindingProperties.Resolve | ArgParser/ArgParser.py:325-335 | a supplied keyword is accepted exactly when it validates; otherwise the default is used, otherwise None when optional, otherwise missing-keyword |
| BindingProperties.ResolvingFrom | ArgParser/ArgParser.py:324-337 | the keyword loop passes exactly when every declaration resolves, and otherwise reports the first that does not; on success it empties `_kwargs`, binds every declaration to its resolution, and leaves exactly the supplied names that no declaration consumed |
| BindingProperties.ResolvingShape | ArgParser/ArgParser.py:324-337 | the keyword loop, whether it passes or stops early, leaves `_args` and the flag alone and leaves a suffix of the keyword declarations |
| BindingProperties.BindResolvedAt | ArgParser/ArgParser.py:328-333 | each keyword declaration is bound to its resolution, and any other attribute keeps its value |
| BindingProperties.KeywordShape | ArgParser/ArgParser.py:324-344 | the keyword phase leaves `_args` and the flag alone, and only deletes keyword declarations |
| BindingProperties.KeywordFailure | ArgParser/ArgParser.py:324-335 | if some declaration cannot be resolved, the error is that of the first one in insertion order |
| BindingProperties.KeywordFirstFailure | ArgParser/ArgParser.py:324-335 | the first unresolvable declaration in insertion order decides the error |
| BindingProperties.KeywordSuccess | ArgParser/ArgParser.py:324-344 | when every declaration resolves, the supplied names that no declaration consumed raise unexpected-keyword naming all of them, otherwise the phase passes; `_kwargs` ends empty |
| BindingProperties.KeywordBinds | ArgParser/ArgParser.py:324-337 | when every declaration resolves, each keyword is bound to its resolution and other attributes are kept |
| BindingProperties.PositionalPreservesWellFormed | ArgParser/ArgParser.py:346-390 | the positional phase keeps the parser well formed, whether it passes or fails, and leaves `_kwargs` untouched |
| BindingProperties.KeywordPreservesWellFormed | ArgParser/ArgParser.py:312-344 | the keyword phase keeps the parser well formed, whether it passes or fails |
| BindingProperties.ParsePreservesWellFormed | ArgParser/ArgParser.py:393-402 | `parseArgs` keeps the parser well formed, whether it passes or fails |
| BindingProperties.PositionalConsumes | ArgParser/ArgParser.py:365-390 | a successful positional phase has bound every positional declaration, emptied `_args`, and every attribute already set is still set (its value may be overwritten; the values are given by `BindingProperties.PositionalBound`) |
| BindingProperties.KeywordConsumes | ArgParser/ArgParser.py:324-344 | a successful keyword phase has bound every keyword to its resolution, emptied `_kwargs`, and every attribute already set is still set (its value may be overwritten; the values are given by `BindingProperties.KeywordSuccess`) |
| BindingProperties.ParseConsumes | ArgParser/ArgParser.py:393-402 | a successful `parseArgs` leaves `_args` and `_kwargs` empty, has bound every declared name, and has bound each keyword to its resolution against the keyword dict after overflow |
| ArgParser.ArgParser.constructor | ArgParser/ArgParser.py:150-157 | a new parser has no declarations, no attributes and the flag cleared |
| ArgParser.ArgParser.ParseConstraint | ArgParser/ArgParser.py:159-278 | the loops over the option keys and over the elements of `possibleValues` compute `_parseConstraint` exactly, and change nothing |
| ArgParser.ArgParser.AddKeywordArg | ArgParser/ArgParser.py:280-289 | the object ends in the state `addKeywordArg` describes and stays well formed |
| ArgParser.ArgParser.AddPositionalArg | ArgParser/ArgParser.py:291-310 | the object ends in the state `addPositionalArg` describes and stays well formed |
| ArgParser.ArgParser.PairValues | ArgParser/ArgParser.py:370-375 | the in-place loop over the shrinking value list leaves the state, the values and the outcome of the pairing loop |
| ArgParser.ArgParser.AfterPairingArgs | ArgParser/ArgParser.py:378-390 | the missing-positional checks and the overflow loop give the end of `_parsePositionalArgs` |
| ArgParser.ArgParser.ParsePositionalArgs | ArgParser/ArgParser.py:346-390 | the object ends in the state `_parsePositionalArgs` describes, returns the keyword dict it hands on, and stays well formed |
| ArgParser.ArgParser.ResolveKeywords | ArgParser/ArgParser.py:324-337 | the in-place keyword loop leaves the state, the unconsumed keywords and the outcome of the keyword loop |
| ArgParser.ArgParser.ParseKeywordArgs | ArgParser/ArgParser.py:312-344 | the object ends in the state `_parseKeywordArgs` describes and stays well formed |
| ArgParser.ArgParser.ParseArgs | ArgParser/ArgParser.py:393-402 | the object ends in the state `parseArgs` describes and stays well formed |
| ArgParser.OverflowInto | ArgParser/ArgParser.py:385-388 | the overflow loop stores leftover value `i` under keyword name `i` |
| Scenarios.Pos1Declared | tests/test.py:18 | declaring `pos1` with a default on a fresh parser succeeds and sets the flag |
| Scenarios.KeywordsDeclared | tests/test.py:19-22 | the four keyword declarations succeed and append in order |
| Scenarios.DeclaredWellFormed | tests/test.py:17-22 | the test parser is well formed |
| Scenarios.TestDefaults | tests/test.py:34-49 | with no positional value and `kw4` left out, `pos1` and `kw4` take their defaults and the supplied keywords are bound |
| Scenarios.TestMin | tests/test.py:51-62 | 0.5 for `kw3` raises MinError, a ValueError |
| Scenarios.TestMax | tests/test.py:64-75 | 2 for `kw3` raises MaxError, a ValueError |
| Scenarios.TestMinLength | tests/test.py:77-88 | "a" for `kw4` raises MinLengthError, a ValueError |
| Scenarios.TestMaxLength | tests/test.py:90-101 | "aaaaa" for `kw4` raises MaxLengthError, a ValueError |
| Scenarios.TestDtype | tests/test.py:103-114 | 3 for `kw4` raises TypeError |
| Scenarios.TestSubClass | tests/test.py:116-126 | an `OtherClass` instance for `kw2` raises SubClassError, a TypeError |
| Scenarios.TestKwargOverflow | tests/test.py:128-148 | five positional values bind `pos1` to the first and overflow the other four, in order, into `kw1`..`kw4` |
| Scenarios.TestPositionalArgCount | tests/test.py:150-164 | six positional values raise TypeError and change nothing |
| Scenarios.TestKeywordArgCount | tests/test.py:166-180 | an undeclared `kw5` raises a TypeError naming it |
| Scenarios.TestDefaultsOnObject | tests/test.py:15-49 | on the object itself, the `testDefaults` call reads back "value", the two instances, 1.065 and "str" |

## Left out

- `ArgConstraint.__repr__` and `__str__` (`ArgParser/ArgParser.py:103-144`): these only format strings, and they refer to a non-existent attribute `hasPossibleValuese`.
- Message text: errors are modelled by kind and by the names and counts they report. The always-false `kwargs == 1` comparison at line 341 only chooses between two messages.
- Python's class machinery: a class is its name plus the names of its ancestors. Metaclasses, `__instancecheck__` and user-defined `__eq__`, `__lt__` and `__len__` are not modelled. Instances compare by identity.
- `min` and `max` on non-numbers: the declaration calls accept only an int or float for `min` and `max`, so `<` and `>` compare against a number. A value that is not a number then raises an explicit NotComparable error. Constraints built directly with `ArgConstraint(...)` and a non-numeric `min` (two strings compared, say) are not modelled.
- `len` is modelled on str, tuple and list. On other values it raises an explicit NoLength error.
- Floating point: floats are real numbers. Rounding, NaN and infinities are not modelled.
- Python ints are unbounded, and so are the model's.
- `min` and `max` given as bool become 0 or 1.
- `setattr`: the attributes a parse sets are a map. That map does not interact with the parser's own attribute names, so a parameter named `_args` would not overwrite the declaration table as it does in Python.
- Where a value was stored in a dict shared by reference (a `possibleValues` list mutated after declaration), the model keeps the value as it was at declaration.
- `ArgParser/__init__.py` (the package re-export) and the test harness's classes, apart from the parser `tests/test.py` declares, are not part of this model.
- `Validate`: says nothing about the message text of the errors.
