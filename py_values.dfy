/** The few Python runtime notions the argument parser relies on: values, their
    classes, `isinstance`/`issubclass`, ordering against a number, `len` and `==`. */
module PyValues {
  import opened Wrappers

  /** A class, identified by its name, together with the names of all its proper
      base classes (its method resolution order without itself). */
  datatype Class = Class(name: string, bases: set<string>)

  /** `issubclass(c, base)`: a class is a subclass of itself and of each of its bases. */
  predicate IsSubclass(c: Class, base: Class) {
    c.name == base.name || base.name in c.bases
  }

  const ObjectClass := Class("object", {})
  const NoneTypeClass := Class("NoneType", {"object"})
  const IntClass := Class("int", {"object"})
  const BoolClass := Class("bool", {"int", "object"})
  const FloatClass := Class("float", {"object"})
  const StrClass := Class("str", {"object"})
  const TupleClass := Class("tuple", {"object"})
  const ListClass := Class("list", {"object"})
  const TypeClass := Class("type", {"object"})

  /** A Python object as far as the parser can observe it. Floats are modelled by
      their exact real value; an `Instance` is an object of a user class, told apart
      from others of its class by its identity `id`. */
  datatype Value =
    | NoneObj
    | Bool(b: bool)
    | Int(i: int)
    | Float(r: real)
    | Str(s: string)
    | Tuple(elems: seq<Value>)
    | List(elems: seq<Value>)
    | TypeObj(cls: Class)
    | Instance(cls: Class, id: nat)

  /** `type(v)`. */
  function ClassOf(v: Value): Class {
    match v
    case NoneObj => NoneTypeClass
    case Bool(_) => BoolClass
    case Int(_) => IntClass
    case Float(_) => FloatClass
    case Str(_) => StrClass
    case Tuple(_) => TupleClass
    case List(_) => ListClass
    case TypeObj(_) => TypeClass
    case Instance(c, _) => c
  }

  /** The number `v` stands for when it is compared with `<` or `>` against an int or
      float; `None` when Python would raise TypeError for such a comparison. */
  function Num(v: Value): (n: Option<real>)
    ensures n.Some? <==> v.Bool? || v.Int? || v.Float?
  {
    match v
    case Bool(b) => Some(if b then 1.0 else 0.0)
    case Int(i) => Some(i as real)
    case Float(r) => Some(r)
    case _ => None
  }

  /** `len(v)`; `None` when Python would raise TypeError. */
  function Len(v: Value): (n: Option<nat>)
    ensures n.Some? <==> v.Str? || v.Tuple? || v.List?
    ensures v.Str? ==> n == Some(|v.s|)
    ensures v.Tuple? || v.List? ==> n == Some(|v.elems|)
  {
    match v
    case Str(s) => Some(|s|)
    case Tuple(e) => Some(|e|)
    case List(e) => Some(|e|)
    case _ => None
  }

  /** `isinstance(v, (classes[0], classes[1], ...))`, which includes subclasses. */
  predicate IsInstance(v: Value, classes: seq<Class>) {
    exists k :: 0 <= k < |classes| && IsSubclass(ClassOf(v), classes[k])
  }

  /** `isinstance(v, (int, float))`; `bool` counts, being a subclass of `int`. */
  predicate IsNumber(v: Value) {
    v.Bool? || v.Int? || v.Float?
  }

  /** `isinstance(v, int)`. */
  predicate IsInt(v: Value) {
    v.Bool? || v.Int?
  }

  function IntValue(v: Value): int
    requires IsInt(v)
  {
    if v.Bool? then (if v.b then 1 else 0) else v.i
  }

  /** Python's `a == b` for these values: numbers compare by value across bool, int
      and float; str by contents; tuples and lists element-wise but never with each
      other; type objects and instances by identity. */
  predicate PyEq(a: Value, b: Value)
    decreases a
  {
    if Num(a).Some? && Num(b).Some? then Num(a) == Num(b)
    else match a
      case NoneObj => b.NoneObj?
      case Str(s) => b.Str? && b.s == s
      case Tuple(x) => b.Tuple? && ElemsEq(x, b.elems)
      case List(x) => b.List? && ElemsEq(x, b.elems)
      case TypeObj(c) => b.TypeObj? && b.cls == c
      case Instance(c, id) => b.Instance? && b.cls == c && b.id == id
      case _ => false
  }

  /** Element-wise `==` of two equally long sequences. */
  predicate ElemsEq(x: seq<Value>, y: seq<Value>)
    decreases x
  {
    |x| == |y| && (|x| == 0 || (PyEq(x[0], y[0]) && ElemsEq(x[1..], y[1..])))
  }

  /** `v in items` for a list or tuple: some element is `==` to `v`. */
  predicate In(v: Value, items: seq<Value>) {
    exists k :: 0 <= k < |items| && PyEq(v, items[k])
  }

  /** Every value is `==` to itself (there is no NaN in this model). */
  lemma {:induction false} PyEqReflexive(v: Value)
    ensures PyEq(v, v)
    decreases v, 1
  {
    match v
    case Tuple(x) => ElemsEqReflexive(x);
    case List(x) => ElemsEqReflexive(x);
    case _ =>
  }

  lemma {:induction false} ElemsEqReflexive(x: seq<Value>)
    ensures ElemsEq(x, x)
    decreases x, 0
  {
    if |x| > 0 {
      PyEqReflexive(x[0]);
      ElemsEqReflexive(x[1..]);
    }
  }

  /** An element of a list is always `in` it. */
  lemma MemberIsIn(items: seq<Value>, k: nat)
    requires k < |items|
    ensures In(items[k], items)
  {
    PyEqReflexive(items[k]);
  }
}
