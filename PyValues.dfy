/** The slice of Python's value domain the registry layer inspects with
    `isinstance`, `==` and `hash`. */
module PyValues {
  import opened Wrappers

  /** A Python object, as far as the registry layer can tell objects apart.
      `PyObject` stands for every other object, identified by its identity:
      a dict, set or other mutable container (`hashable == false`, so `hash`
      raises TypeError) or an instance with the default identity hash. */
  datatype PyValue =
    | PyNone
    | PyBool(b: bool)
    | PyInt(i: int)
    | PyFloat(r: real)
    | PyStr(s: string)
    | PyBytes(bytes: seq<bv8>)
    | PyList(items: seq<PyValue>)
    | PyTuple(items: seq<PyValue>)
    | PyObject(id: nat, hashable: bool)

  /** `isinstance(v, int)`: `bool` is a subclass of `int`. */
  predicate IsInt(v: PyValue)
  {
    v.PyInt? || v.PyBool?
  }

  function IntOf(v: PyValue): int
    requires IsInt(v)
  {
    if v.PyInt? then v.i else if v.b then 1 else 0
  }

  predicate IsNumber(v: PyValue)
  {
    IsInt(v) || v.PyFloat?
  }

  function NumberOf(v: PyValue): real
    requires IsNumber(v)
  {
    if v.PyFloat? then v.r else IntOf(v) as real
  }

  /** `isinstance(v, list) and all(isinstance(x, str) for x in v)`. */
  predicate IsStrList(v: PyValue)
  {
    v.PyList? && forall k :: 0 <= k < |v.items| ==> v.items[k].PyStr?
  }

  /** Python's `==`: numbers compare by value across `bool`, `int` and `float`;
      lists and tuples compare element-wise but a list never equals a tuple. */
  predicate PyEq(a: PyValue, b: PyValue): (r: bool)
    ensures a.PyList? && b.PyTuple? ==> !r
    ensures a.PyStr? ==> (r <==> b == a)
    ensures r && IsNumber(a) ==> IsNumber(b) && NumberOf(b) == NumberOf(a)
    ensures r && a.PyList? ==> b.PyList? && |b.items| == |a.items|
    decreases a
  {
    if IsNumber(a) || IsNumber(b) then
      IsNumber(a) && IsNumber(b) && NumberOf(a) == NumberOf(b)
    else match a
      case PyList(xs) =>
        b.PyList? && |xs| == |b.items| && forall k :: 0 <= k < |xs| ==> PyEq(xs[k], b.items[k])
      case PyTuple(xs) =>
        b.PyTuple? && |xs| == |b.items| && forall k :: 0 <= k < |xs| ==> PyEq(xs[k], b.items[k])
      case _ => a == b
  }

  /** The data a Python hash is computed from: equal objects yield the same key,
      so any hash function applied to it satisfies Python's hash contract. */
  datatype HashKey =
    | HNone
    | HNumber(r: real)
    | HStr(s: string)
    | HBytes(bytes: seq<bv8>)
    | HTuple(items: seq<HashKey>)
    | HObject(id: nat)

  /** `hash(v)`: `None` stands for the TypeError raised on an unhashable list,
      dict or set, also when it sits inside a tuple. */
  function PyHash(v: PyValue): (h: Option<HashKey>)
    ensures v.PyList? ==> h.None?
    ensures v.PyObject? ==> (h.Some? <==> v.hashable)
    decreases v
  {
    match v
      case PyNone => Some(HNone)
      case PyBool(_) => Some(HNumber(NumberOf(v)))
      case PyInt(_) => Some(HNumber(NumberOf(v)))
      case PyFloat(_) => Some(HNumber(NumberOf(v)))
      case PyStr(s) => Some(HStr(s))
      case PyBytes(bs) => Some(HBytes(bs))
      case PyList(_) => None
      case PyTuple(xs) =>
        if forall k :: 0 <= k < |xs| ==> PyHash(xs[k]).Some? then
          Some(HTuple(seq(|xs|, k requires 0 <= k < |xs| => PyHash(xs[k]).value)))
        else None
      case PyObject(id, hashable) => if hashable then Some(HObject(id)) else None
  }

  /** Python's `==` is reflexive on this domain (there is no NaN among the reals). */
  lemma {:induction false} PyEqReflexive(a: PyValue)
    ensures PyEq(a, a)
    decreases a
  {
    match a
      case PyList(xs) =>
        forall k | 0 <= k < |xs| ensures PyEq(xs[k], xs[k]) { PyEqReflexive(xs[k]); }
      case PyTuple(xs) =>
        forall k | 0 <= k < |xs| ensures PyEq(xs[k], xs[k]) { PyEqReflexive(xs[k]); }
      case _ =>
  }

  /** Hash contract: objects that compare equal have the same hash, and one is
      hashable exactly when the other is. */
  lemma {:induction false} PyEqSameHash(a: PyValue, b: PyValue)
    requires PyEq(a, b)
    ensures PyHash(a) == PyHash(b)
    decreases a
  {
    if IsNumber(a) || IsNumber(b) {
    } else {
      match a
        case PyTuple(xs) =>
          var ys := b.items;
          forall k | 0 <= k < |xs| ensures PyHash(xs[k]) == PyHash(ys[k]) {
            PyEqSameHash(xs[k], ys[k]);
          }
          if forall k :: 0 <= k < |xs| ==> PyHash(xs[k]).Some? {
            assert forall k :: 0 <= k < |ys| ==> PyHash(ys[k]).Some?;
            var hx := seq(|xs|, k requires 0 <= k < |xs| => PyHash(xs[k]).value);
            var hy := seq(|ys|, k requires 0 <= k < |ys| => PyHash(ys[k]).value);
            assert hx == hy;
          } else {
            var k :| 0 <= k < |xs| && PyHash(xs[k]).None?;
            assert PyHash(ys[k]).None?;
          }
        case _ =>
    }
  }

  /** The Python exceptions the translation layer raises besides its own. Their
      messages quote Python `repr`s and types and are not modelled. */
  datatype BuiltinError = TypeError | ValueError | IndexError

  /** An `OSError` as raised by `winreg`: the Windows error code and the message. */
  datatype OsError = OsError(winerror: Option<int>, strerror: Option<string>)
}
