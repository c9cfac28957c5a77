/** `RegistryValue`: the immutable (name, data, type) record returned by reads. */
module RegistryTypes {
  import opened Wrappers
  import opened Text
  import opened PyValues
  import opened RegistryTranslation
  import opened RegistryErrors

  /** The stored fields of a `RegistryValue`. */
  datatype RegistryValue = RegistryValue(name: string, data: PyValue, valueType: int)

  /** What the constructor guarantees about what it stores: REG_MULTI_SZ data is
      never kept as a list, so the record stays hashable. */
  predicate Invariant(v: RegistryValue)
  {
    !(v.valueType == REG_MULTI_SZ && v.data.PyList?)
  }

  /** `RegistryValue(name, data, value_type)`: list data of a REG_MULTI_SZ value is
      stored as a tuple of the same elements in the same order. */
  function MakeValue(name: string, data: PyValue, valueType: int): (v: RegistryValue)
    ensures Invariant(v)
    ensures v.name == name && v.valueType == valueType
    ensures valueType == REG_MULTI_SZ && data.PyList? ==> v.data == PyTuple(data.items)
    ensures !(valueType == REG_MULTI_SZ && data.PyList?) ==> v.data == data
  {
    if valueType == REG_MULTI_SZ && data.PyList? then RegistryValue(name, PyTuple(data.items), valueType)
    else RegistryValue(name, data, valueType)
  }

  /** Constructing from a constructed record's own fields gives the same record. */
  lemma MakeValueIdempotent(name: string, data: PyValue, valueType: int)
    ensures var v := MakeValue(name, data, valueType);
      MakeValue(v.name, v.data, v.valueType) == v
  {
  }

  /** A list and the tuple of its elements build the same REG_MULTI_SZ record. */
  lemma ListAndTupleBuildSameRecord(name: string, items: seq<PyValue>)
    ensures MakeValue(name, PyList(items), REG_MULTI_SZ) == MakeValue(name, PyTuple(items), REG_MULTI_SZ)
  {
  }

  /** The `type_name` property. */
  function TypeName(v: RegistryValue): (s: string)
    ensures KnownType(v.valueType) ==> s == TypeNameEntry(v.valueType).value
  {
    GetRegTypeName(v.valueType)
  }

  /** Iteration (`name, data, value_type = value`) yields the three fields in order. */
  function Items(v: RegistryValue): (items: seq<PyValue>)
    ensures |items| == 3
    ensures items[0] == PyStr(v.name) && items[1] == v.data && items[2] == PyInt(v.valueType)
  {
    [PyStr(v.name), v.data, PyInt(v.valueType)]
  }

  /** `value[key]`: `key` is compared with `==`, so `False`, `1.0` and the like
      select a field too; any other key raises IndexError. */
  function GetItem(v: RegistryValue, key: PyValue): (r: Result<PyValue, BuiltinError>)
    ensures r.Success? <==> exists k :: 0 <= k < 3 && PyEq(key, PyInt(k))
    ensures r.Failure? ==> r.error == IndexError
    ensures PyEq(key, PyInt(0)) ==> r == Success(PyStr(v.name))
    ensures PyEq(key, PyInt(1)) ==> r == Success(v.data)
    ensures PyEq(key, PyInt(2)) ==> r == Success(PyInt(v.valueType))
  {
    if PyEq(key, PyInt(0)) then Success(PyStr(v.name))
    else if PyEq(key, PyInt(1)) then Success(v.data)
    else if PyEq(key, PyInt(2)) then Success(PyInt(v.valueType))
    else Failure(IndexError)
  }

  /** Indexing agrees with iteration on 0, 1 and 2 and rejects every other
      integer, negatives included (unlike a tuple). */
  lemma GetItemMatchesItems(v: RegistryValue, k: int)
    ensures 0 <= k < 3 ==> GetItem(v, PyInt(k)) == Success(Items(v)[k])
    ensures !(0 <= k < 3) ==> GetItem(v, PyInt(k)) == Failure(IndexError)
  {
  }

  /** `RegistryValue.__eq__` between two records: all three fields compare equal. */
  predicate Equals(a: RegistryValue, b: RegistryValue): (r: bool)
    ensures a == b ==> r
    ensures r ==> a.name == b.name && a.valueType == b.valueType
  {
    PyEqReflexive(a.data);
    a.name == b.name && PyEq(a.data, b.data) && a.valueType == b.valueType
  }

  /** `RegistryValue.__eq__` against any other object. A 3-tuple is compared field
      by field, its list data first turned into a tuple when the record is a
      REG_MULTI_SZ; everything else is unequal (Python falls back to identity). */
  predicate EqualsObject(a: RegistryValue, other: PyValue): (r: bool)
    ensures r ==> other.PyTuple? && |other.items| == 3
    ensures r ==> other.items[0] == PyStr(a.name)
    ensures r ==> IsNumber(other.items[2]) && NumberOf(other.items[2]) == a.valueType as real
  {
    if other.PyTuple? && |other.items| == 3 then
      var data := other.items[1];
      var compared := if a.valueType == REG_MULTI_SZ && data.PyList? then PyTuple(data.items) else data;
      PyEq(PyStr(a.name), other.items[0]) && PyEq(a.data, compared) && PyEq(PyInt(a.valueType), other.items[2])
    else false
  }

  /** A record equals another exactly when it equals that record's field tuple. */
  lemma EqualsIffEqualsFieldTuple(a: RegistryValue, b: RegistryValue)
    requires Invariant(b)
    ensures Equals(a, b) <==> EqualsObject(a, PyTuple(Items(b)))
  {
  }

  /** A record equals the tuple it was built from, list data included. */
  lemma EqualsConstructorTuple(name: string, data: PyValue, valueType: int)
    ensures EqualsObject(MakeValue(name, data, valueType), PyTuple([PyStr(name), data, PyInt(valueType)]))
  {
    PyEqReflexive(MakeValue(name, data, valueType).data);
  }

  /** Record equality is an equivalence: reflexive and symmetric. */
  lemma EqualsReflexiveSymmetric(a: RegistryValue, b: RegistryValue)
    ensures Equals(a, a)
    ensures Equals(a, b) ==> Equals(b, a)
  {
    PyEqReflexive(a.data);
    if Equals(a, b) {
      PyEqSymmetric(a.data, b.data);
    }
  }

  lemma {:induction false} PyEqSymmetric(x: PyValue, y: PyValue)
    requires PyEq(x, y)
    ensures PyEq(y, x)
    decreases x
  {
    if IsNumber(x) || IsNumber(y) {
    } else {
      match x
        case PyList(xs) =>
          forall k | 0 <= k < |xs| ensures PyEq(y.items[k], xs[k]) { PyEqSymmetric(xs[k], y.items[k]); }
        case PyTuple(xs) =>
          forall k | 0 <= k < |xs| ensures PyEq(y.items[k], xs[k]) { PyEqSymmetric(xs[k], y.items[k]); }
        case _ =>
    }
  }

  /** `hash(value)`: the hash of the field triple; `None` when the data is unhashable. */
  function Hash(v: RegistryValue): (h: Option<HashKey>)
    ensures h.Some? <==> PyHash(v.data).Some?
  {
    var items := Items(v);
    assert PyHash(items[0]).Some? && PyHash(items[2]).Some? && items[1] == v.data;
    PyHash(PyTuple(items))
  }

  /** Equal records have equal hashes. */
  lemma EqualRecordsHashEqual(a: RegistryValue, b: RegistryValue)
    requires Equals(a, b)
    ensures Hash(a) == Hash(b)
  {
    PyEqSameHash(a.data, b.data);
    if PyHash(a.data).Some? {
      var ia, ib := Items(a), Items(b);
      assert forall k :: 0 <= k < 3 ==> PyHash(ia[k]).Some? && PyHash(ia[k]) == PyHash(ib[k]);
      var ha := seq(3, k requires 0 <= k < 3 => PyHash(ia[k]).value);
      var hb := seq(3, k requires 0 <= k < 3 => PyHash(ib[k]).value);
      assert ha == hb;
    }
  }

  /** A record whose data is a dict, a set or another unhashable object cannot
      be hashed: `hash` raises TypeError. */
  lemma UnhashableObjectRecord(name: string, id: nat, valueType: int)
    ensures Hash(MakeValue(name, PyObject(id, false), valueType)).None?
  {
  }

  /** A constructed REG_MULTI_SZ record over a list of strings is hashable. */
  lemma MultiStringRecordHashable(name: string, data: PyValue)
    requires IsStrList(data)
    ensures Hash(MakeValue(name, data, REG_MULTI_SZ)).Some?
  {
    var v := MakeValue(name, data, REG_MULTI_SZ);
    assert forall k :: 0 <= k < |v.data.items| ==> PyHash(v.data.items[k]).Some?;
  }

  const EXPANSION_HEAD: string := "Failed to expand REG_EXPAND_SZ value '"

  /** The message of the error raised when expansion fails: the value's name and
      the `repr` of its data. */
  function ExpansionMessage(name: string, data: string): string
  {
    EXPANSION_HEAD + name + "' data " + StrRepr(data)
  }

  /** The `expanded_data` property. `expand` is the environment-string expansion,
      which may fail with an `OSError`. */
  function ExpandedData(v: RegistryValue, expand: string -> Result<string, OsError>): (r: Result<Option<string>, RegistryError>)
    ensures !(v.valueType == REG_EXPAND_SZ && v.data.PyStr?) ==> r == Success(None)
    ensures v.valueType == REG_EXPAND_SZ && v.data.PyStr? ==>
      (r.Success? <==> expand(v.data.s).Success?)
      && (r.Success? ==> r.value == Some(expand(v.data.s).value))
      && (r.Failure? ==> r.error == Raise(Expansion, ExpansionMessage(v.name, v.data.s)))
  {
    if v.valueType == REG_EXPAND_SZ && v.data.PyStr? then
      match expand(v.data.s)
        case Success(expanded) => Success(Some(expanded))
        case Failure(_) =>
          Failure(Raise(Expansion, ExpansionMessage(v.name, v.data.s)))
    else Success(None)
  }
}
