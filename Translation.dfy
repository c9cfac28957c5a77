/** Translation between Python data and Windows registry value types:
    the REG_* tags, their names, type inference for untyped writes and
    validation of data against an explicit type. */
module RegistryTranslation {
  import opened Wrappers
  import opened Text
  import opened PyValues

  const REG_NONE: int := 0
  const REG_SZ: int := 1
  const REG_EXPAND_SZ: int := 2
  const REG_BINARY: int := 3
  const REG_DWORD: int := 4
  const REG_DWORD_LITTLE_ENDIAN: int := 4
  const REG_DWORD_BIG_ENDIAN: int := 5
  const REG_LINK: int := 6
  const REG_MULTI_SZ: int := 7
  const REG_RESOURCE_LIST: int := 8
  const REG_FULL_RESOURCE_DESCRIPTOR: int := 9
  const REG_RESOURCE_REQUIREMENTS_LIST: int := 10
  const REG_QWORD: int := 11
  const REG_QWORD_LITTLE_ENDIAN: int := 11

  /** The name table: display names of the tags. The little-endian aliases share
      their base tag's entry. */
  function TypeNameEntry(t: int): Option<string>
  {
    match t
      case 0 => Some("REG_NONE")
      case 1 => Some("REG_SZ")
      case 2 => Some("REG_EXPAND_SZ")
      case 3 => Some("REG_BINARY")
      case 4 => Some("REG_DWORD")
      case 5 => Some("REG_DWORD_BIG_ENDIAN")
      case 6 => Some("REG_LINK")
      case 7 => Some("REG_MULTI_SZ")
      case 8 => Some("REG_RESOURCE_LIST")
      case 9 => Some("REG_FULL_RESOURCE_DESCRIPTOR")
      case 10 => Some("REG_RESOURCE_REQUIREMENTS_LIST")
      case 11 => Some("REG_QWORD")
      case _ => None
  }

  /** Whether `t` has an entry in the name table. */
  predicate KnownType(t: int)
  {
    TypeNameEntry(t).Some?
  }

  /** The reverse table, from name to tag. */
  function NameTypeEntry(name: string): Option<int>
  {
    match name
      case "REG_NONE" => Some(REG_NONE)
      case "REG_SZ" => Some(REG_SZ)
      case "REG_EXPAND_SZ" => Some(REG_EXPAND_SZ)
      case "REG_BINARY" => Some(REG_BINARY)
      case "REG_DWORD" => Some(REG_DWORD)
      case "REG_DWORD_BIG_ENDIAN" => Some(REG_DWORD_BIG_ENDIAN)
      case "REG_LINK" => Some(REG_LINK)
      case "REG_MULTI_SZ" => Some(REG_MULTI_SZ)
      case "REG_RESOURCE_LIST" => Some(REG_RESOURCE_LIST)
      case "REG_FULL_RESOURCE_DESCRIPTOR" => Some(REG_FULL_RESOURCE_DESCRIPTOR)
      case "REG_RESOURCE_REQUIREMENTS_LIST" => Some(REG_RESOURCE_REQUIREMENTS_LIST)
      case "REG_QWORD" => Some(REG_QWORD)
      case _ => None
  }

  /** The reverse table is exactly the inverse of the name table. */
  lemma NameTablesInverse(t: int, name: string)
    ensures TypeNameEntry(t) == Some(name) <==> NameTypeEntry(name) == Some(t)
  {
  }

  /** The name of a tag, or "UnknownType(n)" for a tag outside the table. */
  function GetRegTypeName(regType: int): (name: string)
    ensures KnownType(regType) ==> name == TypeNameEntry(regType).value
    ensures !KnownType(regType) ==> name == "UnknownType(" + IntToString(regType) + ")"
  {
    match TypeNameEntry(regType)
      case Some(name) => name
      case None => "UnknownType(" + IntToString(regType) + ")"
  }

  /** No two tags share a name, known or unknown, so a name identifies its tag. */
  lemma TypeNameInjective(a: int, b: int)
    requires GetRegTypeName(a) == GetRegTypeName(b)
    ensures a == b
  {
    var na := GetRegTypeName(a);
    if !KnownType(a) && !KnownType(b) {
      var sa := IntToString(a);
      var sb := IntToString(b);
      assert sa == na[12..|na| - 1];
      assert sb == na[12..|na| - 1];
      IntToStringRoundTrip(a);
      IntToStringRoundTrip(b);
    } else if KnownType(a) && KnownType(b) {
      NameTablesInverse(a, na);
      NameTablesInverse(b, na);
    } else if KnownType(a) {
      assert GetRegTypeName(b)[0] == 'U';
      KnownNamesStartWithReg(a);
      assert false;
    } else {
      assert na[0] == 'U';
      KnownNamesStartWithReg(b);
      assert false;
    }
  }

  /** Every name in the table starts with "REG_". */
  lemma KnownNamesStartWithReg(t: int)
    requires KnownType(t)
    ensures StartsWith(GetRegTypeName(t), "REG_") && GetRegTypeName(t)[0] == 'R'
  {
  }

  lemma LowTableNamesAreUpper(t: int)
    requires 0 <= t < 6
    ensures Upper(TypeNameEntry(t).value) == TypeNameEntry(t).value
  {
    match t
      case 0 => assert Upper("REG_NONE") == "REG_NONE";
      case 1 => assert Upper("REG_SZ") == "REG_SZ";
      case 2 => assert Upper("REG_EXPAND_SZ") == "REG_EXPAND_SZ";
      case 3 => assert Upper("REG_BINARY") == "REG_BINARY";
      case 4 => assert Upper("REG_DWORD") == "REG_DWORD";
      case 5 => assert Upper("REG_DWORD_BIG_ENDIAN") == "REG_DWORD_BIG_ENDIAN";
  }

  lemma HighTableNamesAreUpper(t: int)
    requires 6 <= t < 12
    ensures Upper(TypeNameEntry(t).value) == TypeNameEntry(t).value
  {
    match t
      case 6 => assert Upper("REG_LINK") == "REG_LINK";
      case 7 => assert Upper("REG_MULTI_SZ") == "REG_MULTI_SZ";
      case 8 => assert Upper("REG_RESOURCE_LIST") == "REG_RESOURCE_LIST";
      case 9 => assert Upper("REG_FULL_RESOURCE_DESCRIPTOR") == "REG_FULL_RESOURCE_DESCRIPTOR";
      case 10 => assert Upper("REG_RESOURCE_REQUIREMENTS_LIST") == "REG_RESOURCE_REQUIREMENTS_LIST";
      case 11 => assert Upper("REG_QWORD") == "REG_QWORD";
  }

  /** The table's names are already upper case. */
  lemma TableNamesAreUpper(t: int)
    requires KnownType(t)
    ensures Upper(TypeNameEntry(t).value) == TypeNameEntry(t).value
  {
    if t < 6 { LowTableNamesAreUpper(t); } else { HighTableNamesAreUpper(t); }
  }

  /** Whether `type_input` names a tag: a known tag, a little-endian alias, or
      (for integers) any REG_* constant the host's winreg module defines. */
  predicate Recognised(typeInput: PyValue, winregConstants: set<int>)
  {
    (IsInt(typeInput) && (KnownType(IntOf(typeInput)) || IntOf(typeInput) in winregConstants))
    || (typeInput.PyStr? && (NameTypeEntry(Upper(typeInput.s)).Some?
          || Upper(typeInput.s) in {"REG_DWORD_LITTLE_ENDIAN", "REG_QWORD_LITTLE_ENDIAN"}))
  }

  /** `_normalize_registry_type_input`. `winregConstants` is the set of values of
      the host winreg module's REG_* attributes, consulted for integers only. */
  function NormalizeRegistryTypeInput(typeInput: PyValue, winregConstants: set<int>): (r: Result<int, BuiltinError>)
    ensures r.Success? <==> Recognised(typeInput, winregConstants)
    ensures IsInt(typeInput) && KnownType(IntOf(typeInput)) ==> r == Success(IntOf(typeInput))
    ensures typeInput.PyStr? && r.Success? ==> KnownType(r.value)
    ensures r.Failure? ==> (r.error == TypeError <==> !IsInt(typeInput) && !typeInput.PyStr?)
    ensures r.Failure? ==> r.error != IndexError
  {
    if IsInt(typeInput) then
      var n := IntOf(typeInput);
      if KnownType(n) then Success(n)
      else if n == REG_DWORD_LITTLE_ENDIAN then Success(REG_DWORD)
      else if n == REG_QWORD_LITTLE_ENDIAN then Success(REG_QWORD)
      else if n in winregConstants then Success(n)
      else Failure(ValueError)
    else if typeInput.PyStr? then
      var upperName := Upper(typeInput.s);
      if NameTypeEntry(upperName).Some? then Success(NameTypeEntry(upperName).value)
      else if upperName == "REG_DWORD_LITTLE_ENDIAN" then Success(REG_DWORD)
      else if upperName == "REG_QWORD_LITTLE_ENDIAN" then Success(REG_QWORD)
      else Failure(ValueError)
    else Failure(TypeError)
  }

  /** Every tag's name normalises back to the tag. */
  lemma NameRoundTrip(t: int, hostConstants: set<int>)
    requires KnownType(t)
    ensures NormalizeRegistryTypeInput(PyStr(GetRegTypeName(t)), hostConstants) == Success(t)
  {
    TableNamesAreUpper(t);
    NameTablesInverse(t, GetRegTypeName(t));
  }

  /** The little-endian alias integers normalise to their base tags. */
  lemma NormalizeAliasInts(hostConstants: set<int>)
    ensures NormalizeRegistryTypeInput(PyInt(REG_DWORD_LITTLE_ENDIAN), hostConstants) == Success(REG_DWORD)
    ensures NormalizeRegistryTypeInput(PyInt(REG_QWORD_LITTLE_ENDIAN), hostConstants) == Success(REG_QWORD)
  {
  }

  /** The little-endian DWORD alias name normalises to REG_DWORD. */
  lemma NormalizeDwordAliasName(hostConstants: set<int>)
    ensures NormalizeRegistryTypeInput(PyStr("REG_DWORD_LITTLE_ENDIAN"), hostConstants) == Success(REG_DWORD)
  {
    assert Upper("REG_DWORD_LITTLE_ENDIAN") == "REG_DWORD_LITTLE_ENDIAN";
  }

  /** The little-endian QWORD alias name normalises to REG_QWORD. */
  lemma NormalizeQwordAliasName(hostConstants: set<int>)
    ensures NormalizeRegistryTypeInput(PyStr("REG_QWORD_LITTLE_ENDIAN"), hostConstants) == Success(REG_QWORD)
  {
    assert Upper("REG_QWORD_LITTLE_ENDIAN") == "REG_QWORD_LITTLE_ENDIAN";
  }

  /** An integer outside the table normalises (to itself) exactly when it is one
      of the host's REG_* constants; otherwise it is a ValueError. */
  lemma NormalizeUnknownInt(t: int, hostConstants: set<int>)
    requires !KnownType(t)
    ensures NormalizeRegistryTypeInput(PyInt(t), hostConstants)
         == (if t in hostConstants then Success(t) else Failure(ValueError))
  {
  }

  /** A string's case does not matter to normalisation. */
  lemma NormalizeCaseInsensitive(s: string, hostConstants: set<int>)
    ensures NormalizeRegistryTypeInput(PyStr(s), hostConstants)
         == NormalizeRegistryTypeInput(PyStr(Upper(s)), hostConstants)
  {
    UpperIdempotent(s);
  }

  /** A normalised tag is itself a fixpoint of normalisation. */
  lemma NormalizeIdempotent(x: PyValue, hostConstants: set<int>)
    requires NormalizeRegistryTypeInput(x, hostConstants).Success?
    ensures var t := NormalizeRegistryTypeInput(x, hostConstants).value;
      NormalizeRegistryTypeInput(PyInt(t), hostConstants) == Success(t)
  {
  }

  const DWORD_MIN: int := -0x8000_0000
  const DWORD_MAX: int := 0xFFFF_FFFF
  const QWORD_MIN: int := -0x8000_0000_0000_0000
  const QWORD_MAX: int := 0xFFFF_FFFF_FFFF_FFFF

  /** `-2**31 <= n <= 2**32 - 1`: fits a DWORD, read as signed or unsigned. */
  predicate InDwordRange(n: int)
  {
    DWORD_MIN <= n <= DWORD_MAX
  }

  predicate InQwordRange(n: int)
  {
    QWORD_MIN <= n <= QWORD_MAX
  }

  /** `_infer_registry_type_for_new_value`: the default tag for data written
      without an explicit type, with the data passed through unchanged. */
  function InferRegistryTypeForNewValue(data: PyValue): (r: Result<(PyValue, int), BuiltinError>)
    ensures r.Success? ==> r.value.0 == data
    ensures r.Success? <==> data.PyStr? || data.PyBytes? || IsStrList(data) || (IsInt(data) && InDwordRange(IntOf(data)))
    ensures r.Failure? ==> (r.error == ValueError <==> IsInt(data))
    ensures r.Failure? ==> r.error != IndexError
    ensures data.PyStr? ==> r == Success((data, REG_SZ))
    ensures data.PyBytes? ==> r == Success((data, REG_BINARY))
    ensures IsStrList(data) ==> r == Success((data, REG_MULTI_SZ))
    ensures IsInt(data) && InDwordRange(IntOf(data)) ==> r == Success((data, REG_DWORD))
  {
    if data.PyStr? then Success((data, REG_SZ))
    else if IsInt(data) then
      if !InDwordRange(IntOf(data)) then Failure(ValueError)
      else Success((data, REG_DWORD))
    else if data.PyBytes? then Success((data, REG_BINARY))
    else if data.PyList? then
      if forall k :: 0 <= k < |data.items| ==> data.items[k].PyStr? then Success((data, REG_MULTI_SZ))
      else Failure(TypeError)
    else Failure(TypeError)
  }

  /** Inference never widens an integer to a QWORD: an integer outside the DWORD
      range is refused even when it would fit a QWORD. */
  lemma InferNeverWidens(data: PyValue)
    requires InferRegistryTypeForNewValue(data).Success?
    ensures InferRegistryTypeForNewValue(data).value.1 in {REG_SZ, REG_DWORD, REG_BINARY, REG_MULTI_SZ}
  {
  }

  /** The tags whose data must be a `str`. */
  predicate IsStringType(t: int) { t == REG_SZ || t == REG_EXPAND_SZ || t == REG_LINK }

  predicate IsDwordType(t: int) { t == REG_DWORD || t == REG_DWORD_LITTLE_ENDIAN || t == REG_DWORD_BIG_ENDIAN }

  predicate IsQwordType(t: int) { t == REG_QWORD || t == REG_QWORD_LITTLE_ENDIAN }

  predicate IsResourceType(t: int)
  {
    t == REG_RESOURCE_LIST || t == REG_FULL_RESOURCE_DESCRIPTOR || t == REG_RESOURCE_REQUIREMENTS_LIST
  }

  /** Whether `data` has the Python type winreg expects for tag `t`, ranges aside. */
  predicate HasExpectedShape(data: PyValue, t: int)
  {
    if IsStringType(t) then data.PyStr?
    else if IsDwordType(t) || IsQwordType(t) then IsInt(data)
    else if t == REG_BINARY || IsResourceType(t) then data.PyBytes?
    else if t == REG_MULTI_SZ then IsStrList(data)
    else t == REG_NONE
  }

  /** `_validate_and_convert_data_for_type`. */
  function ValidateAndConvertDataForType(data: PyValue, targetType: int): (r: Result<PyValue, BuiltinError>)
    ensures r.Success? <==> HasExpectedShape(data, targetType)
                            && (IsDwordType(targetType) ==> InDwordRange(IntOf(data)))
                            && (IsQwordType(targetType) ==> InQwordRange(IntOf(data)))
    ensures r.Success? ==> r.value == (if targetType == REG_NONE then PyNone else data)
    ensures r.Failure? ==> (r.error == ValueError <==> HasExpectedShape(data, targetType))
    ensures r.Failure? ==> r.error != IndexError
    ensures !KnownType(targetType) ==> r == Failure(TypeError)
  {
    if IsStringType(targetType) then
      if !data.PyStr? then Failure(TypeError) else Success(data)
    else if IsDwordType(targetType) then
      if !IsInt(data) then Failure(TypeError)
      else if !InDwordRange(IntOf(data)) then Failure(ValueError)
      else Success(data)
    else if IsQwordType(targetType) then
      if !IsInt(data) then Failure(TypeError)
      else if !InQwordRange(IntOf(data)) then Failure(ValueError)
      else Success(data)
    else if targetType == REG_BINARY then
      if !data.PyBytes? then Failure(TypeError) else Success(data)
    else if targetType == REG_MULTI_SZ then
      if !data.PyList? || !(forall k :: 0 <= k < |data.items| ==> data.items[k].PyStr?) then Failure(TypeError)
      else Success(data)
    else if targetType == REG_NONE then
      Success(PyNone)
    else if IsResourceType(targetType) then
      if !data.PyBytes? then Failure(TypeError) else Success(data)
    else Failure(TypeError)
  }

  /** Validation for REG_NONE logs a warning exactly when the data is neither
      `None` nor `b''` (it is discarded either way). */
  predicate IgnoredDataWarning(data: PyValue, targetType: int)
  {
    targetType == REG_NONE && !data.PyNone? && !PyEq(data, PyBytes([]))
  }

  lemma IgnoredDataWarningExact(data: PyValue)
    ensures IgnoredDataWarning(data, REG_NONE) <==> data != PyNone && data != PyBytes([])
  {
  }

  /** Whatever inference produces, validation against the inferred tag accepts unchanged. */
  lemma InferredIsValid(data: PyValue)
    requires InferRegistryTypeForNewValue(data).Success?
    ensures var (d, t) := InferRegistryTypeForNewValue(data).value;
      ValidateAndConvertDataForType(d, t) == Success(d)
  {
  }

  /** Validation is idempotent: validated data validates to itself. */
  lemma ValidateIdempotent(data: PyValue, t: int)
    requires ValidateAndConvertDataForType(data, t).Success?
    ensures var d := ValidateAndConvertDataForType(data, t).value;
      ValidateAndConvertDataForType(d, t) == Success(d)
  {
  }

  /** An integer that normalises only through the host's REG_* constants (a flag
      constant rather than a value type) is refused by validation with TypeError. */
  lemma HostOnlyTagsRejected(data: PyValue, n: int, hostConstants: set<int>)
    requires NormalizeRegistryTypeInput(PyInt(n), hostConstants) == Success(n)
    requires !KnownType(n)
    ensures ValidateAndConvertDataForType(data, n) == Failure(TypeError)
  {
  }
}
