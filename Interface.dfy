/** `registry_interface`: root-key names, the write-permission gate and the
    `RegistryRoot` facade that scopes every operation to a hive, a prefix and a
    view. */
module RegistryInterface {
  import opened Wrappers
  import opened PyValues
  import opened Text
  import opened RegistryTranslation
  import opened RegistryErrors
  import opened RegistryTypes
  import opened OsRegistry
  import opened RegistryPaths
  import opened RegistryBase

  /** The predefined hive handles of winreg. */
  const HKEY_CLASSES_ROOT: int := 0x8000_0000
  const HKEY_CURRENT_USER: int := 0x8000_0001
  const HKEY_LOCAL_MACHINE: int := 0x8000_0002
  const HKEY_USERS: int := 0x8000_0003
  const HKEY_PERFORMANCE_DATA: int := 0x8000_0004
  const HKEY_CURRENT_CONFIG: int := 0x8000_0005
  const HKEY_DYN_DATA: int := 0x8000_0006

  /** `ROOT_KEY_MAPPING`: every `HKEY_*` name of winreg and four abbreviations. */
  function RootKeyEntry(name: string): Option<int>
  {
    match name
      case "HKEY_CLASSES_ROOT" => Some(HKEY_CLASSES_ROOT)
      case "HKCR" => Some(HKEY_CLASSES_ROOT)
      case "HKEY_CURRENT_CONFIG" => Some(HKEY_CURRENT_CONFIG)
      case "HKEY_CURRENT_USER" => Some(HKEY_CURRENT_USER)
      case "HKCU" => Some(HKEY_CURRENT_USER)
      case "HKEY_DYN_DATA" => Some(HKEY_DYN_DATA)
      case "HKEY_LOCAL_MACHINE" => Some(HKEY_LOCAL_MACHINE)
      case "HKLM" => Some(HKEY_LOCAL_MACHINE)
      case "HKEY_PERFORMANCE_DATA" => Some(HKEY_PERFORMANCE_DATA)
      case "HKEY_USERS" => Some(HKEY_USERS)
      case "HKU" => Some(HKEY_USERS)
      case _ => None
  }

  /** `_ROOT_KEY_INT_TO_NAME`: the display name of each hive, abbreviated where
      an abbreviation exists. */
  function RootKeyDisplayEntry(root: int): Option<string>
  {
    match root
      case 0x8000_0000 => Some("HKCR")
      case 0x8000_0001 => Some("HKCU")
      case 0x8000_0002 => Some("HKLM")
      case 0x8000_0003 => Some("HKU")
      case 0x8000_0004 => Some("HKEY_PERFORMANCE_DATA")
      case 0x8000_0005 => Some("HKEY_CURRENT_CONFIG")
      case 0x8000_0006 => Some("HKEY_DYN_DATA")
      case _ => None
  }

  predicate IsHive(root: int)
  {
    HKEY_CLASSES_ROOT <= root <= HKEY_DYN_DATA
  }

  /** Every name the mapping knows starts with 'H'. */
  lemma RootKeyNamesStartWithH(name: string)
    requires RootKeyEntry(name).Some?
    ensures |name| > 0 && name[0] == 'H'
  {
  }

  /** Every display name maps back to its hive. */
  lemma DisplayNamesMapBack(root: int)
    requires RootKeyDisplayEntry(root).Some?
    ensures IsHive(root)
    ensures Upper(RootKeyDisplayEntry(root).value) == RootKeyDisplayEntry(root).value
    ensures RootKeyEntry(RootKeyDisplayEntry(root).value) == Some(root)
  {
    if root == HKEY_CLASSES_ROOT {
      assert Upper("HKCR") == "HKCR";
    } else if root == HKEY_CURRENT_USER {
      assert Upper("HKCU") == "HKCU";
    } else if root == HKEY_LOCAL_MACHINE {
      assert Upper("HKLM") == "HKLM";
    } else if root == HKEY_USERS {
      assert Upper("HKU") == "HKU";
    } else if root == HKEY_PERFORMANCE_DATA {
      assert Upper("HKEY_PERFORMANCE_DATA") == "HKEY_PERFORMANCE_DATA";
    } else if root == HKEY_CURRENT_CONFIG {
      assert Upper("HKEY_CURRENT_CONFIG") == "HKEY_CURRENT_CONFIG";
    } else {
      assert Upper("HKEY_DYN_DATA") == "HKEY_DYN_DATA";
    }
  }

  /** `normalize_root_key`: an int (or bool) is taken as it is; a string is
      looked up case-insensitively; anything else is a TypeError. The result is
      the integer the key stands for (a bool is 0 or 1, as winreg, `==` and
      `hash` see it); that a bool stays a bool is `RootKeyText`'s concern. */
  function NormalizeRootKey(keyIdentifier: PyValue): (r: Result<int, BuiltinError>)
    ensures IsInt(keyIdentifier) ==> r == Success(IntOf(keyIdentifier))
    ensures keyIdentifier.PyStr? ==> (r.Success? <==> RootKeyEntry(Upper(keyIdentifier.s)).Some?)
    ensures keyIdentifier.PyStr? && r.Success? ==> IsHive(r.value)
    ensures r.Failure? ==> (r.error == TypeError <==> !IsInt(keyIdentifier) && !keyIdentifier.PyStr?)
    ensures r.Failure? ==> r.error != IndexError
  {
    if IsInt(keyIdentifier) then Success(IntOf(keyIdentifier))
    else if keyIdentifier.PyStr? then
      match RootKeyEntry(Upper(keyIdentifier.s))
        case Some(root) => Success(root)
        case None => Failure(ValueError)
    else Failure(TypeError)
  }

  /** `str()` of the stored root key: `root` is its integer value, and
      `asBool` says it was given as a bool, which prints as `True`/`False`. */
  function RootKeyText(root: int, asBool: bool): (text: string)
    ensures !asBool ==> |text| > 0 && (text[0] == '-' || IsDigit(text[0]))
    ensures !asBool ==> forall k :: 1 <= k < |text| ==> IsDigit(text[k])
    ensures !asBool ==> ParseInt(text) == root
    ensures asBool ==> text == (if root != 0 then "True" else "False")
  {
    IntToStringRoundTrip(root);
    if asBool then (if root != 0 then "True" else "False") else IntToString(root)
  }

  /** The name `root_key_name` shows for a root handle (`asBool`: it was given
      as a bool). */
  function DisplayName(root: int, asBool: bool): (name: string)
    ensures RootKeyDisplayEntry(root).None? ==> name == "UnknownRoot(" + RootKeyText(root, asBool) + ")"
    ensures asBool && root == 1 ==> name == "UnknownRoot(True)"
    ensures asBool && root == 0 ==> name == "UnknownRoot(False)"
    ensures root == HKEY_CLASSES_ROOT ==> name == "HKCR"
    ensures root == HKEY_CURRENT_USER ==> name == "HKCU"
    ensures root == HKEY_LOCAL_MACHINE ==> name == "HKLM"
    ensures root == HKEY_USERS ==> name == "HKU"
  {
    match RootKeyDisplayEntry(root)
      case Some(n) => n
      case None => "UnknownRoot(" + RootKeyText(root, asBool) + ")"
  }

  /** A hive's display name normalizes back to the hive; the name shown for any
      other handle is not a root key name. */
  lemma RootKeyNameRoundTrip(root: int, asBool: bool)
    ensures IsHive(root) ==> NormalizeRootKey(PyStr(DisplayName(root, asBool))) == Success(root)
    ensures !IsHive(root) ==> NormalizeRootKey(PyStr(DisplayName(root, asBool))) == Failure(ValueError)
  {
    if RootKeyDisplayEntry(root).Some? {
      DisplayNamesMapBack(root);
    } else {
      var name := DisplayName(root, asBool);
      assert Upper(name)[0] == 'U';
      if RootKeyEntry(Upper(name)).Some? {
        RootKeyNamesStartWithH(Upper(name));
        assert false;
      }
    }
  }

  /** Root key names are case-insensitive. */
  lemma NormalizeRootKeyCaseInsensitive(s: string)
    ensures NormalizeRootKey(PyStr(s)) == NormalizeRootKey(PyStr(Upper(s)))
  {
    UpperIdempotent(s);
  }

  /** The four abbreviations of the mapping, written in lower case, with the
      full name each stands for. */
  function Abbreviation(k: nat): (pair: (string, string))
    requires k < 4
  {
    if k == 0 then ("hkcr", "HKEY_CLASSES_ROOT")
    else if k == 1 then ("hkcu", "HKEY_CURRENT_USER")
    else if k == 2 then ("hklm", "HKEY_LOCAL_MACHINE")
    else ("hku", "HKEY_USERS")
  }

  /** Each abbreviation, in any case, names the same hive as its full name. */
  lemma AbbreviationsAlias(k: nat)
    requires k < 4
    ensures var (short, full) := Abbreviation(k);
      NormalizeRootKey(PyStr(short)).Success? && NormalizeRootKey(PyStr(short)) == NormalizeRootKey(PyStr(full))
  {
    if k == 0 {
      assert Upper("hkcr") == "HKCR" && Upper("HKEY_CLASSES_ROOT") == "HKEY_CLASSES_ROOT";
    } else if k == 1 {
      assert Upper("hkcu") == "HKCU" && Upper("HKEY_CURRENT_USER") == "HKEY_CURRENT_USER";
    } else if k == 2 {
      assert Upper("hklm") == "HKLM" && Upper("HKEY_LOCAL_MACHINE") == "HKEY_LOCAL_MACHINE";
    } else {
      assert Upper("hku") == "HKU" && Upper("HKEY_USERS") == "HKEY_USERS";
    }
  }

  /** `_ELEVATION_REQUIRED_ROOT_KEYS`: the hives whose writes normally need an
      elevated process. */
  predicate RequiresElevation(root: int)
  {
    root == HKEY_LOCAL_MACHINE || root == HKEY_USERS || root == HKEY_CLASSES_ROOT || root == HKEY_CURRENT_CONFIG
  }

  /** `_ELEVATION_REQUIRED_ROOT_KEY_NAMES.get(root, str(root))`. */
  function ElevationRootName(root: int): string
  {
    if root == HKEY_LOCAL_MACHINE then "HKEY_LOCAL_MACHINE"
    else if root == HKEY_USERS then "HKEY_USERS"
    else if root == HKEY_CLASSES_ROOT then "HKEY_CLASSES_ROOT"
    else if root == HKEY_CURRENT_CONFIG then "HKEY_CURRENT_CONFIG"
    else IntToString(root)
  }

  const READ_ONLY_MESSAGE: string := "Cannot perform write/delete operation in read-only mode."

  const NOT_ELEVATED_HEAD: string := "Write/delete operation on root key '"
  const NOT_ELEVATED_TAIL: string := ") typically requires elevated (administrator) privileges, but the current process is not elevated."
  const PROBE_FAILED_HEAD: string := "Failed to determine process elevation status required for write/delete operations on root key '"
  const PROBE_FAILED_TAIL: string := "). Underlying check failed: "

  function NotElevatedError(root: int): (e: RegistryError)
    ensures e.kind == Permission
  {
    Raise(Permission, NOT_ELEVATED_HEAD + ElevationRootName(root) + "' (" + IntToString(root) + NOT_ELEVATED_TAIL)
  }

  function ProbeFailedError(root: int, detail: string): (e: RegistryError)
    ensures e.kind == Permission
  {
    Raise(Permission, PROBE_FAILED_HEAD + ElevationRootName(root) + "' (" + IntToString(root) + PROBE_FAILED_TAIL + detail)
  }

  /** What asking whether the process is elevated would give: an answer, or an
      `OSError` with its text. */
  datatype ProbeOutcome = Elevated(elevated: bool) | ProbeFailed(detail: string)

  /** One write-permission check: its verdict, the cache it leaves, and whether
      it asked the elevation probe. */
  datatype GateStep = GateStep(result: Outcome<RegistryError>, cache: Option<bool>, probed: bool)

  /** `_check_write_permission` given the cached elevation status and what the
      probe would answer. */
  function Gate(readOnly: bool, root: int, cache: Option<bool>, probe: ProbeOutcome): (g: GateStep)
    ensures g.result.Fail? ==> g.result.error.kind == Permission
    ensures g.probed <==> !readOnly && RequiresElevation(root) && cache.None?
    ensures cache.Some? ==> g.cache == cache
    ensures !g.probed ==> g.cache == cache
    ensures g.result.Pass? <==> !readOnly && (!RequiresElevation(root) || g.cache == Some(true))
    ensures g.probed && probe.Elevated? ==> g.cache == Some(probe.elevated)
    ensures g.probed && probe.ProbeFailed? ==> g.cache == None && g.result == Fail(ProbeFailedError(root, probe.detail))
    ensures !readOnly && RequiresElevation(root) && g.cache.Some? ==> g.result == Verdict(root, g.cache.value)
  {
    if readOnly then GateStep(Fail(Raise(Permission, READ_ONLY_MESSAGE)), cache, false)
    else if !RequiresElevation(root) then GateStep(Pass, cache, false)
    else if cache.Some? then GateStep(Verdict(root, cache.value), cache, false)
    else if probe.ProbeFailed? then GateStep(Fail(ProbeFailedError(root, probe.detail)), None, true)
    else GateStep(Verdict(root, probe.elevated), Some(probe.elevated), true)
  }

  /** The verdict for an elevation hive once the elevation status is known. */
  function Verdict(root: int, elevated: bool): (r: Outcome<RegistryError>)
    ensures r.Pass? <==> elevated
  {
    if elevated then Pass else Fail(NotElevatedError(root))
  }

  /** Successive checks on one instance, each with what the probe would answer
      at that moment: their verdicts and how many times the probe was asked. */
  function RunGate(readOnly: bool, root: int, cache: Option<bool>, probes: seq<ProbeOutcome>): (run: (seq<Outcome<RegistryError>>, nat))
    ensures |run.0| == |probes|
    decreases |probes|
  {
    if |probes| == 0 then ([], 0)
    else
      var g := Gate(readOnly, root, cache, probes[0]);
      var rest := RunGate(readOnly, root, g.cache, probes[1..]);
      ([g.result] + rest.0, (if g.probed then 1 else 0) + rest.1)
  }

  /** Once the elevation status is cached, the probe is never asked again and
      every check gives the same verdict. */
  lemma {:induction false} CachedVerdictStable(readOnly: bool, root: int, elevated: bool, probes: seq<ProbeOutcome>)
    ensures var run := RunGate(readOnly, root, Some(elevated), probes);
      run.1 == 0 && forall k :: 0 <= k < |probes| ==> run.0[k] == Gate(readOnly, root, Some(elevated), Elevated(true)).result
    decreases |probes|
  {
    if |probes| > 0 {
      CachedVerdictStable(readOnly, root, elevated, probes[1..]);
    }
  }

  /** While the probe answers, it is asked at most once per instance, and all
      checks give the same verdict. */
  lemma {:induction false} VerdictStable(readOnly: bool, root: int, cache: Option<bool>, probes: seq<ProbeOutcome>)
    requires forall k :: 0 <= k < |probes| ==> probes[k].Elevated?
    ensures var run := RunGate(readOnly, root, cache, probes);
      && run.1 <= (if cache.None? then 1 else 0)
      && forall k :: 0 <= k < |probes| ==> run.0[k] == run.0[0]
    decreases |probes|
  {
    if |probes| > 0 {
      var g := Gate(readOnly, root, cache, probes[0]);
      match g.cache
      case Some(b) =>
        CachedVerdictStable(readOnly, root, b, probes[1..]);
        assert g.result == Gate(readOnly, root, Some(b), Elevated(true)).result;
      case None =>
        VerdictStable(readOnly, root, None, probes[1..]);
        if |probes| > 1 {
          assert Gate(readOnly, root, None, probes[1]).result == g.result;
        }
    }
  }

  /** A probe that fails is asked again at the next check. */
  lemma ProbeFailureNotCached(root: int, detail: string, probe: ProbeOutcome)
    requires RequiresElevation(root)
    ensures var g := Gate(false, root, None, ProbeFailed(detail));
      && g.result == Fail(ProbeFailedError(root, detail)) && g.cache == None
      && Gate(false, root, g.cache, probe).probed
  {
  }

  /** The (data, type) pair `put_registry_value` passes on: inferred when no
      type is given, else the normalized type and the validated data. */
  function ResolveValueForWrite(data: PyValue, valueType: PyValue, winregConstants: set<int>): (r: Result<(PyValue, int), BuiltinError>)
    ensures valueType.PyNone? ==> r == InferRegistryTypeForNewValue(data)
    ensures !valueType.PyNone? && NormalizeRegistryTypeInput(valueType, winregConstants).Failure? ==>
      r == Failure(NormalizeRegistryTypeInput(valueType, winregConstants).error)
    ensures !valueType.PyNone? && NormalizeRegistryTypeInput(valueType, winregConstants).Success? ==>
      var t := NormalizeRegistryTypeInput(valueType, winregConstants).value;
      r == match ValidateAndConvertDataForType(data, t)
        case Success(d) => Success((d, t))
        case Failure(e) => Failure(e)
  {
    if valueType.PyNone? then InferRegistryTypeForNewValue(data)
    else match NormalizeRegistryTypeInput(valueType, winregConstants)
      case Failure(e) => Failure(e)
      case Success(t) =>
        match ValidateAndConvertDataForType(data, t)
          case Failure(e) => Failure(e)
          case Success(d) => Success((d, t))
  }

  /** Whatever pair is written, it is one the validator accepts unchanged, with a
      tag of the package's own table. */
  lemma ResolvedIsValid(data: PyValue, valueType: PyValue, winregConstants: set<int>)
    requires ResolveValueForWrite(data, valueType, winregConstants).Success?
    ensures var (d, t) := ResolveValueForWrite(data, valueType, winregConstants).value;
      ValidateAndConvertDataForType(d, t) == Success(d) && KnownType(t)
  {
    if valueType.PyNone? {
      InferredIsValid(data);
    } else {
      var t := NormalizeRegistryTypeInput(valueType, winregConstants).value;
      ValidateIdempotent(data, t);
    }
  }

  /** A registry error raised by the facade, as a fault. */
  function Lift(o: Outcome<RegistryError>): (f: Outcome<Fault>)
    ensures f.Pass? <==> o.Pass?
  {
    match o
      case Pass => Pass
      case Fail(e) => Fail(Registry(e))
  }

  /** A gated write: refused with the gate's error and nothing done, or the write itself. */
  function Gated(gate: Outcome<RegistryError>, keys: map<Loc, KeyNode>, write: Step<Outcome<RegistryError>>): Step<Outcome<Fault>>
  {
    if gate.Fail? then Step(Fail(Registry(gate.error)), keys) else Step(Lift(write.result), write.keys)
  }

  /** `RegistryRoot.put_registry_value` after the gate passed. */
  function PutValueFacade(keys: map<Loc, KeyNode>, faults: map<Call, OsError>, now: int, hive: int, full: string, name: string,
                          data: PyValue, valueType: PyValue, winregConstants: set<int>, view32: bool): Step<Outcome<Fault>>
  {
    match ResolveValueForWrite(data, valueType, winregConstants)
      case Failure(e) => Step(Fail(Builtin(e)), keys)
      case Success(dt) =>
        var s := PutValueSpec(keys, faults, now, hive, full, name, dt.0, dt.1, view32);
        Step(Lift(s.result), s.keys)
  }

  class RegistryRoot {
    const rootKey: int
    /** The root key was given as a bool, which `normalize_root_key` keeps. */
    const rootIsBool: bool
    const rootPrefix: Option<string>
    const access32bitView: bool
    const readOnly: bool
    const ignoreElevationCheck: bool
    /** Whether the process is elevated, once known (`True` from the start when
        the check is ignored). */
    var elevatedCache: Option<bool>
    /** How many times the elevation probe has been asked. */
    ghost var probes: nat

    constructor (rootKey: int, rootIsBool: bool, rootPrefix: Option<string>, access32bitView: bool, readOnly: bool,
                 ignoreElevationCheck: bool)
      ensures this.rootKey == rootKey && this.rootIsBool == rootIsBool
      ensures this.rootPrefix == rootPrefix && this.access32bitView == access32bitView
      ensures this.readOnly == readOnly && this.ignoreElevationCheck == ignoreElevationCheck
      ensures elevatedCache == (if ignoreElevationCheck then Some(true) else None)
      ensures probes == 0
    {
      this.rootKey := rootKey;
      this.rootIsBool := rootIsBool;
      this.rootPrefix := rootPrefix;
      this.access32bitView := access32bitView;
      this.readOnly := readOnly;
      this.ignoreElevationCheck := ignoreElevationCheck;
      elevatedCache := if ignoreElevationCheck then Some(true) else None;
      probes := 0;
    }

    /** The full key path of `keyPath` below the prefix (a missing prefix is empty). */
    function FullPath(keyPath: string): string
    {
      JoinRegistryPaths(match rootPrefix case Some(p) => p case None => "", keyPath)
    }

    /** The `root_key_name` property. */
    function RootKeyName(): (name: string)
      ensures NormalizeRootKey(PyStr(name)) == if IsHive(rootKey) then Success(rootKey) else Failure(ValueError)
      ensures rootKey == HKEY_CLASSES_ROOT ==> name == "HKCR"
      ensures rootKey == HKEY_CURRENT_USER ==> name == "HKCU"
      ensures rootKey == HKEY_LOCAL_MACHINE ==> name == "HKLM"
      ensures rootKey == HKEY_USERS ==> name == "HKU"
      ensures rootIsBool && rootKey == 1 ==> name == "UnknownRoot(True)"
      ensures rootIsBool && rootKey == 0 ==> name == "UnknownRoot(False)"
    {
      RootKeyNameRoundTrip(rootKey, rootIsBool);
      DisplayName(rootKey, rootIsBool)
    }

    /** `_check_write_permission`. */
    method CheckWritePermission(probe: ProbeOutcome) returns (r: Outcome<RegistryError>)
      modifies this
      ensures var g := Gate(readOnly, rootKey, old(elevatedCache), probe);
        r == g.result && elevatedCache == g.cache && probes == old(probes) + (if g.probed then 1 else 0)
    {
      if readOnly {
        return Fail(Raise(Permission, READ_ONLY_MESSAGE));
      }
      if RequiresElevation(rootKey) {
        if elevatedCache.None? {
          probes := probes + 1;
          match probe {
            case ProbeFailed(detail) =>
              return Fail(ProbeFailedError(rootKey, detail));
            case Elevated(elevated) =>
              elevatedCache := Some(elevated);
          }
        }
        if !elevatedCache.value {
          return Fail(NotElevatedError(rootKey));
        }
      }
      r := Pass;
    }

    /** `put_registry_value`: gate, then infer or normalize and validate, then write. */
    method PutRegistryValue(os: Registry, probe: ProbeOutcome, keyPath: string, valueName: string, valueData: PyValue,
                            valueType: PyValue, winregConstants: set<int>) returns (r: Outcome<Fault>)
      requires os.Valid()
      modifies this, os
      ensures os.Valid() && os.handles == old(os.handles)
      ensures var g := Gate(readOnly, rootKey, old(elevatedCache), probe);
        g.result.Fail? ==> r == Fail(Registry(g.result.error)) && os.keys == old(os.keys) && os.log == old(os.log)
      ensures var g := Gate(readOnly, rootKey, old(elevatedCache), probe);
        && elevatedCache == g.cache && probes == old(probes) + (if g.probed then 1 else 0)
        && Step(r, os.keys) == if g.result.Fail? then Step(Fail(Registry(g.result.error)), old(os.keys))
           else PutValueFacade(old(os.keys), os.faults, os.now, rootKey, FullPath(keyPath), valueName, valueData,
                               valueType, winregConstants, access32bitView)
    {
      var gate := CheckWritePermission(probe);
      if gate.Fail? {
        return Fail(Registry(gate.error));
      }
      var resolved := ResolveValueForWrite(valueData, valueType, winregConstants);
      if resolved.Failure? {
        return Fail(Builtin(resolved.error));
      }
      var (data, tag) := resolved.value;
      var written := RegistryBase.PutRegistryValue(os, rootKey, keyPath, valueName, data, tag,
                                                   match rootPrefix case Some(p) => p case None => "", access32bitView);
      r := Lift(written);
    }

    /** `put_registry_subkey`. */
    method PutRegistrySubkey(os: Registry, probe: ProbeOutcome, keyPath: string, subkeyName: string) returns (r: Outcome<Fault>)
      requires os.Valid()
      modifies this, os
      ensures os.Valid() && os.handles == old(os.handles)
      ensures var g := Gate(readOnly, rootKey, old(elevatedCache), probe);
        g.result.Fail? ==> r == Fail(Registry(g.result.error)) && os.keys == old(os.keys) && os.log == old(os.log)
      ensures var g := Gate(readOnly, rootKey, old(elevatedCache), probe);
        && elevatedCache == g.cache && probes == old(probes) + (if g.probed then 1 else 0)
        && Step(r, os.keys) == Gated(g.result, old(os.keys),
             PutSubkeySpec(old(os.keys), os.faults, os.now, rootKey, FullPath(keyPath), subkeyName, access32bitView))
    {
      var gate := CheckWritePermission(probe);
      if gate.Fail? {
        return Fail(Registry(gate.error));
      }
      var written := RegistryBase.PutRegistrySubkey(os, rootKey, keyPath, subkeyName,
                                                    match rootPrefix case Some(p) => p case None => "", access32bitView);
      r := Lift(written);
    }

    /** `get_registry_value`: not gated. */
    method GetRegistryValue(os: Registry, keyPath: string, valueName: string) returns (r: Result<RegistryValue, RegistryError>)
      requires os.Valid()
      modifies os
      ensures os.Valid() && os.handles == old(os.handles) && os.keys == old(os.keys)
      ensures r == GetValueSpec(os.keys, os.faults, rootKey, FullPath(keyPath), valueName, access32bitView)
    {
      r := RegistryBase.GetRegistryValue(os, rootKey, keyPath, valueName,
                                         match rootPrefix case Some(p) => p case None => "", access32bitView);
    }

    /** `list_registry_values`: not gated. */
    method ListRegistryValues(os: Registry, keyPath: string) returns (r: Result<seq<RegistryValue>, RegistryError>)
      requires os.Valid()
      modifies os
      ensures os.Valid() && os.handles == old(os.handles) && os.keys == old(os.keys)
      ensures r == ListValuesSpec(os.keys, os.faults, rootKey, FullPath(keyPath), access32bitView)
    {
      r := RegistryBase.ListRegistryValues(os, rootKey, keyPath, match rootPrefix case Some(p) => p case None => "", access32bitView);
    }

    /** `list_registry_subkeys`: not gated. */
    method ListRegistrySubkeys(os: Registry, keyPath: string) returns (r: Result<seq<string>, RegistryError>)
      requires os.Valid()
      modifies os
      ensures os.Valid() && os.handles == old(os.handles) && os.keys == old(os.keys)
      ensures r == ListSubkeysSpec(os.keys, os.faults, rootKey, FullPath(keyPath), access32bitView)
    {
      r := RegistryBase.ListRegistrySubkeys(os, rootKey, keyPath, match rootPrefix case Some(p) => p case None => "", access32bitView);
    }

    /** `head_registry_key`: not gated. */
    method HeadRegistryKey(os: Registry, keyPath: string) returns (r: Result<KeyHead, RegistryError>)
      requires os.Valid()
      modifies os
      ensures os.Valid() && os.handles == old(os.handles) && os.keys == old(os.keys)
      ensures r == HeadSpec(os.keys, os.faults, rootKey, FullPath(keyPath), access32bitView)
    {
      r := RegistryBase.HeadRegistryKey(os, rootKey, keyPath, match rootPrefix case Some(p) => p case None => "", access32bitView);
    }

    /** `delete_registry_value`. */
    method DeleteRegistryValue(os: Registry, probe: ProbeOutcome, keyPath: string, valueName: string) returns (r: Outcome<Fault>)
      requires os.Valid()
      modifies this, os
      ensures os.Valid() && os.handles == old(os.handles)
      ensures var g := Gate(readOnly, rootKey, old(elevatedCache), probe);
        g.result.Fail? ==> r == Fail(Registry(g.result.error)) && os.keys == old(os.keys) && os.log == old(os.log)
      ensures var g := Gate(readOnly, rootKey, old(elevatedCache), probe);
        && elevatedCache == g.cache && probes == old(probes) + (if g.probed then 1 else 0)
        && Step(r, os.keys) == Gated(g.result, old(os.keys),
             DeleteValueSpec(old(os.keys), os.faults, os.now, rootKey, FullPath(keyPath), valueName, access32bitView))
    {
      var gate := CheckWritePermission(probe);
      if gate.Fail? {
        return Fail(Registry(gate.error));
      }
      var deleted := RegistryBase.DeleteRegistryValue(os, rootKey, keyPath, valueName,
                                                      match rootPrefix case Some(p) => p case None => "", access32bitView);
      r := Lift(deleted);
    }

    /** `delete_registry_key`. */
    method DeleteRegistryKey(os: Registry, probe: ProbeOutcome, keyPath: string) returns (r: Outcome<Fault>)
      requires os.Valid()
      modifies this, os
      ensures os.Valid() && os.handles == old(os.handles)
      ensures var g := Gate(readOnly, rootKey, old(elevatedCache), probe);
        g.result.Fail? ==> r == Fail(Registry(g.result.error)) && os.keys == old(os.keys) && os.log == old(os.log)
      ensures var g := Gate(readOnly, rootKey, old(elevatedCache), probe);
        && elevatedCache == g.cache && probes == old(probes) + (if g.probed then 1 else 0)
        && Step(r, os.keys) == if g.result.Fail? then Step(Fail(Registry(g.result.error)), old(os.keys))
           else DeleteKeySpec(old(os.keys), os.faults, rootKey, FullPath(keyPath), access32bitView)
    {
      var gate := CheckWritePermission(probe);
      if gate.Fail? {
        return Fail(Registry(gate.error));
      }
      r := RegistryBase.DeleteRegistryKey(os, rootKey, keyPath, match rootPrefix case Some(p) => p case None => "", access32bitView);
    }
  }

  /** `RegistryRoot(root_key, ...)`: the root key is normalized first, and a bad
      one raises before any instance exists. */
  method NewRegistryRoot(rootKey: PyValue, rootPrefix: Option<string>, access32bitView: bool, readOnly: bool,
                         ignoreElevationCheck: bool) returns (r: Result<RegistryRoot, BuiltinError>)
    ensures NormalizeRootKey(rootKey).Failure? ==> r == Failure(NormalizeRootKey(rootKey).error)
    ensures NormalizeRootKey(rootKey).Success? ==>
      && r.Success? && fresh(r.value)
      && r.value.rootKey == NormalizeRootKey(rootKey).value && r.value.rootPrefix == rootPrefix
      && r.value.rootIsBool == rootKey.PyBool?
      && r.value.access32bitView == access32bitView && r.value.readOnly == readOnly
      && r.value.ignoreElevationCheck == ignoreElevationCheck
      && r.value.elevatedCache == (if ignoreElevationCheck then Some(true) else None)
      && r.value.probes == 0
  {
    match NormalizeRootKey(rootKey) {
      case Failure(e) =>
        r := Failure(e);
      case Success(root) =>
        var instance := new RegistryRoot(root, rootKey.PyBool?, rootPrefix, access32bitView, readOnly, ignoreElevationCheck);
        r := Success(instance);
    }
  }
}
