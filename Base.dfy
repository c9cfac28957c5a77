/** `registry_base`: the registry operations on a hive handle, each opening the
    key it needs, calling the winreg primitives and translating every OS error.
    Each operation is a method on the OS registry, proved equal to a pure
    specification of its result and of the store it leaves behind. */
module RegistryBase {
  import opened Wrappers
  import opened PyValues
  import opened Text
  import opened RegistryErrors
  import opened RegistryTypes
  import opened OsRegistry
  import opened RegistryContext
  import opened RegistryPaths

  /** 1970-01-01 as a FILETIME, and FILETIME ticks (100 ns) per second. */
  const EPOCH_AS_FILETIME: int := 116444736000000000
  const HUNDREDS_OF_NS: int := 10000000

  /** A result together with the store the operation leaves. */
  datatype Step<R> = Step(result: R, keys: map<Loc, KeyNode>)

  /** `head_registry_key`'s dictionary. */
  datatype KeyHead = KeyHead(numSubkeys: nat, numValues: nat, lastWriteTime: real)

  /** Seconds since 1970 of a FILETIME. */
  function UnixTimestamp(fileTime: int): (t: real)
    ensures t * HUNDREDS_OF_NS as real == (fileTime - EPOCH_AS_FILETIME) as real
  {
    (fileTime - EPOCH_AS_FILETIME) as real / HUNDREDS_OF_NS as real
  }

  /** What entering `RegistryKey(hive, path, access, view32)` yields: the open
      handle's description, or the translated error. */
  function Opened(keys: map<Loc, KeyNode>, faults: map<Call, OsError>, hive: int, path: string, access: bv32, view32: bool)
    : (r: Result<HandleInfo, RegistryError>)
    ensures r.Success? <==> OpenOutcome(keys, faults, LocOf(hive, path, EffectiveAccess(access, view32))).None?
    ensures r.Success? ==> r.value == HandleInfo(LocOf(hive, path, EffectiveAccess(access, view32)), EffectiveAccess(access, view32))
  {
    var a := EffectiveAccess(access, view32);
    match OpenOutcome(keys, faults, LocOf(hive, path, a))
      case Some(e) => Failure(HandleWinregError(OsErr(e), path, None))
      case None => Success(HandleInfo(LocOf(hive, path, a), a))
  }

  /** `CreateKeyEx(hive, path, KEY_WRITE)` followed by `CloseKey`, errors of
      either translated against `path`. */
  function CreateAndClose(keys: map<Loc, KeyNode>, faults: map<Call, OsError>, now: int, hive: int, path: string, view32: bool)
    : (s: Step<Outcome<RegistryError>>)
    ensures s.result.Pass? ==> Exists(s.keys, LocOf(hive, path, EffectiveAccess(KEY_WRITE, view32)))
  {
    var loc := LocOf(hive, path, EffectiveAccess(KEY_WRITE, view32));
    match CreateOutcome(faults, loc)
      case Some(e) => Step(Fail(HandleWinregError(OsErr(e), path, None)), keys)
      case None =>
        var created := WithKey(keys, loc, now);
        match CloseOutcome(faults, loc)
          case Some(e) => Step(Fail(HandleWinregError(OsErr(e), path, None)), created)
          case None => Step(Pass, created)
  }

  /** `ensure_registry_key_exists` on the joined path. */
  function EnsureSpec(keys: map<Loc, KeyNode>, faults: map<Call, OsError>, now: int, hive: int, full: string, view32: bool)
    : Step<Outcome<RegistryError>>
  {
    if full == "" then Step(Pass, keys) else CreateAndClose(keys, faults, now, hive, full, view32)
  }

  /** `put_registry_value` on the joined path. */
  function PutValueSpec(keys: map<Loc, KeyNode>, faults: map<Call, OsError>, now: int, hive: int, full: string,
                        name: string, data: PyValue, valueType: int, view32: bool): Step<Outcome<RegistryError>>
  {
    var ensured := EnsureSpec(keys, faults, now, hive, full, view32);
    if ensured.result.Fail? then ensured
    else
      var k := ensured.keys;
      match Opened(k, faults, hive, full, KEY_SET_VALUE, view32)
        case Failure(err) => Step(Fail(err), k)
        case Success(h) =>
          match SetValueOutcome(k, faults, h, name)
            case Some(e) => Step(Fail(HandleWinregError(OsErr(e), full, Some(name))), k)
            case None => Step(Pass, WithValue(k, h.loc, Entry(name, data, valueType), now))
  }

  /** `put_registry_subkey`: ensures the parent, then creates the joined subkey. */
  function PutSubkeySpec(keys: map<Loc, KeyNode>, faults: map<Call, OsError>, now: int, hive: int, parent: string,
                         subkeyName: string, view32: bool): Step<Outcome<RegistryError>>
  {
    var ensured := EnsureSpec(keys, faults, now, hive, parent, view32);
    if ensured.result.Fail? then ensured
    else CreateAndClose(ensured.keys, faults, now, hive, JoinRegistryPaths(parent, subkeyName), view32)
  }

  function ValueNotFoundMessage(name: string, full: string): string
  {
    "Registry value '" + name + "' not found in key '" + full + "'."
  }

  /** `get_registry_value` on the joined path. */
  function GetValueSpec(keys: map<Loc, KeyNode>, faults: map<Call, OsError>, hive: int, full: string, name: string, view32: bool)
    : Result<RegistryValue, RegistryError>
  {
    match Opened(keys, faults, hive, full, KEY_READ, view32)
      case Failure(err) => Failure(err)
      case Success(h) =>
        match QueryValueOutcome(keys, faults, h, name)
          case Success(dt) => Success(MakeValue(name, dt.0, dt.1))
          case Failure(e) =>
            if e.winerror == Some(ERROR_FILE_NOT_FOUND) then Failure(Raise(ValueNotFound, ValueNotFoundMessage(name, full)))
            else Failure(HandleWinregError(OsErr(e), full, Some(name)))
  }

  /** `xs` put in front of a successful enumeration; a failure stays a failure. */
  function Prepend<T>(xs: seq<T>, r: Result<seq<T>, RegistryError>): Result<seq<T>, RegistryError>
  {
    match r
      case Success(ys) => Success(xs + ys)
      case Failure(e) => Failure(e)
  }

  lemma PrependNothing<T>(r: Result<seq<T>, RegistryError>)
    ensures Prepend([], r) == r
  {
    if r.Success? {
      assert [] + r.value == r.value;
    }
  }

  lemma PrependTwice<T>(xs: seq<T>, ys: seq<T>, r: Result<seq<T>, RegistryError>)
    ensures Prepend(xs, Prepend(ys, r)) == Prepend(xs + ys, r)
  {
    if r.Success? {
      assert xs + (ys + r.value) == (xs + ys) + r.value;
    }
  }

  /** Closing the handle opened last gives back the handle table of before. */
  lemma HandleReleased(before: map<Handle, HandleInfo>, h: Handle, info: HandleInfo)
    requires h !in before
    ensures before[h := info] - {h} == before
  {
  }

  /** Enumerating values from index `i` until no-more-items; any other error ends
      the whole listing with that error. */
  function ValuesFrom(keys: map<Loc, KeyNode>, faults: map<Call, OsError>, h: HandleInfo, i: nat, full: string)
    : Result<seq<RegistryValue>, RegistryError>
    decreases |NodeAt(keys, h.loc).values| - i
  {
    match EnumValueOutcome(keys, faults, h, i)
      case Success(e) => Prepend([MakeValue(e.name, e.data, e.valueType)], ValuesFrom(keys, faults, h, i + 1, full))
      case Failure(e) =>
        if e.winerror == Some(ERROR_NO_MORE_ITEMS) then Success([])
        else Failure(HandleWinregError(OsErr(e), full, None))
  }

  /** `list_registry_values` on the joined path. */
  function ListValuesSpec(keys: map<Loc, KeyNode>, faults: map<Call, OsError>, hive: int, full: string, view32: bool)
    : Result<seq<RegistryValue>, RegistryError>
  {
    match Opened(keys, faults, hive, full, KEY_READ, view32)
      case Failure(err) => Failure(err)
      case Success(h) => ValuesFrom(keys, faults, h, 0, full)
  }

  /** Enumerating subkey names from index `i`. */
  function SubkeysFrom(keys: map<Loc, KeyNode>, faults: map<Call, OsError>, h: HandleInfo, i: nat, full: string)
    : Result<seq<string>, RegistryError>
    decreases |NodeAt(keys, h.loc).subkeys| - i
  {
    match EnumKeyOutcome(keys, faults, h, i)
      case Success(name) => Prepend([name], SubkeysFrom(keys, faults, h, i + 1, full))
      case Failure(e) =>
        if e.winerror == Some(ERROR_NO_MORE_ITEMS) then Success([])
        else Failure(HandleWinregError(OsErr(e), full, None))
  }

  /** `list_registry_subkeys` on the joined path. */
  function ListSubkeysSpec(keys: map<Loc, KeyNode>, faults: map<Call, OsError>, hive: int, full: string, view32: bool)
    : Result<seq<string>, RegistryError>
  {
    match Opened(keys, faults, hive, full, KEY_ENUMERATE_SUB_KEYS, view32)
      case Failure(err) => Failure(err)
      case Success(h) => SubkeysFrom(keys, faults, h, 0, full)
  }

  /** `head_registry_key` on the joined path. */
  function HeadSpec(keys: map<Loc, KeyNode>, faults: map<Call, OsError>, hive: int, full: string, view32: bool)
    : Result<KeyHead, RegistryError>
  {
    match Opened(keys, faults, hive, full, KEY_READ, view32)
      case Failure(err) => Failure(err)
      case Success(h) =>
        match QueryInfoOutcome(keys, faults, h)
          case Success(info) => Success(KeyHead(info.numSubkeys, info.numValues, UnixTimestamp(info.lastWrite)))
          case Failure(e) => Failure(HandleWinregError(OsErr(e), full, None))
  }

  /** `delete_registry_value` on the joined path: a missing value is not an error. */
  function DeleteValueSpec(keys: map<Loc, KeyNode>, faults: map<Call, OsError>, now: int, hive: int, full: string,
                           name: string, view32: bool): Step<Outcome<RegistryError>>
  {
    match Opened(keys, faults, hive, full, KEY_SET_VALUE, view32)
      case Failure(err) => Step(Fail(err), keys)
      case Success(h) =>
        match DeleteValueOutcome(keys, faults, h, name)
          case None => Step(Pass, WithoutValue(keys, h.loc, name, now))
          case Some(e) =>
            if e.winerror == Some(ERROR_FILE_NOT_FOUND) then Step(Pass, keys)
            else Step(Fail(HandleWinregError(OsErr(e), full, Some(name))), keys)
  }

  function NotEmptyMessage(full: string, numSubkeys: nat, numValues: nat): string
  {
    "Registry key '" + full + "' is not empty (contains " + NatToString(numSubkeys) + " subkeys and "
      + NatToString(numValues) + " values). Cannot delete non-empty keys."
  }

  /** Phase 1 of `delete_registry_key`: the key must open and be empty. */
  function CheckEmpty(keys: map<Loc, KeyNode>, faults: map<Call, OsError>, hive: int, full: string, view32: bool)
    : Outcome<RegistryError>
  {
    match Opened(keys, faults, hive, full, KEY_READ, view32)
      case Failure(err) => Fail(err)
      case Success(h) =>
        match QueryInfoOutcome(keys, faults, h)
          case Failure(e) => Fail(HandleWinregError(OsErr(e), full, None))
          case Success(info) =>
            if info.numSubkeys > 0 || info.numValues > 0
            then Fail(Raise(KeyNotEmpty, NotEmptyMessage(full, info.numSubkeys, info.numValues)))
            else Pass
  }

  /** Phase 2 of `delete_registry_key`: delete `name` through its parent key. */
  function DeleteThroughParent(keys: map<Loc, KeyNode>, faults: map<Call, OsError>, hive: int, full: string,
                               parent: string, name: string, view32: bool): Step<Outcome<Fault>>
  {
    match Opened(keys, faults, hive, parent, KEY_CREATE_SUB_KEY, view32)
      case Failure(err) => Step(Fail(Registry(err)), keys)
      case Success(h) =>
        match DeleteKeyOutcome(keys, faults, h, name)
          case Some(e) => Step(Fail(Registry(HandleWinregError(OsErr(e), full, None))), keys)
          case None => Step(Pass, WithoutKey(keys, ChildLoc(h, name)))
  }

  /** `delete_registry_key` on the joined path, with the parent/name split given. */
  function DeleteKeyWith(split: string -> (string, string), keys: map<Loc, KeyNode>, faults: map<Call, OsError>,
                         hive: int, full: string, view32: bool): Step<Outcome<Fault>>
  {
    if full == "" then Step(Fail(Builtin(ValueError)), keys)
    else match CheckEmpty(keys, faults, hive, full, view32)
      case Fail(err) => Step(Fail(Registry(err)), keys)
      case Pass =>
        var (parent, name) := split(full);
        DeleteThroughParent(keys, faults, hive, full, parent, name, view32)
  }

  /** `delete_registry_key`, splitting at the last backslash. */
  function DeleteKeySpec(keys: map<Loc, KeyNode>, faults: map<Call, OsError>, hive: int, full: string, view32: bool)
    : Step<Outcome<Fault>>
  {
    DeleteKeyWith(SplitKeyPath, keys, faults, hive, full, view32)
  }

  /** `CreateKeyEx` and `CloseKey` on `path`, as `ensure_registry_key_exists` and
      `put_registry_subkey` both do. */
  method CreateAndCloseKey(os: Registry, hive: int, path: string, view32: bool) returns (r: Outcome<RegistryError>)
    requires os.Valid()
    modifies os
    ensures os.Valid() && os.handles == old(os.handles)
    ensures Step(r, os.keys) == CreateAndClose(old(os.keys), os.faults, os.now, hive, path, view32)
  {
    var created := os.CreateKeyEx(hive, path, EffectiveAccess(KEY_WRITE, view32));
    match created
    case Failure(e) =>
      r := Fail(HandleWinregError(OsErr(e), path, None));
    case Success(h) =>
      ghost var before := old(os.handles);
      var closed := os.CloseKey(h);
      HandleReleased(before, h, HandleInfo(LocOf(hive, path, EffectiveAccess(KEY_WRITE, view32)), EffectiveAccess(KEY_WRITE, view32)));
      r := if closed.Some? then Fail(HandleWinregError(OsErr(closed.value), path, None)) else Pass;
  }

  /** `ensure_registry_key_exists`. */
  method EnsureRegistryKeyExists(os: Registry, hive: int, keyPath: string, rootPrefix: string, view32: bool)
    returns (r: Outcome<RegistryError>)
    requires os.Valid()
    modifies os
    ensures os.Valid() && os.handles == old(os.handles)
    ensures Step(r, os.keys) == EnsureSpec(old(os.keys), os.faults, os.now, hive, JoinRegistryPaths(rootPrefix, keyPath), view32)
    ensures JoinRegistryPaths(rootPrefix, keyPath) == "" ==> os.log == old(os.log)
  {
    var full := JoinRegistryPaths(rootPrefix, keyPath);
    if full == "" {
      return Pass;
    }
    r := CreateAndCloseKey(os, hive, full, view32);
  }

  /** `put_registry_value`: the data and type are stored as given. */
  method PutRegistryValue(os: Registry, hive: int, keyPath: string, valueName: string, valueData: PyValue,
                          valueType: int, rootPrefix: string, view32: bool) returns (r: Outcome<RegistryError>)
    requires os.Valid()
    modifies os
    ensures os.Valid() && os.handles == old(os.handles)
    ensures Step(r, os.keys) == PutValueSpec(old(os.keys), os.faults, os.now, hive, JoinRegistryPaths(rootPrefix, keyPath),
                                             valueName, valueData, valueType, view32)
  {
    var full := JoinRegistryPaths(rootPrefix, keyPath);
    r := EnsureRegistryKeyExists(os, hive, full, "", view32);
    if r.Fail? {
      return;
    }
    var key := new RegistryKey(hive, full, KEY_SET_VALUE, view32);
    var entered := key.Enter(os);
    if entered.Failure? {
      return Fail(CatchOuter(entered.error, full, Some(valueName)));
    }
    var stored := os.SetValueEx(entered.value, valueName, valueType, valueData);
    ghost var held := os.handles[entered.value];
    key.Exit(os);
    HandleReleased(old(os.handles), entered.value, held);
    r := if stored.Some? then Fail(HandleWinregError(OsErr(stored.value), full, Some(valueName))) else Pass;
  }

  /** `put_registry_subkey`. */
  method PutRegistrySubkey(os: Registry, hive: int, keyPath: string, subkeyName: string, rootPrefix: string, view32: bool)
    returns (r: Outcome<RegistryError>)
    requires os.Valid()
    modifies os
    ensures os.Valid() && os.handles == old(os.handles)
    ensures Step(r, os.keys) == PutSubkeySpec(old(os.keys), os.faults, os.now, hive, JoinRegistryPaths(rootPrefix, keyPath),
                                              subkeyName, view32)
  {
    var parent := JoinRegistryPaths(rootPrefix, keyPath);
    var sub := JoinRegistryPaths(parent, subkeyName);
    r := EnsureRegistryKeyExists(os, hive, parent, "", view32);
    if r.Fail? {
      return;
    }
    r := CreateAndCloseKey(os, hive, sub, view32);
  }

  /** `get_registry_value`. */
  method GetRegistryValue(os: Registry, hive: int, keyPath: string, valueName: string, rootPrefix: string, view32: bool)
    returns (r: Result<RegistryValue, RegistryError>)
    requires os.Valid()
    modifies os
    ensures os.Valid() && os.handles == old(os.handles) && os.keys == old(os.keys)
    ensures r == GetValueSpec(os.keys, os.faults, hive, JoinRegistryPaths(rootPrefix, keyPath), valueName, view32)
  {
    var full := JoinRegistryPaths(rootPrefix, keyPath);
    var key := new RegistryKey(hive, full, KEY_READ, view32);
    var entered := key.Enter(os);
    if entered.Failure? {
      return Failure(CatchOuter(entered.error, full, None));
    }
    var queried := os.QueryValueEx(entered.value, valueName);
    match queried {
      case Success(dt) =>
        r := Success(MakeValue(valueName, dt.0, dt.1));
      case Failure(e) =>
        if e.winerror == Some(ERROR_FILE_NOT_FOUND) {
          r := Failure(Raise(ValueNotFound, ValueNotFoundMessage(valueName, full)));
        } else {
          r := Failure(HandleWinregError(OsErr(e), full, Some(valueName)));
        }
    }
    ghost var held := os.handles[entered.value];
    key.Exit(os);
    HandleReleased(old(os.handles), entered.value, held);
    if r.Failure? {
      r := Failure(CatchOuter(r.error, full, None));
    }
  }

  /** `list_registry_values`: enumerates until no-more-items. */
  method ListRegistryValues(os: Registry, hive: int, keyPath: string, rootPrefix: string, view32: bool)
    returns (r: Result<seq<RegistryValue>, RegistryError>)
    requires os.Valid()
    modifies os
    ensures os.Valid() && os.handles == old(os.handles) && os.keys == old(os.keys)
    ensures r == ListValuesSpec(os.keys, os.faults, hive, JoinRegistryPaths(rootPrefix, keyPath), view32)
  {
    var full := JoinRegistryPaths(rootPrefix, keyPath);
    var key := new RegistryKey(hive, full, KEY_READ, view32);
    var entered := key.Enter(os);
    if entered.Failure? {
      return Failure(CatchOuter(entered.error, full, None));
    }
    var h := entered.value;
    ghost var info := os.handles[h];
    var values: seq<RegistryValue> := [];
    var i: nat := 0;
    PrependNothing(ValuesFrom(os.keys, os.faults, info, 0, full));
    while true
      invariant os.Valid() && key.HoldsOpen(os) && key.keyHandle == Some(h)
      invariant os.keys == old(os.keys) && os.handles == old(os.handles)[h := info]
      invariant i <= |NodeAt(os.keys, info.loc).values|
      invariant ValuesFrom(os.keys, os.faults, info, 0, full) == Prepend(values, ValuesFrom(os.keys, os.faults, info, i, full))
      decreases |NodeAt(os.keys, info.loc).values| - i
    {
      var item := os.EnumValue(h, i);
      if item.Failure? {
        if item.error.winerror == Some(ERROR_NO_MORE_ITEMS) {
          assert values + [] == values;
          r := Success(values);
        } else {
          r := Failure(HandleWinregError(OsErr(item.error), full, None));
        }
        break;
      }
      PrependTwice(values, [MakeValue(item.value.name, item.value.data, item.value.valueType)],
                   ValuesFrom(os.keys, os.faults, info, i + 1, full));
      values := values + [MakeValue(item.value.name, item.value.data, item.value.valueType)];
      i := i + 1;
    }
    assert Opened(os.keys, os.faults, hive, full, KEY_READ, view32) == Success(info);
    ghost var held := os.handles[entered.value];
    key.Exit(os);
    HandleReleased(old(os.handles), entered.value, held);
    if r.Failure? {
      r := Failure(CatchOuter(r.error, full, None));
    }
  }

  /** `list_registry_subkeys`: enumerates until no-more-items. */
  method ListRegistrySubkeys(os: Registry, hive: int, keyPath: string, rootPrefix: string, view32: bool)
    returns (r: Result<seq<string>, RegistryError>)
    requires os.Valid()
    modifies os
    ensures os.Valid() && os.handles == old(os.handles) && os.keys == old(os.keys)
    ensures r == ListSubkeysSpec(os.keys, os.faults, hive, JoinRegistryPaths(rootPrefix, keyPath), view32)
  {
    var full := JoinRegistryPaths(rootPrefix, keyPath);
    var key := new RegistryKey(hive, full, KEY_ENUMERATE_SUB_KEYS, view32);
    var entered := key.Enter(os);
    if entered.Failure? {
      return Failure(CatchOuter(entered.error, full, None));
    }
    var h := entered.value;
    ghost var info := os.handles[h];
    var names: seq<string> := [];
    var i: nat := 0;
    PrependNothing(SubkeysFrom(os.keys, os.faults, info, 0, full));
    while true
      invariant os.Valid() && key.HoldsOpen(os) && key.keyHandle == Some(h)
      invariant os.keys == old(os.keys) && os.handles == old(os.handles)[h := info]
      invariant i <= |NodeAt(os.keys, info.loc).subkeys|
      invariant SubkeysFrom(os.keys, os.faults, info, 0, full) == Prepend(names, SubkeysFrom(os.keys, os.faults, info, i, full))
      decreases |NodeAt(os.keys, info.loc).subkeys| - i
    {
      var item := os.EnumKey(h, i);
      if item.Failure? {
        if item.error.winerror == Some(ERROR_NO_MORE_ITEMS) {
          assert names + [] == names;
          r := Success(names);
        } else {
          r := Failure(HandleWinregError(OsErr(item.error), full, None));
        }
        break;
      }
      PrependTwice(names, [item.value], SubkeysFrom(os.keys, os.faults, info, i + 1, full));
      names := names + [item.value];
      i := i + 1;
    }
    assert Opened(os.keys, os.faults, hive, full, KEY_ENUMERATE_SUB_KEYS, view32) == Success(info);
    ghost var held := os.handles[entered.value];
    key.Exit(os);
    HandleReleased(old(os.handles), entered.value, held);
    if r.Failure? {
      r := Failure(CatchOuter(r.error, full, None));
    }
  }

  /** `head_registry_key`. */
  method HeadRegistryKey(os: Registry, hive: int, keyPath: string, rootPrefix: string, view32: bool)
    returns (r: Result<KeyHead, RegistryError>)
    requires os.Valid()
    modifies os
    ensures os.Valid() && os.handles == old(os.handles) && os.keys == old(os.keys)
    ensures r == HeadSpec(os.keys, os.faults, hive, JoinRegistryPaths(rootPrefix, keyPath), view32)
  {
    var full := JoinRegistryPaths(rootPrefix, keyPath);
    var key := new RegistryKey(hive, full, KEY_READ, view32);
    var entered := key.Enter(os);
    if entered.Failure? {
      return Failure(CatchOuter(entered.error, full, None));
    }
    var queried := os.QueryInfoKey(entered.value);
    match queried {
      case Success(info) =>
        r := Success(KeyHead(info.numSubkeys, info.numValues, UnixTimestamp(info.lastWrite)));
      case Failure(e) =>
        r := Failure(HandleWinregError(OsErr(e), full, None));
    }
    ghost var held := os.handles[entered.value];
    key.Exit(os);
    HandleReleased(old(os.handles), entered.value, held);
    if r.Failure? {
      r := Failure(CatchOuter(r.error, full, None));
    }
  }

  /** `delete_registry_value`. */
  method DeleteRegistryValue(os: Registry, hive: int, keyPath: string, valueName: string, rootPrefix: string, view32: bool)
    returns (r: Outcome<RegistryError>)
    requires os.Valid()
    modifies os
    ensures os.Valid() && os.handles == old(os.handles)
    ensures Step(r, os.keys) == DeleteValueSpec(old(os.keys), os.faults, os.now, hive, JoinRegistryPaths(rootPrefix, keyPath),
                                                valueName, view32)
  {
    var full := JoinRegistryPaths(rootPrefix, keyPath);
    var key := new RegistryKey(hive, full, KEY_SET_VALUE, view32);
    var entered := key.Enter(os);
    if entered.Failure? {
      return Fail(CatchOuter(entered.error, full, None));
    }
    var deleted := os.DeleteValue(entered.value, valueName);
    r := Pass;
    if deleted.Some? && deleted.value.winerror != Some(ERROR_FILE_NOT_FOUND) {
      r := Fail(HandleWinregError(OsErr(deleted.value), full, Some(valueName)));
    }
    ghost var held := os.handles[entered.value];
    key.Exit(os);
    HandleReleased(old(os.handles), entered.value, held);
    if r.Fail? {
      r := Fail(CatchOuter(r.error, full, None));
    }
  }

  /** `delete_registry_key`: refuses the hive itself, checks that the key is
      empty, then deletes it through its parent. */
  method DeleteRegistryKey(os: Registry, hive: int, keyPath: string, rootPrefix: string, view32: bool)
    returns (r: Outcome<Fault>)
    requires os.Valid()
    modifies os
    ensures os.Valid() && os.handles == old(os.handles)
    ensures Step(r, os.keys) == DeleteKeySpec(old(os.keys), os.faults, hive, JoinRegistryPaths(rootPrefix, keyPath), view32)
    ensures JoinRegistryPaths(rootPrefix, keyPath) == "" ==> os.log == old(os.log)
  {
    var full := JoinRegistryPaths(rootPrefix, keyPath);
    if full == "" {
      return Fail(Builtin(ValueError));
    }
    var checked := CheckKeyEmpty(os, hive, full, view32);
    if checked.Fail? {
      return Fail(Registry(checked.error));
    }
    var (parent, name) := SplitKeyPath(full);
    r := DeleteKeyThroughParent(os, hive, full, parent, name, view32);
  }

  /** Phase 1 of `delete_registry_key`. */
  method CheckKeyEmpty(os: Registry, hive: int, full: string, view32: bool) returns (r: Outcome<RegistryError>)
    requires os.Valid()
    modifies os
    ensures os.Valid() && os.handles == old(os.handles) && os.keys == old(os.keys)
    ensures r == CheckEmpty(os.keys, os.faults, hive, full, view32)
  {
    var key := new RegistryKey(hive, full, KEY_READ, view32);
    var entered := key.Enter(os);
    if entered.Failure? {
      return Fail(CatchOuter(entered.error, full, None));
    }
    var queried := os.QueryInfoKey(entered.value);
    match queried {
      case Failure(e) =>
        r := Fail(HandleWinregError(OsErr(e), full, None));
      case Success(info) =>
        if info.numSubkeys > 0 || info.numValues > 0 {
          r := Fail(Raise(KeyNotEmpty, NotEmptyMessage(full, info.numSubkeys, info.numValues)));
        } else {
          r := Pass;
        }
    }
    ghost var held := os.handles[entered.value];
    key.Exit(os);
    HandleReleased(old(os.handles), entered.value, held);
    if r.Fail? {
      r := Fail(CatchOuter(r.error, full, None));
    }
  }

  /** Phase 2 of `delete_registry_key`. */
  method DeleteKeyThroughParent(os: Registry, hive: int, full: string, parent: string, name: string, view32: bool)
    returns (r: Outcome<Fault>)
    requires os.Valid()
    modifies os
    ensures os.Valid() && os.handles == old(os.handles)
    ensures Step(r, os.keys) == DeleteThroughParent(old(os.keys), os.faults, hive, full, parent, name, view32)
  {
    var key := new RegistryKey(hive, parent, KEY_CREATE_SUB_KEY, view32);
    var entered := key.Enter(os);
    if entered.Failure? {
      return Fail(Registry(CatchOuter(entered.error, parent, None)));
    }
    var deleted := os.DeleteKey(entered.value, name);
    ghost var held := os.handles[entered.value];
    key.Exit(os);
    HandleReleased(old(os.handles), entered.value, held);
    if deleted.Some? {
      r := Fail(Registry(CatchOuter(HandleWinregError(OsErr(deleted.value), full, None), parent, None)));
    } else {
      r := Pass;
    }
  }
}
