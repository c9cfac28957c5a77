/** The Windows registry as the winreg primitives see it: a store of keys
    addressed by hive, view and path, a table of open handles, and the error
    each primitive reports. Injected faults stand for every failure the real
    system can produce beyond the ones modelled here (access checks of the
    security descriptor, races with other processes, I/O errors). */
module OsRegistry {
  import opened Wrappers
  import opened PyValues

  type Handle = nat

  const KEY_QUERY_VALUE: bv32 := 0x0001
  const KEY_SET_VALUE: bv32 := 0x0002
  const KEY_CREATE_SUB_KEY: bv32 := 0x0004
  const KEY_ENUMERATE_SUB_KEYS: bv32 := 0x0008
  const KEY_WOW64_32KEY: bv32 := 0x0200
  const KEY_READ: bv32 := 0x2_0019
  const KEY_WRITE: bv32 := 0x2_0006

  /** The Windows error codes the registry layer reacts to. */
  const ERROR_FILE_NOT_FOUND: int := 2
  const ERROR_ACCESS_DENIED: int := 5
  const ERROR_INVALID_HANDLE: int := 6
  const ERROR_NO_MORE_ITEMS: int := 259
  const ERROR_KEY_DELETED: int := 1018

  const NotFound: OsError := OsError(Some(ERROR_FILE_NOT_FOUND), Some("The system cannot find the file specified"))
  const AccessDenied: OsError := OsError(Some(ERROR_ACCESS_DENIED), Some("Access is denied"))
  const NoMoreItems: OsError := OsError(Some(ERROR_NO_MORE_ITEMS), Some("No more data is available"))
  const KeyDeleted: OsError := OsError(Some(ERROR_KEY_DELETED),
    Some("Illegal operation attempted on a registry key that has been marked for deletion"))

  /** Where a key lives: its hive, whether the 32-bit view is addressed, and its
      path as a sequence of key names. The hive itself has the empty path. */
  datatype Loc = Loc(hive: int, view32: bool, path: seq<string>)

  /** A value stored in a key. */
  datatype Entry = Entry(name: string, data: PyValue, valueType: int)

  /** A key's subkey names and values, in enumeration order, and its last write time
      as a FILETIME. */
  datatype KeyNode = KeyNode(subkeys: seq<string>, values: seq<Entry>, lastWrite: int)

  /** What `QueryInfoKey` reports. */
  datatype KeyInfo = KeyInfo(numSubkeys: nat, numValues: nat, lastWrite: int)

  /** What an open handle refers to and the access it was opened with. */
  datatype HandleInfo = HandleInfo(loc: Loc, access: bv32)

  /** One call of a primitive, as recorded in the call log and as the key of an
      injected fault. */
  datatype Call =
    | OpenCall(loc: Loc)
    | CreateCall(loc: Loc)
    | CloseCall(loc: Loc)
    | QueryValueCall(loc: Loc, name: string)
    | SetValueCall(loc: Loc, name: string)
    | EnumValueCall(loc: Loc, index: nat)
    | EnumKeyCall(loc: Loc, index: nat)
    | QueryInfoCall(loc: Loc)
    | DeleteValueCall(loc: Loc, name: string)
    | DeleteKeyCall(loc: Loc, name: string)

  /** The index of the last occurrence of `c` in `p`. */
  function LastIndexOf(p: string, c: char): (r: Option<nat>)
    ensures r.Some? ==> r.value < |p| && p[r.value] == c && forall k :: r.value < k < |p| ==> p[k] != c
    ensures r.None? ==> forall k :: 0 <= k < |p| ==> p[k] != c
    decreases |p|
  {
    if |p| == 0 then None
    else if p[|p| - 1] == c then Some(|p| - 1)
    else LastIndexOf(p[..|p| - 1], c)
  }

  /** The names in a non-empty key path, split at backslashes only ('/' is an
      ordinary character of a key name). */
  function Pieces(p: string): (names: seq<string>)
    ensures |names| >= 1
    ensures forall k :: 0 <= k < |names| ==> '\\' !in names[k]
    decreases |p|
  {
    match LastIndexOf(p, '\\')
      case None => [p]
      case Some(i) => Pieces(p[..i]) + [p[i + 1..]]
  }

  /** The path a subkey string addresses; the empty string addresses the hive itself. */
  function Segments(p: string): seq<string>
  {
    if p == "" then [] else Pieces(p)
  }

  /** Whether an access mask selects the 32-bit view. */
  predicate ViewOf(access: bv32)
  {
    access & KEY_WOW64_32KEY != 0
  }

  function LocOf(hive: int, subkey: string, access: bv32): Loc
  {
    Loc(hive, ViewOf(access), Segments(subkey))
  }

  function Parent(loc: Loc): Loc
    requires |loc.path| > 0
  {
    loc.(path := loc.path[..|loc.path| - 1])
  }

  function LastName(loc: Loc): string
    requires |loc.path| > 0
  {
    loc.path[|loc.path| - 1]
  }

  /** A hive always exists; any other key exists when it is stored. */
  predicate Exists(keys: map<Loc, KeyNode>, loc: Loc)
  {
    loc.path == [] || loc in keys
  }

  function NodeAt(keys: map<Loc, KeyNode>, loc: Loc): KeyNode
  {
    if loc in keys then keys[loc] else KeyNode([], [], 0)
  }

  /** The first value called `name`. */
  function FindValue(values: seq<Entry>, name: string): (r: Option<Entry>)
    ensures r.Some? ==> r.value in values && r.value.name == name
    ensures r.None? ==> forall k :: 0 <= k < |values| ==> values[k].name != name
  {
    if |values| == 0 then None
    else if values[0].name == name then Some(values[0])
    else FindValue(values[1..], name)
  }

  /** `values` with `entry` stored under its name: an existing value of that name
      is replaced in place, otherwise the entry is appended. */
  function Upsert(values: seq<Entry>, entry: Entry): (r: seq<Entry>)
    ensures FindValue(r, entry.name) == Some(entry)
    ensures forall n :: n != entry.name ==> FindValue(r, n) == FindValue(values, n)
  {
    if |values| == 0 then [entry]
    else if values[0].name == entry.name then [entry] + values[1..]
    else [values[0]] + Upsert(values[1..], entry)
  }

  /** Whether `r` is `s` with some elements left out, the rest kept in order. */
  predicate Subsequence<T(==)>(r: seq<T>, s: seq<T>)
    decreases |s|
  {
    if |s| == 0 then r == []
    else Subsequence(r, s[1..]) || (|r| > 0 && r[0] == s[0] && Subsequence(r[1..], s[1..]))
  }

  /** `values` without the values called `name`: every other value is kept, in
      its order. */
  function RemoveValue(values: seq<Entry>, name: string): (r: seq<Entry>)
    ensures FindValue(r, name).None?
    ensures forall n :: n != name ==> FindValue(r, n) == FindValue(values, n)
    ensures FindValue(values, name).None? ==> r == values
    ensures forall e :: e in r <==> e in values && e.name != name
    ensures Subsequence(r, values)
  {
    if |values| == 0 then []
    else if values[0].name == name then RemoveValue(values[1..], name)
    else [values[0]] + RemoveValue(values[1..], name)
  }

  /** The store after `CreateKeyEx` of `loc`: every missing key on the path is
      created without values and registered with its parent. */
  function WithKey(keys: map<Loc, KeyNode>, loc: Loc, now: int): (r: map<Loc, KeyNode>)
    ensures Exists(r, loc)
    ensures forall l :: l in keys ==> l in r && r[l].values == keys[l].values && keys[l].subkeys <= r[l].subkeys
    ensures forall l :: l in r && l !in keys ==>
      r[l].values == [] && l.hive == loc.hive && l.view32 == loc.view32 && l.path <= loc.path
    ensures |loc.path| > 0 && loc !in keys ==>
      r[loc] == KeyNode([], [], now) && LastName(loc) in NodeAt(r, Parent(loc)).subkeys
    decreases |loc.path|
  {
    if |loc.path| == 0 then keys
    else
      var parent := Parent(loc);
      var k := WithKey(keys, parent, now);
      if loc in k then k
      else
        var pn := NodeAt(k, parent);
        k[parent := pn.(subkeys := pn.subkeys + [LastName(loc)])][loc := KeyNode([], [], now)]
  }

  /** A key that already exists is left as it is by creation. */
  lemma {:induction false} WithKeyExisting(keys: map<Loc, KeyNode>, loc: Loc, now: int)
    requires Exists(keys, loc)
    requires forall l :: l in keys && |l.path| > 0 ==> Exists(keys, Parent(l))
    ensures WithKey(keys, loc, now) == keys
    decreases |loc.path|
  {
    if |loc.path| > 0 {
      WithKeyExisting(keys, Parent(loc), now);
    }
  }

  /** The store after `SetValueEx` on an existing key. */
  function WithValue(keys: map<Loc, KeyNode>, loc: Loc, entry: Entry, now: int): map<Loc, KeyNode>
  {
    var n := NodeAt(keys, loc);
    keys[loc := n.(values := Upsert(n.values, entry), lastWrite := now)]
  }

  /** The store after `DeleteValue` on an existing key. */
  function WithoutValue(keys: map<Loc, KeyNode>, loc: Loc, name: string, now: int): map<Loc, KeyNode>
  {
    var n := NodeAt(keys, loc);
    keys[loc := n.(values := RemoveValue(n.values, name), lastWrite := now)]
  }

  /** `names` without `name`. */
  function RemoveName(names: seq<string>, name: string): (r: seq<string>)
    ensures name !in r
    ensures forall n :: n in r <==> n in names && n != name
  {
    if |names| == 0 then []
    else if names[0] == name then RemoveName(names[1..], name)
    else [names[0]] + RemoveName(names[1..], name)
  }

  /** The store after `DeleteKey` removed the key at `child`. */
  function WithoutKey(keys: map<Loc, KeyNode>, child: Loc): (r: map<Loc, KeyNode>)
    requires |child.path| > 0
    ensures child !in r
    ensures forall l :: l in r ==> l in keys
    ensures forall l :: l in keys && l != child && l != Parent(child) ==> l in r && r[l] == keys[l]
    ensures Parent(child) in keys ==>
      Parent(child) in r && r[Parent(child)] == keys[Parent(child)].(subkeys := RemoveName(keys[Parent(child)].subkeys, LastName(child)))
  {
    var parent := Parent(child);
    var rest := keys - {child};
    if parent in rest then rest[parent := rest[parent].(subkeys := RemoveName(rest[parent].subkeys, LastName(child)))]
    else rest
  }

  /** The key `n` directly below `l`. */
  function Child(l: Loc, n: string): Loc
  {
    l.(path := l.path + [n])
  }

  /** Every stored key's parent exists and lists its name. */
  predicate ParentsList(keys: map<Loc, KeyNode>)
  {
    forall l :: l in keys && |l.path| > 0 ==> Exists(keys, Parent(l)) && LastName(l) in NodeAt(keys, Parent(l)).subkeys
  }

  /** Every listed subkey is stored. */
  predicate ChildrenStored(keys: map<Loc, KeyNode>)
  {
    forall l, n :: l in keys && n in keys[l].subkeys ==> Child(l, n) in keys
  }

  /** The key map and the subkey lists agree. */
  predicate WellFormedStore(keys: map<Loc, KeyNode>)
  {
    ParentsList(keys) && ChildrenStored(keys)
  }

  lemma ChildOfParent(loc: Loc)
    requires |loc.path| > 0
    ensures Child(Parent(loc), LastName(loc)) == loc
  {
    assert loc.path[..|loc.path| - 1] + [loc.path[|loc.path| - 1]] == loc.path;
  }

  /** The store with `loc` added below its existing parent, as `WithKey` adds it. */
  function AddChild(keys: map<Loc, KeyNode>, loc: Loc, now: int): map<Loc, KeyNode>
    requires |loc.path| > 0
  {
    var pn := NodeAt(keys, Parent(loc));
    keys[Parent(loc) := pn.(subkeys := pn.subkeys + [LastName(loc)])][loc := KeyNode([], [], now)]
  }

  /** Adding a missing key below an existing parent keeps the store well-formed. */
  lemma AddChildWellFormed(keys: map<Loc, KeyNode>, loc: Loc, now: int)
    requires WellFormedStore(keys) && |loc.path| > 0
    requires Exists(keys, Parent(loc)) && loc !in keys
    ensures WellFormedStore(AddChild(keys, loc, now))
  {
    AddChildParentsList(keys, loc, now);
    AddChildChildrenStored(keys, loc, now);
  }

  lemma AddChildParentsList(keys: map<Loc, KeyNode>, loc: Loc, now: int)
    requires ParentsList(keys) && |loc.path| > 0
    requires Exists(keys, Parent(loc)) && loc !in keys
    ensures ParentsList(AddChild(keys, loc, now))
  {
    var parent := Parent(loc);
    var pn := NodeAt(keys, parent);
    var r := AddChild(keys, loc, now);
    forall l | l in r && |l.path| > 0
      ensures Exists(r, Parent(l)) && LastName(l) in NodeAt(r, Parent(l)).subkeys
    {
      if l != loc {
        assert l in keys;
        assert Exists(keys, Parent(l)) && LastName(l) in NodeAt(keys, Parent(l)).subkeys;
        assert Parent(l) != loc;
        if Parent(l) == parent {
          assert NodeAt(r, parent).subkeys == pn.subkeys + [LastName(loc)];
        } else {
          assert NodeAt(r, Parent(l)) == NodeAt(keys, Parent(l));
        }
      }
    }
  }

  lemma AddChildChildrenStored(keys: map<Loc, KeyNode>, loc: Loc, now: int)
    requires ChildrenStored(keys) && |loc.path| > 0
    ensures ChildrenStored(AddChild(keys, loc, now))
  {
    var parent := Parent(loc);
    var pn := NodeAt(keys, parent);
    var r := AddChild(keys, loc, now);
    ChildOfParent(loc);
    forall l, n | l in r && n in r[l].subkeys
      ensures Child(l, n) in r
    {
      if l == parent {
        if n != LastName(loc) {
          assert n in pn.subkeys;
          assert parent in keys;
          assert Child(l, n) in keys;
        }
      } else if l != loc {
        assert l in keys && r[l] == keys[l];
      }
    }
  }

  /** Creating a key keeps the store well-formed. */
  lemma {:induction false} WithKeyWellFormed(keys: map<Loc, KeyNode>, loc: Loc, now: int)
    requires WellFormedStore(keys)
    ensures WellFormedStore(WithKey(keys, loc, now))
    decreases |loc.path|
  {
    if |loc.path| > 0 {
      WithKeyWellFormed(keys, Parent(loc), now);
      var k := WithKey(keys, Parent(loc), now);
      if loc !in k {
        AddChildWellFormed(k, loc, now);
        assert WithKey(keys, loc, now) == AddChild(k, loc, now);
      }
    }
  }

  /** Replacing a key's values and write time keeps the store well-formed. */
  lemma NodeUpdateWellFormed(keys: map<Loc, KeyNode>, loc: Loc, node: KeyNode)
    requires WellFormedStore(keys) && Exists(keys, loc)
    requires node.subkeys == NodeAt(keys, loc).subkeys
    ensures WellFormedStore(keys[loc := node])
  {
    var r := keys[loc := node];
    forall l | l in r && |l.path| > 0
      ensures Exists(r, Parent(l)) && LastName(l) in NodeAt(r, Parent(l)).subkeys
    {
      assert l in keys;
      assert NodeAt(r, Parent(l)).subkeys == NodeAt(keys, Parent(l)).subkeys;
    }
  }

  /** Writing a value to an existing key keeps the store well-formed. */
  lemma WithValueWellFormed(keys: map<Loc, KeyNode>, loc: Loc, entry: Entry, now: int)
    requires WellFormedStore(keys) && Exists(keys, loc)
    ensures WellFormedStore(WithValue(keys, loc, entry, now))
  {
    var n := NodeAt(keys, loc);
    NodeUpdateWellFormed(keys, loc, n.(values := Upsert(n.values, entry), lastWrite := now));
  }

  /** Deleting a value from an existing key keeps the store well-formed. */
  lemma WithoutValueWellFormed(keys: map<Loc, KeyNode>, loc: Loc, name: string, now: int)
    requires WellFormedStore(keys) && Exists(keys, loc)
    ensures WellFormedStore(WithoutValue(keys, loc, name, now))
  {
    var n := NodeAt(keys, loc);
    NodeUpdateWellFormed(keys, loc, n.(values := RemoveValue(n.values, name), lastWrite := now));
  }

  /** Deleting a stored key without subkeys keeps the store well-formed. */
  lemma WithoutKeyWellFormed(keys: map<Loc, KeyNode>, child: Loc)
    requires WellFormedStore(keys) && |child.path| > 0
    requires child in keys && keys[child].subkeys == []
    ensures WellFormedStore(WithoutKey(keys, child))
  {
    var r := WithoutKey(keys, child);
    var parent := Parent(child);
    ChildOfParent(child);
    forall l | l in r && |l.path| > 0
      ensures Exists(r, Parent(l)) && LastName(l) in NodeAt(r, Parent(l)).subkeys
    {
      assert l in keys && l != child;
      assert Parent(l) != child;
      if Parent(l) == parent {
        ChildOfParent(l);
        assert LastName(l) != LastName(child);
      }
    }
    forall l, n | l in r && n in r[l].subkeys
      ensures Child(l, n) in r
    {
      assert n in keys[l].subkeys;
      if l == parent {
        assert n != LastName(child);
      }
    }
  }

  function FaultOr<T>(faults: map<Call, OsError>, call: Call, otherwise: Result<T, OsError>): Result<T, OsError>
  {
    if call in faults then Failure(faults[call]) else otherwise
  }

  /** Whether a handle's access mask grants `right`. */
  predicate Grants(h: HandleInfo, right: bv32)
  {
    h.access & right != 0
  }

  /** What `OpenKey` reports: an injected fault, or not-found for a missing key. */
  function OpenOutcome(keys: map<Loc, KeyNode>, faults: map<Call, OsError>, loc: Loc): Option<OsError>
  {
    if OpenCall(loc) in faults then Some(faults[OpenCall(loc)])
    else if !Exists(keys, loc) then Some(NotFound)
    else None
  }

  function CreateOutcome(faults: map<Call, OsError>, loc: Loc): Option<OsError>
  {
    if CreateCall(loc) in faults then Some(faults[CreateCall(loc)]) else None
  }

  function CloseOutcome(faults: map<Call, OsError>, loc: Loc): Option<OsError>
  {
    if CloseCall(loc) in faults then Some(faults[CloseCall(loc)]) else None
  }

  /** What `QueryValueEx` reports: the value's data and type. */
  function QueryValueOutcome(keys: map<Loc, KeyNode>, faults: map<Call, OsError>, h: HandleInfo, name: string)
    : Result<(PyValue, int), OsError>
  {
    FaultOr(faults, QueryValueCall(h.loc, name),
      if !Grants(h, KEY_QUERY_VALUE) then Failure(AccessDenied)
      else if !Exists(keys, h.loc) then Failure(KeyDeleted)
      else match FindValue(NodeAt(keys, h.loc).values, name)
        case Some(e) => Success((e.data, e.valueType))
        case None => Failure(NotFound))
  }

  /** What `SetValueEx` reports. */
  function SetValueOutcome(keys: map<Loc, KeyNode>, faults: map<Call, OsError>, h: HandleInfo, name: string): Option<OsError>
  {
    if SetValueCall(h.loc, name) in faults then Some(faults[SetValueCall(h.loc, name)])
    else if !Grants(h, KEY_SET_VALUE) then Some(AccessDenied)
    else if !Exists(keys, h.loc) then Some(KeyDeleted)
    else None
  }

  /** What `EnumValue` reports for index `i`: the `i`-th value, or no-more-items. */
  function EnumValueOutcome(keys: map<Loc, KeyNode>, faults: map<Call, OsError>, h: HandleInfo, i: nat): (r: Result<Entry, OsError>)
    ensures r.Success? ==> i < |NodeAt(keys, h.loc).values| && r.value == NodeAt(keys, h.loc).values[i]
  {
    FaultOr(faults, EnumValueCall(h.loc, i),
      if !Grants(h, KEY_QUERY_VALUE) then Failure(AccessDenied)
      else if !Exists(keys, h.loc) then Failure(KeyDeleted)
      else if i < |NodeAt(keys, h.loc).values| then Success(NodeAt(keys, h.loc).values[i])
      else Failure(NoMoreItems))
  }

  /** What `EnumKey` reports for index `i`: the `i`-th subkey name, or no-more-items. */
  function EnumKeyOutcome(keys: map<Loc, KeyNode>, faults: map<Call, OsError>, h: HandleInfo, i: nat): (r: Result<string, OsError>)
    ensures r.Success? ==> i < |NodeAt(keys, h.loc).subkeys| && r.value == NodeAt(keys, h.loc).subkeys[i]
  {
    FaultOr(faults, EnumKeyCall(h.loc, i),
      if !Grants(h, KEY_ENUMERATE_SUB_KEYS) then Failure(AccessDenied)
      else if !Exists(keys, h.loc) then Failure(KeyDeleted)
      else if i < |NodeAt(keys, h.loc).subkeys| then Success(NodeAt(keys, h.loc).subkeys[i])
      else Failure(NoMoreItems))
  }

  /** What `QueryInfoKey` reports: the counts and the last write time. */
  function QueryInfoOutcome(keys: map<Loc, KeyNode>, faults: map<Call, OsError>, h: HandleInfo): (r: Result<KeyInfo, OsError>)
    ensures r.Success? ==> r.value == KeyInfo(|NodeAt(keys, h.loc).subkeys|, |NodeAt(keys, h.loc).values|, NodeAt(keys, h.loc).lastWrite)
  {
    FaultOr(faults, QueryInfoCall(h.loc),
      if !Grants(h, KEY_QUERY_VALUE) then Failure(AccessDenied)
      else if !Exists(keys, h.loc) then Failure(KeyDeleted)
      else
        var n := NodeAt(keys, h.loc);
        Success(KeyInfo(|n.subkeys|, |n.values|, n.lastWrite)))
  }

  /** What `DeleteValue` reports; a missing value is not-found. */
  function DeleteValueOutcome(keys: map<Loc, KeyNode>, faults: map<Call, OsError>, h: HandleInfo, name: string): Option<OsError>
  {
    if DeleteValueCall(h.loc, name) in faults then Some(faults[DeleteValueCall(h.loc, name)])
    else if !Grants(h, KEY_SET_VALUE) then Some(AccessDenied)
    else if !Exists(keys, h.loc) then Some(KeyDeleted)
    else if FindValue(NodeAt(keys, h.loc).values, name).None? then Some(NotFound)
    else None
  }

  /** The key `DeleteKey(h, name)` addresses. */
  function ChildLoc(h: HandleInfo, name: string): Loc
  {
    h.loc.(path := h.loc.path + Segments(name))
  }

  /** What `DeleteKey` reports: a key with subkeys cannot be deleted (its values
      go with it), and neither can a hive. */
  function DeleteKeyOutcome(keys: map<Loc, KeyNode>, faults: map<Call, OsError>, h: HandleInfo, name: string): Option<OsError>
  {
    var child := ChildLoc(h, name);
    if DeleteKeyCall(h.loc, name) in faults then Some(faults[DeleteKeyCall(h.loc, name)])
    else if !Exists(keys, h.loc) then Some(KeyDeleted)
    else if |child.path| == 0 then Some(AccessDenied)
    else if child !in keys then Some(NotFound)
    else if |keys[child].subkeys| > 0 then Some(AccessDenied)
    else None
  }

  /** The registry of one machine, with the handles this process holds open. */
  class Registry {
    var keys: map<Loc, KeyNode>
    var handles: map<Handle, HandleInfo>
    var nextHandle: Handle
    /** Failures the primitives report for particular calls. */
    const faults: map<Call, OsError>
    /** The clock, as a FILETIME, stamped on every key written. */
    const now: int
    /** Every primitive call made, in order. */
    ghost var log: seq<Call>

    ghost predicate Valid()
      reads this
    {
      forall h :: h in handles ==> h < nextHandle
    }

    /** How many handles are open. */
    function OpenHandleCount(): nat
      reads this
    {
      |handles.Keys|
    }

    constructor (keys0: map<Loc, KeyNode>, faults0: map<Call, OsError>, now0: int)
      ensures Valid()
      ensures keys == keys0 && faults == faults0 && now == now0
      ensures handles == map[] && log == []
    {
      keys := keys0;
      faults := faults0;
      now := now0;
      handles := map[];
      nextHandle := 0;
      log := [];
    }

    method NewHandle(info: HandleInfo) returns (h: Handle)
      requires Valid()
      modifies this
      ensures Valid()
      ensures h !in old(handles) && handles == old(handles)[h := info]
      ensures keys == old(keys) && log == old(log)
    {
      h := nextHandle;
      handles := handles[h := info];
      nextHandle := nextHandle + 1;
    }

    /** `winreg.OpenKey`. */
    method OpenKey(hive: int, subkey: string, access: bv32) returns (r: Result<Handle, OsError>)
      requires Valid()
      modifies this
      ensures Valid()
      ensures keys == old(keys)
      ensures log == old(log) + [OpenCall(LocOf(hive, subkey, access))]
      ensures match OpenOutcome(keys, faults, LocOf(hive, subkey, access))
        case Some(e) => r == Failure(e) && handles == old(handles)
        case None => r.Success? && r.value !in old(handles)
                     && handles == old(handles)[r.value := HandleInfo(LocOf(hive, subkey, access), access)]
    {
      var loc := LocOf(hive, subkey, access);
      log := log + [OpenCall(loc)];
      match OpenOutcome(keys, faults, loc)
      case Some(e) =>
        r := Failure(e);
      case None =>
        var h := NewHandle(HandleInfo(loc, access));
        r := Success(h);
    }

    /** `winreg.CreateKeyEx`: opens the key, creating it and its missing ancestors. */
    method CreateKeyEx(hive: int, subkey: string, access: bv32) returns (r: Result<Handle, OsError>)
      requires Valid()
      modifies this
      ensures Valid()
      ensures log == old(log) + [CreateCall(LocOf(hive, subkey, access))]
      ensures match CreateOutcome(faults, LocOf(hive, subkey, access))
        case Some(e) => r == Failure(e) && handles == old(handles) && keys == old(keys)
        case None => r.Success? && r.value !in old(handles)
                     && handles == old(handles)[r.value := HandleInfo(LocOf(hive, subkey, access), access)]
                     && keys == WithKey(old(keys), LocOf(hive, subkey, access), now)
    {
      var loc := LocOf(hive, subkey, access);
      log := log + [CreateCall(loc)];
      match CreateOutcome(faults, loc)
      case Some(e) =>
        r := Failure(e);
      case None =>
        keys := WithKey(keys, loc, now);
        var h := NewHandle(HandleInfo(loc, access));
        r := Success(h);
    }

    /** `winreg.CloseKey`: the handle is released even when an error is reported. */
    method CloseKey(h: Handle) returns (r: Option<OsError>)
      requires Valid() && h in handles
      modifies this
      ensures Valid()
      ensures keys == old(keys)
      ensures handles == old(handles) - {h}
      ensures log == old(log) + [CloseCall(old(handles)[h].loc)]
      ensures r == CloseOutcome(faults, old(handles)[h].loc)
    {
      var loc := handles[h].loc;
      log := log + [CloseCall(loc)];
      handles := handles - {h};
      r := CloseOutcome(faults, loc);
    }

    /** `winreg.QueryValueEx`. */
    method QueryValueEx(h: Handle, name: string) returns (r: Result<(PyValue, int), OsError>)
      requires h in handles
      modifies this
      ensures keys == old(keys) && handles == old(handles) && nextHandle == old(nextHandle)
      ensures log == old(log) + [QueryValueCall(handles[h].loc, name)]
      ensures r == QueryValueOutcome(keys, faults, handles[h], name)
    {
      log := log + [QueryValueCall(handles[h].loc, name)];
      r := QueryValueOutcome(keys, faults, handles[h], name);
    }

    /** `winreg.SetValueEx`. */
    method SetValueEx(h: Handle, name: string, valueType: int, data: PyValue) returns (r: Option<OsError>)
      requires h in handles
      modifies this
      ensures handles == old(handles) && nextHandle == old(nextHandle)
      ensures log == old(log) + [SetValueCall(handles[h].loc, name)]
      ensures r == SetValueOutcome(old(keys), faults, handles[h], name)
      ensures keys == if r.Some? then old(keys) else WithValue(old(keys), handles[h].loc, Entry(name, data, valueType), now)
    {
      log := log + [SetValueCall(handles[h].loc, name)];
      r := SetValueOutcome(keys, faults, handles[h], name);
      if r.None? {
        keys := WithValue(keys, handles[h].loc, Entry(name, data, valueType), now);
      }
    }

    /** `winreg.EnumValue`. */
    method EnumValue(h: Handle, i: nat) returns (r: Result<Entry, OsError>)
      requires h in handles
      modifies this
      ensures keys == old(keys) && handles == old(handles) && nextHandle == old(nextHandle)
      ensures log == old(log) + [EnumValueCall(handles[h].loc, i)]
      ensures r == EnumValueOutcome(keys, faults, handles[h], i)
    {
      log := log + [EnumValueCall(handles[h].loc, i)];
      r := EnumValueOutcome(keys, faults, handles[h], i);
    }

    /** `winreg.EnumKey`. */
    method EnumKey(h: Handle, i: nat) returns (r: Result<string, OsError>)
      requires h in handles
      modifies this
      ensures keys == old(keys) && handles == old(handles) && nextHandle == old(nextHandle)
      ensures log == old(log) + [EnumKeyCall(handles[h].loc, i)]
      ensures r == EnumKeyOutcome(keys, faults, handles[h], i)
    {
      log := log + [EnumKeyCall(handles[h].loc, i)];
      r := EnumKeyOutcome(keys, faults, handles[h], i);
    }

    /** `winreg.QueryInfoKey`. */
    method QueryInfoKey(h: Handle) returns (r: Result<KeyInfo, OsError>)
      requires h in handles
      modifies this
      ensures keys == old(keys) && handles == old(handles) && nextHandle == old(nextHandle)
      ensures log == old(log) + [QueryInfoCall(handles[h].loc)]
      ensures r == QueryInfoOutcome(keys, faults, handles[h])
    {
      log := log + [QueryInfoCall(handles[h].loc)];
      r := QueryInfoOutcome(keys, faults, handles[h]);
    }

    /** `winreg.DeleteValue`. */
    method DeleteValue(h: Handle, name: string) returns (r: Option<OsError>)
      requires h in handles
      modifies this
      ensures handles == old(handles) && nextHandle == old(nextHandle)
      ensures log == old(log) + [DeleteValueCall(handles[h].loc, name)]
      ensures r == DeleteValueOutcome(old(keys), faults, handles[h], name)
      ensures keys == if r.Some? then old(keys) else WithoutValue(old(keys), handles[h].loc, name, now)
    {
      log := log + [DeleteValueCall(handles[h].loc, name)];
      r := DeleteValueOutcome(keys, faults, handles[h], name);
      if r.None? {
        keys := WithoutValue(keys, handles[h].loc, name, now);
      }
    }

    /** `winreg.DeleteKey`: deletes the key `name` below the handle's key. */
    method DeleteKey(h: Handle, name: string) returns (r: Option<OsError>)
      requires h in handles
      modifies this
      ensures handles == old(handles) && nextHandle == old(nextHandle)
      ensures log == old(log) + [DeleteKeyCall(handles[h].loc, name)]
      ensures r == DeleteKeyOutcome(old(keys), faults, handles[h], name)
      ensures keys == if r.Some? then old(keys) else WithoutKey(old(keys), ChildLoc(handles[h], name))
    {
      log := log + [DeleteKeyCall(handles[h].loc, name)];
      r := DeleteKeyOutcome(keys, faults, handles[h], name);
      if r.None? {
        keys := WithoutKey(keys, ChildLoc(handles[h], name));
      }
    }
  }
}
