/** What the `registry_base` operations promise, stated over their
    specifications: read-after-write, complete enumeration, idempotent value
    deletion, the not-found and not-empty errors, and which key
    `delete_registry_key` removes. */
module RegistryBaseProperties {
  import opened Wrappers
  import opened PyValues
  import opened RegistryErrors
  import opened RegistryTypes
  import opened OsRegistry
  import opened RegistryContext
  import opened RegistryPaths
  import opened RegistryBase

  /** The records `RegistryValue(name, data, type)` built from stored entries. */
  function AsRecords(entries: seq<Entry>): (rs: seq<RegistryValue>)
    ensures |rs| == |entries|
    ensures forall k :: 0 <= k < |entries| ==>
      rs[k] == MakeValue(entries[k].name, entries[k].data, entries[k].valueType)
  {
    seq(|entries|, k requires 0 <= k < |entries| => MakeValue(entries[k].name, entries[k].data, entries[k].valueType))
  }

  /** The key every operation of the package opens for `full` in a view. */
  function KeyAt(hive: int, full: string, view32: bool): Loc
  {
    Loc(hive, view32, Segments(full))
  }

  /** A value written and then read back, with nothing failing in between, comes
      back as the record of what was written. */
  lemma PutThenGet(keys: map<Loc, KeyNode>, faults: map<Call, OsError>, now: int, hive: int, full: string,
                   name: string, data: PyValue, valueType: int, view32: bool)
    requires PutValueSpec(keys, faults, now, hive, full, name, data, valueType, view32).result.Pass?
    ensures var after := PutValueSpec(keys, faults, now, hive, full, name, data, valueType, view32).keys;
      GetValueSpec(after, map[], hive, full, name, view32) == Success(MakeValue(name, data, valueType))
  {
    StandardMasksSelectView(view32);
    var loc := KeyAt(hive, full, view32);
    var after := PutValueSpec(keys, faults, now, hive, full, name, data, valueType, view32).keys;
    assert loc in after;
    assert FindValue(NodeAt(after, loc).values, name) == Some(Entry(name, data, valueType));
  }

  /** Enumeration from index `i` of an existing key with nothing failing yields
      the remaining values, in order. */
  lemma {:induction false} ValuesFromRest(keys: map<Loc, KeyNode>, h: HandleInfo, i: nat, full: string)
    requires Grants(h, KEY_QUERY_VALUE) && Exists(keys, h.loc) && i <= |NodeAt(keys, h.loc).values|
    ensures ValuesFrom(keys, map[], h, i, full) == Success(AsRecords(NodeAt(keys, h.loc).values[i..]))
    decreases |NodeAt(keys, h.loc).values| - i
  {
    var values := NodeAt(keys, h.loc).values;
    if i < |values| {
      ValuesFromRest(keys, h, i + 1, full);
      assert AsRecords(values[i..]) == [MakeValue(values[i].name, values[i].data, values[i].valueType)] + AsRecords(values[i + 1..]);
    } else {
      assert AsRecords(values[i..]) == [];
    }
  }

  /** Listing an existing key's values with nothing failing yields all of them,
      in enumeration order. */
  lemma ListValuesComplete(keys: map<Loc, KeyNode>, hive: int, full: string, view32: bool)
    requires Exists(keys, KeyAt(hive, full, view32))
    ensures ListValuesSpec(keys, map[], hive, full, view32) == Success(AsRecords(NodeAt(keys, KeyAt(hive, full, view32)).values))
  {
    StandardMasksSelectView(view32);
    var h := HandleInfo(KeyAt(hive, full, view32), EffectiveAccess(KEY_READ, view32));
    ValuesFromRest(keys, h, 0, full);
    assert NodeAt(keys, h.loc).values[0..] == NodeAt(keys, h.loc).values;
  }

  /** Enumeration of subkey names from index `i`. */
  lemma {:induction false} SubkeysFromRest(keys: map<Loc, KeyNode>, h: HandleInfo, i: nat, full: string)
    requires Grants(h, KEY_ENUMERATE_SUB_KEYS) && Exists(keys, h.loc) && i <= |NodeAt(keys, h.loc).subkeys|
    ensures SubkeysFrom(keys, map[], h, i, full) == Success(NodeAt(keys, h.loc).subkeys[i..])
    decreases |NodeAt(keys, h.loc).subkeys| - i
  {
    var names := NodeAt(keys, h.loc).subkeys;
    if i < |names| {
      assert EnumKeyOutcome(keys, map[], h, i) == Success(names[i]);
      SubkeysFromRest(keys, h, i + 1, full);
      assert names[i..] == [names[i]] + names[i + 1..];
    } else {
      assert EnumKeyOutcome(keys, map[], h, i) == Failure(NoMoreItems);
      assert names[i..] == [];
    }
  }

  /** Listing an existing key's subkeys with nothing failing yields all of their
      names, in enumeration order. */
  lemma ListSubkeysComplete(keys: map<Loc, KeyNode>, hive: int, full: string, view32: bool)
    requires Exists(keys, KeyAt(hive, full, view32))
    ensures ListSubkeysSpec(keys, map[], hive, full, view32) == Success(NodeAt(keys, KeyAt(hive, full, view32)).subkeys)
  {
    StandardMasksSelectView(view32);
    var h := HandleInfo(KeyAt(hive, full, view32), EffectiveAccess(KEY_ENUMERATE_SUB_KEYS, view32));
    SubkeysFromRest(keys, h, 0, full);
    assert NodeAt(keys, h.loc).subkeys[0..] == NodeAt(keys, h.loc).subkeys;
  }

  /** A failing enumeration step fails the whole listing: no partial list is returned. */
  lemma {:induction false} ValuesFromFailure(keys: map<Loc, KeyNode>, faults: map<Call, OsError>, h: HandleInfo,
                                            i: nat, j: nat, full: string)
    requires i <= j
    requires forall k :: i <= k < j ==> EnumValueOutcome(keys, faults, h, k).Success?
    requires EnumValueOutcome(keys, faults, h, j).Failure?
    requires EnumValueOutcome(keys, faults, h, j).error.winerror != Some(ERROR_NO_MORE_ITEMS)
    ensures ValuesFrom(keys, faults, h, i, full) ==
      Failure(HandleWinregError(OsErr(EnumValueOutcome(keys, faults, h, j).error), full, None))
    decreases j - i
  {
    if i < j {
      ValuesFromFailure(keys, faults, h, i + 1, j, full);
    }
  }

  /** `ensure_registry_key_exists` keeps the store well-formed, whatever fails. */
  lemma EnsureWellFormed(keys: map<Loc, KeyNode>, faults: map<Call, OsError>, now: int, hive: int, full: string, view32: bool)
    requires WellFormedStore(keys)
    ensures WellFormedStore(EnsureSpec(keys, faults, now, hive, full, view32).keys)
  {
    var loc := LocOf(hive, full, EffectiveAccess(KEY_WRITE, view32));
    var after := EnsureSpec(keys, faults, now, hive, full, view32).keys;
    if full != "" && CreateOutcome(faults, loc).None? {
      WithKeyWellFormed(keys, loc, now);
      assert after == WithKey(keys, loc, now);
    } else {
      assert after == keys;
    }
  }

  /** `put_registry_value` keeps the store well-formed, whatever fails. */
  lemma PutValueWellFormed(keys: map<Loc, KeyNode>, faults: map<Call, OsError>, now: int, hive: int, full: string,
                           name: string, data: PyValue, valueType: int, view32: bool)
    requires WellFormedStore(keys)
    ensures WellFormedStore(PutValueSpec(keys, faults, now, hive, full, name, data, valueType, view32).keys)
  {
    EnsureWellFormed(keys, faults, now, hive, full, view32);
    var k := EnsureSpec(keys, faults, now, hive, full, view32).keys;
    match Opened(k, faults, hive, full, KEY_SET_VALUE, view32)
    case Failure(_) =>
    case Success(h) =>
      if SetValueOutcome(k, faults, h, name).None? {
        WithValueWellFormed(k, h.loc, Entry(name, data, valueType), now);
      }
  }

  /** `put_registry_subkey` keeps the store well-formed, whatever fails. */
  lemma PutSubkeyWellFormed(keys: map<Loc, KeyNode>, faults: map<Call, OsError>, now: int, hive: int, parent: string,
                            subkeyName: string, view32: bool)
    requires WellFormedStore(keys)
    ensures WellFormedStore(PutSubkeySpec(keys, faults, now, hive, parent, subkeyName, view32).keys)
  {
    EnsureWellFormed(keys, faults, now, hive, parent, view32);
    var k := EnsureSpec(keys, faults, now, hive, parent, view32).keys;
    EnsureWellFormed(k, faults, now, hive, JoinRegistryPaths(parent, subkeyName), view32);
  }

  /** `delete_registry_value` keeps the store well-formed, whatever fails. */
  lemma DeleteValueWellFormed(keys: map<Loc, KeyNode>, faults: map<Call, OsError>, now: int, hive: int, full: string,
                              name: string, view32: bool)
    requires WellFormedStore(keys)
    ensures WellFormedStore(DeleteValueSpec(keys, faults, now, hive, full, name, view32).keys)
  {
    match Opened(keys, faults, hive, full, KEY_SET_VALUE, view32)
    case Failure(_) =>
    case Success(h) =>
      if DeleteValueOutcome(keys, faults, h, name).None? {
        WithoutValueWellFormed(keys, h.loc, name, now);
      }
  }

  /** `delete_registry_key` keeps the store well-formed, whichever split it uses
      and whatever fails. */
  lemma DeleteKeyWellFormed(split: string -> (string, string), keys: map<Loc, KeyNode>, faults: map<Call, OsError>,
                            hive: int, full: string, view32: bool)
    requires WellFormedStore(keys)
    ensures WellFormedStore(DeleteKeyWith(split, keys, faults, hive, full, view32).keys)
  {
    var (parent, child) := split(full);
    match Opened(keys, faults, hive, parent, KEY_CREATE_SUB_KEY, view32)
    case Failure(_) =>
    case Success(h) =>
      if DeleteKeyOutcome(keys, faults, h, child).None? {
        WithoutKeyWellFormed(keys, ChildLoc(h, child));
      }
  }

  /** A single key name: non-empty, with no separator of either kind. */
  predicate KeyName(n: string)
  {
    n != "" && '/' !in n && '\\' !in n
  }

  /** A single key name joined below a parent addresses the parent's key plus
      that name. */
  lemma SubkeyPathSegments(parent: string, subkeyName: string)
    requires parent == "" || PlainPath(parent)
    requires KeyName(subkeyName)
    ensures Segments(JoinRegistryPaths(parent, subkeyName)) == Segments(parent) + [subkeyName]
  {
    assert Segments(subkeyName) == [subkeyName] by {
      assert LastIndexOf(subkeyName, '\\').None?;
    }
    if parent != "" {
      JoinedPathSegments(parent, subkeyName);
    }
  }

  /** In a well-formed store, a stored key is listed among its parent's subkeys. */
  lemma StoredChildListed(keys: map<Loc, KeyNode>, hive: int, parent: string, name: string, view32: bool)
    requires WellFormedStore(keys)
    requires Loc(hive, view32, Segments(parent) + [name]) in keys
    ensures ListSubkeysSpec(keys, map[], hive, parent, view32).Success?
    ensures name in ListSubkeysSpec(keys, map[], hive, parent, view32).value
  {
    var loc := Loc(hive, view32, Segments(parent) + [name]);
    assert Parent(loc) == KeyAt(hive, parent, view32);
    assert LastName(loc) == name;
    ListSubkeysComplete(keys, hive, parent, view32);
  }

  /** A subkey that `put_registry_subkey` created is then listed among its
      parent's subkeys, in a store that stays well-formed. */
  lemma PutSubkeyThenListed(keys: map<Loc, KeyNode>, faults: map<Call, OsError>, now: int, hive: int,
                            parent: string, subkeyName: string, view32: bool)
    requires WellFormedStore(keys)
    requires parent == "" || PlainPath(parent)
    requires KeyName(subkeyName)
    requires PutSubkeySpec(keys, faults, now, hive, parent, subkeyName, view32).result.Pass?
    ensures var after := PutSubkeySpec(keys, faults, now, hive, parent, subkeyName, view32).keys;
      && WellFormedStore(after)
      && ListSubkeysSpec(after, map[], hive, parent, view32).Success?
      && subkeyName in ListSubkeysSpec(after, map[], hive, parent, view32).value
  {
    StandardMasksSelectView(view32);
    PutSubkeyWellFormed(keys, faults, now, hive, parent, subkeyName, view32);
    var full := JoinRegistryPaths(parent, subkeyName);
    SubkeyPathSegments(parent, subkeyName);
    var ensured := EnsureSpec(keys, faults, now, hive, parent, view32);
    var s := CreateAndClose(ensured.keys, faults, now, hive, full, view32);
    assert s == PutSubkeySpec(keys, faults, now, hive, parent, subkeyName, view32);
    assert Exists(s.keys, Loc(hive, view32, Segments(full)));
    StoredChildListed(s.keys, hive, parent, subkeyName, view32);
  }

  /** With nothing failing, a missing key is reported as not found by every
      operation that opens it. */
  lemma MissingKeyNotFound(keys: map<Loc, KeyNode>, now: int, hive: int, full: string, name: string, view32: bool)
    requires !Exists(keys, KeyAt(hive, full, view32))
    ensures var r := GetValueSpec(keys, map[], hive, full, name, view32); r.Failure? && r.error.kind == KeyNotFound
    ensures var r := ListValuesSpec(keys, map[], hive, full, view32); r.Failure? && r.error.kind == KeyNotFound
    ensures var r := ListSubkeysSpec(keys, map[], hive, full, view32); r.Failure? && r.error.kind == KeyNotFound
    ensures var r := HeadSpec(keys, map[], hive, full, view32); r.Failure? && r.error.kind == KeyNotFound
    ensures var s := DeleteValueSpec(keys, map[], now, hive, full, name, view32);
      s.result.Fail? && s.result.error.kind == KeyNotFound && s.keys == keys
    ensures var s := DeleteKeySpec(keys, map[], hive, full, view32);
      s.result == Fail(Registry(HandleWinregError(OsErr(NotFound), full, None))) && s.keys == keys
      && s.result.error.error.kind == KeyNotFound
  {
    StandardMasksSelectView(view32);
    assert KindForCode(Some(ERROR_FILE_NOT_FOUND)) == KeyNotFound;
  }

  /** Deleting a value is idempotent: once deleted, deleting it again succeeds
      and changes nothing, and reading it reports value-not-found. */
  lemma DeleteValueIdempotent(keys: map<Loc, KeyNode>, now: int, hive: int, full: string, name: string, view32: bool)
    requires Exists(keys, KeyAt(hive, full, view32))
    ensures var first := DeleteValueSpec(keys, map[], now, hive, full, name, view32);
      && first.result == Pass
      && DeleteValueSpec(first.keys, map[], now, hive, full, name, view32) == Step(Pass, first.keys)
      && GetValueSpec(first.keys, map[], hive, full, name, view32) == Failure(Raise(ValueNotFound, ValueNotFoundMessage(name, full)))
  {
    StandardMasksSelectView(view32);
    var loc := KeyAt(hive, full, view32);
    var first := DeleteValueSpec(keys, map[], now, hive, full, name, view32);
    assert Exists(first.keys, loc);
    assert FindValue(NodeAt(first.keys, loc).values, name).None?;
  }

  /** A key with subkeys or values is refused as not empty, with a message
      reporting both counts, and the store is unchanged. */
  lemma DeleteNonEmptyKeyRefused(keys: map<Loc, KeyNode>, hive: int, full: string, view32: bool)
    requires full != "" && KeyAt(hive, full, view32) in keys
    requires var n := keys[KeyAt(hive, full, view32)]; |n.subkeys| > 0 || |n.values| > 0
    ensures var s := DeleteKeySpec(keys, map[], hive, full, view32);
      var n := keys[KeyAt(hive, full, view32)];
      && s.keys == keys
      && s.result == Fail(Registry(Raise(KeyNotEmpty, NotEmptyMessage(full, |n.subkeys|, |n.values|))))
  {
    StandardMasksSelectView(view32);
  }

  /** The hive itself is never deleted. */
  lemma DeleteRootRefused(keys: map<Loc, KeyNode>, faults: map<Call, OsError>, hive: int, view32: bool)
    ensures DeleteKeySpec(keys, faults, hive, "", view32) == Step(Fail(Builtin(ValueError)), keys)
  {
  }

  /** What a successful `delete_registry_key` did: the key it checked existed and
      was empty, and that same key, and nothing else but its parent's list of
      subkeys, is gone. */
  lemma DeleteKeyRemovesCheckedKey(keys: map<Loc, KeyNode>, faults: map<Call, OsError>, hive: int, full: string, view32: bool)
    requires WellFormedKeyPath(full)
    requires DeleteKeySpec(keys, faults, hive, full, view32).result.Pass?
    ensures var loc := KeyAt(hive, full, view32);
      && loc in keys && keys[loc].subkeys == [] && keys[loc].values == []
      && DeleteKeySpec(keys, faults, hive, full, view32).keys == WithoutKey(keys, loc)
  {
    StandardMasksSelectView(view32);
    var loc := KeyAt(hive, full, view32);
    SplitKeyPathAddressesSameKey(full);
    var (parent, name) := SplitKeyPath(full);
    assert Segments(full) == Pieces(full);
    var ph := HandleInfo(KeyAt(hive, parent, view32), EffectiveAccess(KEY_CREATE_SUB_KEY, view32));
    assert ChildLoc(ph, name) == loc;
  }

  /** On a well-formed key path without '/', `delete_registry_key` as written
      and with the corrected split do the same. */
  lemma DeleteKeySplitsAgree(keys: map<Loc, KeyNode>, faults: map<Call, OsError>, hive: int, full: string, view32: bool)
    requires WellFormedKeyPath(full) && '/' !in full
    ensures DeleteKeyWith(NtSplit, keys, faults, hive, full, view32) == DeleteKeySpec(keys, faults, hive, full, view32)
  {
    NtSplitAgrees(full);
  }

  lemma AfterLastSepOfSlashPath()
    ensures AfterLastSep("a/b") == 2
  {
    var p := "a/b";
    assert p[1] == '/' && p[2] == 'b';
  }

  lemma StripTrailingSlash()
    ensures StripTrailingSeps("a/") == "a"
  {
    var q := "a/";
    assert q[0] == 'a' && q[1] == '/';
    var h := StripTrailingSeps(q);
    assert |h| == 1;
    assert h == q[..1] == "a";
  }

  lemma NtSplitOfSlashPath()
    ensures NtSplit("a/b") == ("a", "b")
  {
    var p := "a/b";
    assert p[0] == 'a';
    NtSplitUnrooted(p);
    AfterLastSepOfSlashPath();
    assert p[..2] == "a/" && p[2..] == "b";
    StripTrailingSlash();
  }

  /** The path functions on "a/b": the Windows split breaks at '/', the registry does not. */
  lemma SlashPathSplits()
    ensures NtSplit("a/b") == ("a", "b")
    ensures SplitKeyPath("a/b") == ("", "a/b")
    ensures Segments("a/b") == ["a/b"] && Segments("a") == ["a"] && Segments("b") == ["b"]
  {
    NtSplitOfSlashPath();
    LastIndexOfNone("a/b", '\\');
    LastIndexOfNone("a", '\\');
    LastIndexOfNone("b", '\\');
  }



  /** A well-formed store where the key "a/b" directly under the hive is empty
      while the key "a\b" holds a value. */
  function SlashStore(hive: int): map<Loc, KeyNode>
  {
    map[Loc(hive, false, []) := KeyNode(["a/b", "a"], [], 0),
        Loc(hive, false, ["a/b"]) := KeyNode([], [], 0),
        Loc(hive, false, ["a"]) := KeyNode(["b"], [], 0),
        Loc(hive, false, ["a", "b"]) := KeyNode([], [Entry("v", PyInt(1), 4)], 0)]
  }

  /** The example store is well-formed. */
  lemma SlashStoreWellFormed(hive: int)
    ensures WellFormedStore(SlashStore(hive))
  {
    var keys := SlashStore(hive);
    var root, ab, a, aUnderB := Loc(hive, false, []), Loc(hive, false, ["a/b"]), Loc(hive, false, ["a"]), Loc(hive, false, ["a", "b"]);
    assert keys.Keys == {root, ab, a, aUnderB};
    assert Parent(ab) == root && Parent(a) == root && Parent(aUnderB) == a;
    forall l, n | l in keys && n in keys[l].subkeys
      ensures Child(l, n) in keys
    {
      if l == root {
        assert n == "a/b" || n == "a";
        assert Child(root, "a/b") == ab && Child(root, "a") == a;
      } else {
        assert l == a && n == "b";
        assert Child(a, "b") == aUnderB;
      }
    }
  }

  /** The finding in `delete_registry_key` as written: it checks that "a/b" is
      empty, but its split also breaks at '/', so the non-empty key "a\b" is
      deleted instead, value and all. */
  lemma DeleteKeyAsWrittenDeletesOtherKey(hive: int)
    ensures var keys := SlashStore(hive);
      var other := Loc(hive, false, ["a", "b"]);
      && keys[other].values != []
      && DeleteKeyWith(NtSplit, keys, map[], hive, "a/b", false) == Step(Pass, WithoutKey(keys, other))
      && Loc(hive, false, ["a/b"]) in WithoutKey(keys, other) && other !in WithoutKey(keys, other)
  {
    SlashPathSplits();
    StandardMasksSelectView(false);
    var keys := SlashStore(hive);
    var other := Loc(hive, false, ["a", "b"]);
    assert LocOf(hive, "a/b", EffectiveAccess(KEY_READ, false)) == Loc(hive, false, ["a/b"]);
    assert CheckEmpty(keys, map[], hive, "a/b", false) == Pass;
    var ph := HandleInfo(Loc(hive, false, ["a"]), EffectiveAccess(KEY_CREATE_SUB_KEY, false));
    assert Opened(keys, map[], hive, "a", KEY_CREATE_SUB_KEY, false) == Success(ph);
    assert ChildLoc(ph, "b") == other;
    assert DeleteKeyOutcome(keys, map[], ph, "b").None?;
  }

  /** Split at backslashes only, the same call deletes the key it checked. */
  lemma DeleteKeyCorrectedDeletesCheckedKey(hive: int)
    ensures var keys := SlashStore(hive);
      var checked := Loc(hive, false, ["a/b"]);
      && DeleteKeySpec(keys, map[], hive, "a/b", false) == Step(Pass, WithoutKey(keys, checked))
      && Loc(hive, false, ["a", "b"]) in WithoutKey(keys, checked)
  {
    SlashPathSplits();
    StandardMasksSelectView(false);
    var keys := SlashStore(hive);
    var checked := Loc(hive, false, ["a/b"]);
    assert CheckEmpty(keys, map[], hive, "a/b", false) == Pass;
    var ph := HandleInfo(Loc(hive, false, []), EffectiveAccess(KEY_CREATE_SUB_KEY, false));
    assert Opened(keys, map[], hive, "", KEY_CREATE_SUB_KEY, false) == Success(ph);
    assert ChildLoc(ph, "a/b") == checked;
    assert DeleteKeyOutcome(keys, map[], ph, "a/b").None?;
  }
}
