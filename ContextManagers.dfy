/** `RegistryKey`: the context manager that opens a key on entry and closes its
    handle on exit. */
module RegistryContext {
  import opened Wrappers
  import opened RegistryErrors
  import opened OsRegistry

  /** The access mask actually requested: the 32-bit view flag is added when asked for. */
  function EffectiveAccess(access: bv32, view32: bool): (a: bv32)
    ensures ViewOf(a) <==> view32 || ViewOf(access)
    ensures a & !KEY_WOW64_32KEY == access & !KEY_WOW64_32KEY
  {
    if view32 then access | KEY_WOW64_32KEY else access
  }

  /** The key and view every standard access mask of the package opens: none of
      them carries the 32-bit flag, so the view is exactly the one asked for. */
  lemma StandardMasksSelectView(view32: bool)
    ensures ViewOf(EffectiveAccess(KEY_READ, view32)) == view32
    ensures ViewOf(EffectiveAccess(KEY_WRITE, view32)) == view32
    ensures ViewOf(EffectiveAccess(KEY_SET_VALUE, view32)) == view32
    ensures ViewOf(EffectiveAccess(KEY_CREATE_SUB_KEY, view32)) == view32
    ensures ViewOf(EffectiveAccess(KEY_ENUMERATE_SUB_KEYS, view32)) == view32
  {
  }

  class RegistryKey {
    const rootKey: int
    const subkey: string
    const access: bv32
    const access32bitView: bool
    /** The open handle, if any; a present handle is the truthy one of the source. */
    var keyHandle: Option<Handle>

    /** The key this context manager opens. */
    function Target(): Loc
    {
      LocOf(rootKey, subkey, EffectiveAccess(access, access32bitView))
    }

    /** A held handle is open and refers to the target key. */
    ghost predicate HoldsOpen(os: Registry)
      reads this, os
    {
      keyHandle.Some? ==> keyHandle.value in os.handles && os.handles[keyHandle.value].loc == Target()
    }

    constructor (rootKey: int, subkey: string, access: bv32, access32bitView: bool)
      ensures this.rootKey == rootKey && this.subkey == subkey
      ensures this.access == access && this.access32bitView == access32bitView
      ensures keyHandle == None
    {
      this.rootKey := rootKey;
      this.subkey := subkey;
      this.access := access;
      this.access32bitView := access32bitView;
      keyHandle := None;
    }

    /** `__enter__`: opens the target with the effective access; an OS error is
        translated against the subkey path, and then no handle is held. */
    method Enter(os: Registry) returns (r: Result<Handle, RegistryError>)
      requires os.Valid()
      modifies this, os
      ensures os.Valid()
      ensures (old(HoldsOpen(os)) || r.Success?) ==> HoldsOpen(os)
      ensures os.keys == old(os.keys)
      ensures os.log == old(os.log) + [OpenCall(Target())]
      ensures match OpenOutcome(os.keys, os.faults, Target())
        case Some(e) =>
          && r == Failure(HandleWinregError(OsErr(e), subkey, None))
          && keyHandle == old(keyHandle) && os.handles == old(os.handles)
        case None =>
          && r.Success? && keyHandle == Some(r.value) && r.value !in old(os.handles)
          && os.handles == old(os.handles)[r.value := HandleInfo(Target(), EffectiveAccess(access, access32bitView))]
    {
      var effective := EffectiveAccess(access, access32bitView);
      var outcome := os.OpenKey(rootKey, subkey, effective);
      match outcome
      case Success(h) =>
        keyHandle := Some(h);
        r := Success(h);
      case Failure(e) =>
        r := Failure(HandleWinregError(OsErr(e), subkey, None));
    }

    /** `__exit__`: closes a held handle, swallowing any error the close reports,
        and forgets it; without a handle nothing is called. */
    method Exit(os: Registry)
      requires os.Valid() && HoldsOpen(os)
      modifies this, os
      ensures os.Valid() && HoldsOpen(os)
      ensures keyHandle == None
      ensures os.keys == old(os.keys)
      ensures old(keyHandle).Some? ==>
        os.handles == old(os.handles) - {old(keyHandle).value} && os.log == old(os.log) + [CloseCall(Target())]
      ensures old(keyHandle).None? ==> os.handles == old(os.handles) && os.log == old(os.log)
    {
      if keyHandle.Some? {
        var _ := os.CloseKey(keyHandle.value);
      }
      keyHandle := None;
    }
  }
}
