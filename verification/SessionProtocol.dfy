/** `get_session` and `_compensate_rollback_files` of `db.py`: what becomes of the transaction, of the files
    registered for clean-up and of the intent gate on every way out of a request. */
module SessionProtocol {
  import opened Text
  import opened Utf8

  type Bytes = seq<Byte>

  /** A registered file, or something else found in the registration. */
  datatype Registered = RollbackFile(path: string, sha: string, size: nat, maxSize: nat) | Alien

  /** The registration in `session.info`: none, a set, tuple or list, or another value, which may be true. */
  datatype Registration = Absent | Collection(items: seq<Registered>) | Other(truthy: bool)

  predicate Truthy(r: Registration) {
    (r.Collection? && |r.items| > 0) || (r.Other? && r.truthy)
  }

  function ItemsOf(r: Registration): seq<Registered> {
    if r.Collection? then r.items else []
  }

  /** The lease of the intent gate; `unlocks` counts the times its lock was released. */
  class Lease {
    var released: bool
    var unlocks: nat

    constructor ()
      ensures !released && unlocks == 0
    {
      released, unlocks := false, 0;
    }

    method Release()
      modifies this
      ensures released && unlocks == old(unlocks) + if old(released) then 0 else 1
    {
      if released {
        return;
      }
      released := true;
      unlocks := unlocks + 1;
    }
  }

  // ----- Files -----

  /** The artifact store; paths in `unavailable` cannot be read or removed. */
  class Store {
    const sha: Bytes -> string
    const unavailable: set<string>
    var files: map<string, Bytes>

    constructor (sha: Bytes -> string, unavailable: set<string>, files: map<string, Bytes>)
      ensures this.sha == sha && this.unavailable == unavailable && this.files == files
    {
      this.sha, this.unavailable, this.files := sha, unavailable, files;
    }

    /** `delete_verified_exact`; false where it raises `StorageIntegrityError`. */
    method DeleteVerifiedExact(c: Registered) returns (ok: bool)
      requires c.RollbackFile?
      modifies this
      ensures files == Without(sha, unavailable, old(files), c)
      ensures !ok ==> files == old(files)
    {
      if c.path in unavailable {
        return false;
      }
      if c.path !in files {
        return true;
      }
      if !Matches(sha, files[c.path], c) {
        return false;
      }
      files := files - {c.path};
      return true;
    }
  }

  /** The bytes are still those that were registered. */
  predicate Matches(sha: Bytes -> string, data: Bytes, c: Registered) {
    c.RollbackFile? && sha(data) == c.sha && |data| == c.size && |data| <= c.maxSize
  }

  predicate Removes(sha: Bytes -> string, unavailable: set<string>, files: map<string, Bytes>, c: Registered) {
    c.RollbackFile? && c.path !in unavailable && c.path in files && Matches(sha, files[c.path], c)
  }

  function Without(sha: Bytes -> string, unavailable: set<string>, files: map<string, Bytes>,
                   c: Registered): map<string, Bytes> {
    if Removes(sha, unavailable, files, c) then files - {c.path} else files
  }

  /** What is left when every registered file that still matches is removed, and nothing else. */
  ghost predicate Compensated(sha: Bytes -> string, unavailable: set<string>, before: map<string, Bytes>,
                              items: seq<Registered>,
                              after: map<string, Bytes>)
  {
    && (forall path :: path in after ==> path in before && after[path] == before[path])
    && forall path :: path in before ==>
         (path !in after <==>
          exists i :: 0 <= i < |items| && items[i].RollbackFile? && items[i].path == path
            && Removes(sha, unavailable, before, items[i]))
  }

  lemma CompensateOne(sha: Bytes -> string, unavailable: set<string>, before: map<string, Bytes>,
                      items: seq<Registered>, k: nat,
                      after: map<string, Bytes>)
    requires k < |items| && Compensated(sha, unavailable, before, items[..k], after)
    ensures Compensated(sha, unavailable, before, items[..k + 1], Without(sha, unavailable, after, items[k]))
  {
    var c, more := items[k], items[..k + 1];
    var next := Without(sha, unavailable, after, c);
    assert more[k] == c && forall i :: 0 <= i < k ==> more[i] == items[..k][i];
    forall path | path in before
      ensures path !in next <==>
        exists i :: 0 <= i < |more| && more[i].RollbackFile? && more[i].path == path &&
          Removes(sha, unavailable, before, more[i])
    {
      if path !in after {
        var i :| 0 <= i < k && items[..k][i].RollbackFile? && items[..k][i].path == path &&
          Removes(sha, unavailable, before, items[..k][i]);
        assert more[i].path == path;
      } else if path !in next {
        assert more[k].path == path && Removes(sha, unavailable, before, more[k]);
      } else {
        forall i | 0 <= i < |more| && more[i].RollbackFile? && more[i].path == path
          ensures !Removes(sha, unavailable, before, more[i]) {
          if i < k {
            assert more[i] == items[..k][i];
          }
        }
      }
    }
  }

  // ----- The session -----

  /** `rollbackFails` and `commitFails` say what the database will do. */
  class Session {
    const commitFails: bool
    const rollbackFails: bool
    var authLastUsed: bool
    var cleanup: Registration
    var gate: Option<Lease>
    var committed: bool
    var rolledBack: bool

    constructor (commitFails: bool, rollbackFails: bool, authLastUsed: bool, cleanup: Registration, gate: Option<Lease>)
      ensures this.commitFails == commitFails && this.rollbackFails == rollbackFails
      ensures this.authLastUsed == authLastUsed && this.cleanup == cleanup && this.gate == gate && !committed &&
        !rolledBack
    {
      this.commitFails, this.rollbackFails := commitFails, rollbackFails;
      this.authLastUsed, this.cleanup, this.gate := authLastUsed, cleanup, gate;
      committed, rolledBack := false, false;
    }
  }

  /** `_compensate_rollback_files` */
  method Compensate(session: Session, store: Option<Store>)
    requires store.Some? ==> store.value as object != session
    modifies session`cleanup, if store.Some? then {store.value} else {}
    ensures session.cleanup == Absent
    ensures store.Some? ==>
      Compensated(store.value.sha, store.value.unavailable, old(store.value.files), ItemsOf(old(session.cleanup)),
        store.value.files)
  {
    var registered := session.cleanup;
    session.cleanup := Absent;
    if !registered.Collection? || store.None? {
      return;
    }
    var s, items := store.value, registered.items;
    for k := 0 to |items|
      invariant session.cleanup == Absent
      invariant Compensated(s.sha, s.unavailable, old(s.files), items[..k], s.files)
    {
      CompensateOne(s.sha, s.unavailable, old(s.files), items, k, s.files);
      if items[k].RollbackFile? {
        var ok := s.DeleteVerifiedExact(items[k]);
      }
    }
    assert items[..|items|] == items;
  }

  /** `await session.rollback()` and, if it did not raise, the compensation. */
  method RollBackAndCompensate(session: Session, store: Option<Store>) returns (raised: bool)
    requires store.Some? ==> store.value as object != session
    modifies session`cleanup, session`rolledBack, if store.Some? then {store.value} else {}
    ensures raised == session.rollbackFails && session.rolledBack == (old(session.rolledBack) || !raised)
    ensures raised ==> session.cleanup == old(session.cleanup)
    ensures raised && store.Some? ==> store.value.files == old(store.value.files)
    ensures !raised ==> session.cleanup == Absent
    ensures !raised && store.Some? ==>
      Compensated(store.value.sha, store.value.unavailable, old(store.value.files), ItemsOf(old(session.cleanup)),
        store.value.files)
  {
    if session.rollbackFails {
      return true;
    }
    session.rolledBack := true;
    Compensate(session, store);
    return false;
  }

  /** The `try` block: what happens once the request's own code is over. */
  method Settle(session: Session, store: Option<Store>, bodyRaises: bool) returns (raised: bool)
    requires store.Some? ==> store.value as object != session
    requires !session.committed && !session.rolledBack
    modifies session`cleanup, session`rolledBack, session`committed, session`authLastUsed, if store.Some?
      then {store.value} else {}
    ensures session.committed <==> !bodyRaises && old(session.authLastUsed) && !session.commitFails
    ensures session.rolledBack <==>
      !session.rollbackFails && !session.committed &&
        (bodyRaises || old(session.authLastUsed) || Truthy(old(session.cleanup)))
    ensures raised <==>
      || bodyRaises || (old(session.authLastUsed) && session.commitFails)
      || (!old(session.authLastUsed) && Truthy(old(session.cleanup)) && session.rollbackFails)
    ensures store.Some? && session.rolledBack ==>
      Compensated(store.value.sha, store.value.unavailable, old(store.value.files), ItemsOf(old(session.cleanup)),
        store.value.files)
    ensures store.Some? && !session.rolledBack ==> store.value.files == old(store.value.files)
    ensures session.committed ==> session.cleanup == Absent
  {
    if bodyRaises {
      var failed := RollBackAndCompensate(session, store);
      return true;
    }
    var requested := session.authLastUsed;
    session.authLastUsed := false;
    if requested {
      if session.commitFails {
        var failed := RollBackAndCompensate(session, store);
        return true;
      }
      session.committed := true;
      session.cleanup := Absent;
      return false;
    }
    if Truthy(session.cleanup) {
      raised := RollBackAndCompensate(session, store);
      return;
    }
    return false;
  }

  /** `get_session`: on every way out the transaction is settled as above and the gate released once. */
  method GetSession(session: Session, store: Option<Store>, bodyRaises: bool) returns (raised: bool)
    requires store.Some? ==> store.value as object != session
    requires session.gate.Some? ==> !session.gate.value.released
    requires session.gate.Some? ==>
      session.gate.value as object != session && (store.Some? ==> session.gate.value as object != store.value)
    requires !session.committed && !session.rolledBack
    modifies session, if store.Some? then {store.value} else {}, if session.gate.Some? then {session.gate.value} else {}
    ensures session.gate == None
    ensures old(session.gate).Some? ==>
      old(session.gate).value.released && old(session.gate).value.unlocks == old(session.gate.value.unlocks) + 1
    ensures session.committed <==> !bodyRaises && old(session.authLastUsed) && !session.commitFails
    ensures session.rolledBack <==>
      !session.rollbackFails && !session.committed &&
        (bodyRaises || old(session.authLastUsed) || Truthy(old(session.cleanup)))
    ensures store.Some? && session.rolledBack ==>
      Compensated(store.value.sha, store.value.unavailable, old(store.value.files), ItemsOf(old(session.cleanup)),
        store.value.files)
    ensures store.Some? && !session.rolledBack ==> store.value.files == old(store.value.files)
    ensures raised <==>
      || bodyRaises || (old(session.authLastUsed) && session.commitFails)
      || (!old(session.authLastUsed) && Truthy(old(session.cleanup)) && session.rollbackFails)
  {
    raised := Settle(session, store, bodyRaises);
    var gate := session.gate;
    session.gate := None;
    if gate.Some? {
      gate.value.Release();
    }
  }
}
