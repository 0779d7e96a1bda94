/**
 `CredentialManager` on the heap: one bucket object in the session state, mutable credential records, and the
 process-wide cache whose entries hold copies of them. Every method is proved to do what CredentialModel says.
 */
module CredentialManager {
  import opened Prelude
  import Model = CredentialModel

  class StoredCredential {
    var service: string
    var url: string
    var email: string
    var apiToken: string
    var workspace: string
    var deployment: string
    var storedAt: real
    var lastValidatedAt: Option<real>
    var isValid: Option<bool>

    constructor (c: Model.Credential)
      ensures Value() == c
    {
      service, url, email, apiToken := c.service, c.url, c.email, c.apiToken;
      workspace, deployment, storedAt := c.workspace, c.deployment, c.storedAt;
      lastValidatedAt, isValid := c.lastValidatedAt, c.isValid;
    }

    function Value(): Model.Credential
      reads this
    {
      Model.Credential(service, url, email, apiToken, workspace, deployment, storedAt, lastValidatedAt, isValid)
    }

    method Judge(ok: bool, now: real)
      modifies this
      ensures Value() == Model.Judged(old(Value()), ok, now)
      ensures isValid == Some(ok) && lastValidatedAt == if ok then Some(now) else old(lastValidatedAt)
    {
      isValid := Some(ok);
      if ok {
        lastValidatedAt := Some(now);
      }
    }
  }

  /** The record objects of `m`, all in `objects`, hold the records of `records`. */
  ghost predicate Holds(m: map<string, StoredCredential>, records: map<string, Model.Credential>, objects: set<StoredCredential>)
    reads objects
  {
    m.Keys == records.Keys && forall v :: v in m ==> m[v] in objects && m[v].Value() == records[v]
  }

  lemma HoldsEmpty(m: map<string, StoredCredential>, records: map<string, Model.Credential>)
    requires m.Keys == records.Keys
    ensures m == map[] <==> records == map[]
  {
    assert m == map[] <==> m.Keys == {};
    assert records == map[] <==> records.Keys == {};
  }

  class SessionBucket {
    var credentials: map<string, StoredCredential>
    var lastActivity: real
    var startedAt: real
    var restoreKey: Option<string>
    ghost var records: map<string, Model.Credential>
    ghost var objects: set<StoredCredential>

    ghost predicate Valid()
      reads this, objects
    {
      Holds(credentials, records, objects) && Separate(credentials)
    }

    ghost function Value(): Model.Bucket
      reads this
    {
      Model.Bucket(records, lastActivity, startedAt, restoreKey)
    }

    constructor (credentials: map<string, StoredCredential>, lastActivity: real, startedAt: real, restoreKey: Option<string>,
                 ghost records: map<string, Model.Credential>, ghost objects: set<StoredCredential>)
      requires Holds(credentials, records, objects) && Separate(credentials)
      ensures Valid() && Value() == Model.Bucket(records, lastActivity, startedAt, restoreKey)
      ensures this.credentials == credentials && this.objects == objects
    {
      this.credentials, this.lastActivity, this.records := credentials, lastActivity, records;
      this.startedAt, this.restoreKey, this.objects := startedAt, restoreKey, objects;
    }

    method Clear()
      modifies this
      ensures Valid() && credentials == map[]
    {
      credentials, records := map[], map[];
    }

    /** Puts a new record object under `service`. */
    method Put(service: string, cred: StoredCredential, now: real)
      requires Valid() && cred !in objects
      modifies this
      ensures Valid() && credentials == old(credentials)[service := cred] && objects == old(objects) + {cred}
      ensures Value() == old(Value()).(credentials := old(records)[service := cred.Value()], lastActivity := now)
    {
      credentials, lastActivity := credentials[service := cred], now;
      records, objects := records[service := cred.Value()], objects + {cred};
    }

    method Remove(service: string, now: real)
      requires Valid() && service in credentials
      modifies this
      ensures Valid() && objects == old(objects)
      ensures Value() == old(Value()).(credentials := old(records) - {service}, lastActivity := now)
    {
      credentials, lastActivity := credentials - {service}, now;
      records := records - {service};
    }

    /** The in-place update of one record object after a validation. */
    method Judge(service: string, ok: bool, now: real)
      requires Valid() && service in credentials
      modifies `records, credentials[service]
      ensures credentials[service].isValid == Some(ok)
      ensures credentials[service].lastValidatedAt == if ok then Some(now) else old(credentials[service].lastValidatedAt)
      ensures Valid() && Value() == old(Value()).(credentials := old(records)[service := Model.Judged(old(records)[service], ok, now)])
    {
      var cred := credentials[service];
      cred.Judge(ok, now);
      records := records[service := cred.Value()];
    }
  }

  /** A cache entry: its dictionary is never changed, only replaced. */
  datatype CachedCredentials = CachedCredentials(credentials: map<string, StoredCredential>, lastActivity: real, startedAt: real)

  ghost predicate Shows(e: CachedCredentials, m: Model.Entry, objects: set<StoredCredential>)
    reads objects
  {
    e.lastActivity == m.lastActivity && e.startedAt == m.startedAt && Holds(e.credentials, m.credentials, objects)
  }

  class RestoreCache {
    var entries: map<string, CachedCredentials>
    ghost var value: map<string, Model.Entry>
    ghost var objects: set<StoredCredential>

    ghost predicate Valid()
      reads this, objects
    {
      entries.Keys == value.Keys && forall k :: k in entries ==> Shows(entries[k], value[k], objects)
    }

    method Pop(key: string)
      requires Valid()
      modifies this
      ensures Valid() && value == old(value) - {key} && objects == old(objects)
    {
      entries, value := entries - {key}, value - {key};
    }

    method Set(key: string, entry: CachedCredentials, ghost m: Model.Entry, ghost copies: set<StoredCredential>)
      requires Valid() && Shows(entry, m, copies)
      modifies this
      ensures Valid() && value == old(value)[key := m] && objects == old(objects) + copies
    {
      ghost var more := objects + copies;
      assert forall k :: k in entries ==> Shows(entries[k], value[k], more);
      assert Shows(entry, m, more);
      entries, value, objects := entries[key := entry], value[key := m], more;
    }
  }

  /** `_copy_restore_credentials`: a new object for every record. */
  method CopyCredentials(m: map<string, StoredCredential>, ghost records: map<string, Model.Credential>,
                         ghost objects: set<StoredCredential>)
    returns (copy: map<string, StoredCredential>, ghost copies: set<StoredCredential>)
    requires Holds(m, records, objects)
    ensures Holds(copy, records, copies) && Separate(copy) && fresh(copies)
  {
    copy, copies := map[], {};
    var todo := m.Keys;
    while todo != {}
      invariant todo <= m.Keys && copy.Keys == m.Keys - todo && Separate(copy) && fresh(copies)
      invariant forall v :: v in copy ==> copy[v] in copies && copy[v].Value() == records[v]
      decreases todo
    {
      var v :| v in todo;
      var c := new StoredCredential(m[v].Value());
      copy, copies := copy[v := c], copies + {c};
      todo := todo - {v};
    }
  }

  /** `_sync_restore_cache`: copies the bucket into the cache. */
  method SyncRestoreCache(bucket: SessionBucket, cache: RestoreCache)
    requires bucket.Valid() && cache.Valid()
    modifies cache
    ensures cache.Valid() && fresh(cache.objects - old(cache.objects))
    ensures Model.Session(Some(bucket.Value()), cache.value) ==
            Model.Sync(Model.Session(Some(bucket.Value()), old(cache.value)))
  {
    if bucket.restoreKey.None? || bucket.restoreKey.value == "" {
      return;
    }
    ghost var copies;
    var credentials;
    credentials, copies := CopyCredentials(bucket.credentials, bucket.records, bucket.objects);
    HoldsEmpty(credentials, bucket.records);
    if credentials == map[] {
      cache.Pop(bucket.restoreKey.value);
    } else {
      cache.Set(bucket.restoreKey.value, CachedCredentials(credentials, bucket.lastActivity, bucket.startedAt),
                Model.Entry(bucket.records, bucket.lastActivity, bucket.startedAt), copies);
    }
  }

  class Manager {
    var state: SessionBucket?
    const cache: RestoreCache

    ghost function Live(): map<string, StoredCredential>
      reads this, state
    {
      if state == null then map[] else state.credentials
    }

    ghost function Records(): set<StoredCredential>
      reads this, state
    {
      if state == null then {} else state.objects
    }

    /** Session records are distinct objects, and none of them is in the cache. */
    ghost predicate Valid()
      reads this, state, cache, Records(), cache.objects
    {
      cache.Valid() && (state != null ==> state.Valid()) && Records() !! cache.objects
    }

    ghost function Value(): Model.Session
      reads this, state, cache
    {
      Model.Session(if state == null then None else Some(state.Value()), cache.value)
    }

    constructor (cache: RestoreCache)
      requires cache.Valid()
      ensures Valid() && this.cache == cache && Value() == Model.Session(None, cache.value)
    {
      this.cache := cache;
      state := null;
    }

    // ---- internal ---------------------------------------------------------------

    method EnsureState(now: real)
      requires Valid()
      modifies this
      ensures Valid() && Value() == Model.Ensure(old(Value()), now)
      ensures state != null && (if old(state) == null then fresh(state) else state == old(state))
      ensures Live() == old(Live()) && Records() == old(Records())
    {
      if state == null {
        state := new SessionBucket(map[], now, now, None, map[], {});
      }
    }

    method Sync()
      requires Valid() && state != null
      modifies cache
      ensures Valid() && Value() == Model.Sync(old(Value()))
    {
      SyncRestoreCache(state, cache);
    }

    method Touch(now: real)
      requires Valid() && state != null
      modifies state, cache
      ensures Valid() && Value() == Model.Touch(old(Value()), now)
      ensures Live() == old(Live()) && Records() == old(Records())
    {
      state.lastActivity := now;
      Sync();
    }

    method ForgetKey()
      requires Valid() && state != null
      modifies cache
      ensures Valid() && Value() == old(Value()).(cache := Model.Forget(old(Value()).cache, state.restoreKey))
    {
      if state.restoreKey.Some? {
        cache.Pop(state.restoreKey.value);
      }
    }

    // ---- timeout and clear --------------------------------------------------------

    predicate IsExpired(now: real)
      reads this, state
    {
      state != null && now - state.lastActivity >= Model.TIMEOUT
    }

    method ClearAll()
      requires Valid()
      modifies this, state, cache
      ensures Valid() && state == null && Value() == Model.ClearAll(old(Value()))
    {
      if state != null {
        ForgetKey();
        var bucket := state;
        state := null;
        bucket.Clear();
      }
    }

    method EnforceTimeout(now: real) returns (cleared: bool)
      requires Valid()
      modifies this, state, cache
      ensures Valid() && cleared == Model.Expired(old(Value()), now) && Value() == Model.Enforce(old(Value()), now)
      ensures if cleared then state == null else state == old(state) && Live() == old(Live()) && Records() == old(Records())
    {
      cleared := IsExpired(now);
      if cleared {
        ClearAll();
      }
    }

    // ---- store, get, active services -------------------------------------------------

    method Store(form: Model.Form, t0: real, t1: real) returns (r: Result<StoredCredential, Model.StoreError>)
      requires Valid()
      modifies this, state
      ensures Valid()
      ensures Model.Clean(form, t0).Err? ==> r == Err(Model.Clean(form, t0).error) && Value() == old(Value())
      ensures Model.Clean(form, t0).Ok? ==>
                && r.Ok? && fresh(r.value) && r.value.Value() == Model.Clean(form, t0).value
                && Value() == Model.Put(old(Value()), Model.Clean(form, t0).value, t0, t1)
                && form.service in Live() && Live()[form.service] == r.value
    {
      var cleaned := Model.Clean(form, t0);
      if cleaned.Err? {
        return Err(cleaned.error);
      }
      EnsureState(t0);
      var cred := new StoredCredential(cleaned.value);
      state.Put(form.service, cred, t1);
      return Ok(cred);
    }

    /** Returns the record object itself, and counts as activity when it finds one. */
    method Get(service: string, t0: real, t1: real) returns (r: Option<StoredCredential>)
      requires Valid()
      modifies this, state, cache
      ensures Valid() && Value() == Model.Get(old(Value()), service, t0, t1)
      ensures r.Some? <==> Model.Found(old(Value()), service, t0).Some?
      ensures r.Some? ==>
                && state == old(state) && state != null && Live() == old(Live()) && Records() == old(Records())
                && service in Live() && r.value == Live()[service]
                && r.value.Value() == Model.Found(old(Value()), service, t0).value
    {
      var cleared := EnforceTimeout(t0);
      if cleared {
        return None;
      }
      EnsureState(t0);
      if service !in state.credentials {
        return None;
      }
      Touch(t1);
      return Some(state.credentials[service]);
    }

    /** The services with a credential, in the fixed order. */
    method GetActiveServices(now: real) returns (active: seq<string>)
      requires Valid()
      modifies this, state, cache
      ensures Valid() && Value() == Model.ListActive(old(Value()), now)
      ensures active == if Model.Expired(old(Value()), now) then [] else InOrder(Model.SERVICES, old(Live()).Keys)
      ensures Model.Expired(old(Value()), now) ==> active == []
      ensures !Model.Expired(old(Value()), now) ==>
                active == (if "jira" in old(Live()) then ["jira"] else []) + (if "confluence" in old(Live()) then ["confluence"] else [])
                          + (if "bitbucket" in old(Live()) then ["bitbucket"] else [])
    {
      var cleared := EnforceTimeout(now);
      if cleared {
        return [];
      }
      EnsureState(now);
      active := InOrder(Model.SERVICES, state.credentials.Keys);
      ThreeInOrder(state.credentials.Keys);
    }

    // ---- validate and delete -----------------------------------------------------------

    /** Updates a session record in place: until the next sync the cache still shows the old one. */
    method MarkJudged(service: string, ok: bool, now: real)
      requires Valid() && state != null && service in Live()
      modifies state`records, Live()[service]
      ensures Valid() && cache.value == old(cache.value)
      ensures Value() == Model.SetRecord(old(Value()), service, Model.Judged(old(Live()[service].Value()), ok, now))
      ensures Live() == old(Live()) && Live()[service].isValid == Some(ok)
      ensures Live()[service].lastValidatedAt == if ok then Some(now) else old(Live()[service].lastValidatedAt)
    {
      state.Judge(service, ok, now);
    }

    /** `ok` is the validator's answer, given between `t1` and `t2`. */
    method Validate(service: string, ok: bool, t0: real, t1: real, t2: real, t3: real) returns (answered: Option<bool>)
      requires Valid()
      modifies this, state, cache, Records()
      ensures Valid() && Value() == Model.Validate(old(Value()), service, ok, t0, t1, t2, t3)
      ensures answered == if Model.Found(old(Value()), service, t0).Some? then Some(ok) else None
      ensures answered.Some? ==> service in Live() && Live() == old(Live()) && Live()[service].isValid == Some(ok)
    {
      var cred := Get(service, t0, t1);
      if cred.None? {
        return None;
      }
      MarkJudged(service, ok, t2);
      Touch(t3);
      return Some(ok);
    }

    method Delete(service: string, t0: real, t1: real) returns (r: Result<bool, Model.StoreError>)
      requires Valid()
      modifies this, state, cache
      ensures Valid() && Value() == Model.Delete(old(Value()), service, t0, t1)
      ensures r == if service !in Model.SERVICES then Err(Model.UnknownService) else Ok(Model.Deletes(old(Value()), service, t0))
    {
      if service !in Model.SERVICES {
        return Err(Model.UnknownService);
      }
      var cleared := EnforceTimeout(t0);
      if cleared {
        return Ok(false);
      }
      EnsureState(t0);
      if service !in state.credentials {
        return Ok(false);
      }
      TakeOut(service, t1);
      return Ok(true);
    }

    /** Drops a record that is there; the last one takes its cache entry with it. */
    method TakeOut(service: string, now: real)
      requires Valid() && state != null && service in Live()
      modifies state, cache
      ensures Valid()
      ensures var b := old(Value()).bucket.value;
              var left := old(Value()).(bucket := Some(b.(credentials := b.credentials - {service}, lastActivity := now)));
              Value() == if left.bucket.value.credentials != map[] then Model.Sync(left)
                         else left.(cache := Model.Forget(left.cache, b.restoreKey))
    {
      state.Remove(service, now);
      HoldsEmpty(state.credentials, state.records);
      if state.credentials != map[] {
        Sync();
      } else {
        ForgetKey();
      }
    }

    // ---- cache write and restore ---------------------------------------------------------

    /** `_cache_credentials` on the manager's bucket, with the fresh random key it would use. */
    method CacheCredentials(freshKey: string, now: real)
      requires Valid()
      modifies this, state, cache
      ensures Valid() && Value() == Model.CacheWrite(old(Value()), freshKey, now)
    {
      EnsureState(now);
      if state.restoreKey.None? || state.restoreKey.value == "" {
        state.restoreKey := Some(freshKey);
      }
      Sync();
    }

    /** Replaces the bucket by one holding copies of a cache entry's records. */
    method Adopt(credentials: map<string, StoredCredential>, now: real, startedAt: real, key: string,
                 ghost records: map<string, Model.Credential>, ghost copies: set<StoredCredential>)
      requires Valid() && Holds(credentials, records, copies) && Separate(credentials) && copies !! cache.objects
      modifies this
      ensures Valid() && state != null && fresh(state)
      ensures Value() == old(Value()).(bucket := Some(Model.Bucket(records, now, startedAt, Some(key))))
    {
      state := new SessionBucket(credentials, now, startedAt, Some(key), records, copies);
    }

    /** `_restore_credentials_from_cache` with the key found in the cookie, if any. */
    method RestoreFromCache(cookie: Option<string>, now: real) returns (restored: bool)
      requires Valid()
      modifies this, state, cache
      ensures Valid() && Value() == Model.Restore(old(Value()), cookie, now)
      ensures restored == Model.Restores(old(Value()), cookie, now)
    {
      if state != null { HoldsEmpty(state.credentials, state.records); }
      if state != null && state.credentials != map[] {
        return false;
      }
      if cookie.None? || cookie.value == "" || cookie.value !in cache.entries {
        return false;
      }
      restored := RestoreEntry(cookie.value, now);
    }

    /** The part of a restore after the entry was found. */
    method RestoreEntry(key: string, now: real) returns (restored: bool)
      requires Valid() && key != "" && key in cache.entries
      requires Value().bucket.Some? ==> Value().bucket.value.credentials == map[]
      modifies this, cache
      ensures Valid() && Value() == Model.Restore(old(Value()), Some(key), now)
      ensures restored == Model.Restores(old(Value()), Some(key), now)
    {
      var cached := cache.entries[key];
      ghost var records := cache.value[key].credentials;
      if now - cached.lastActivity >= Model.TIMEOUT {
        cache.Pop(key);
        return false;
      }
      var credentials;
      ghost var copies;
      credentials, copies := CopyCredentials(cached.credentials, records, cache.objects);
      HoldsEmpty(credentials, records);
      if credentials == map[] {
        cache.Pop(key);
        return false;
      }
      Revive(credentials, cached.startedAt, key, now, records, copies);
      return true;
    }

    /** The copies become the bucket, which is then synchronised. */
    method Revive(credentials: map<string, StoredCredential>, startedAt: real, key: string, now: real,
                  ghost records: map<string, Model.Credential>, ghost copies: set<StoredCredential>)
      requires Valid() && Holds(credentials, records, copies) && Separate(credentials) && copies !! cache.objects
      modifies this, cache
      ensures Valid()
      ensures Value() == Model.Sync(old(Value()).(bucket := Some(Model.Bucket(records, now, startedAt, Some(key)))))
    {
      Adopt(credentials, now, startedAt, key, records, copies);
      Sync();
    }
  }

  function InOrder(services: seq<string>, active: set<string>): (r: seq<string>)
    ensures forall v :: v in r <==> v in services && v in active
  {
    if services == [] then []
    else (if services[0] in active then [services[0]] else []) + InOrder(services[1..], active)
  }

  /** Jira, Confluence, Bitbucket. */
  lemma ThreeInOrder(active: set<string>)
    ensures InOrder(Model.SERVICES, active) ==
            (if "jira" in active then ["jira"] else []) + (if "confluence" in active then ["confluence"] else [])
            + (if "bitbucket" in active then ["bitbucket"] else [])
  {
    var s := Model.SERVICES;
    var t := s[1..];
    var u := t[1..];
    assert t == ["confluence", "bitbucket"] && u == ["bitbucket"] && u[1..] == [];
    assert InOrder(u[1..], active) == [];
    assert InOrder(u, active) == if "bitbucket" in active then ["bitbucket"] else [];
    assert InOrder(t, active) == (if "confluence" in active then ["confluence"] else []) + InOrder(u, active);
    assert InOrder(s, active) == (if "jira" in active then ["jira"] else []) + InOrder(t, active);
  }
}
