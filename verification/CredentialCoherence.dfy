/** How the restore cache follows the session bucket, over every run of a single credential session. */
module CredentialCoherence {
  import opened Prelude
  import opened CredentialModel
  import Text

  /** Under its key the cache holds the bucket's records and times, and holds them only while there are any. */
  ghost predicate Coherent(s: Session) {
    s.bucket.Some? && s.bucket.value.restoreKey.Some? && s.bucket.value.restoreKey.value != "" ==>
      var b := s.bucket.value;
      var k := b.restoreKey.value;
      && (k in s.cache <==> b.credentials != map[])
      && (k in s.cache ==> s.cache[k] == Entry(b.credentials, b.lastActivity, b.startedAt))
  }

  /** A get or validate that hits, a deletion, a cache write, a successful restore. */
  ghost predicate Synchronises(s: Session, e: Event) {
    match e.op
    case GetOp(service) => Found(s, service, e.start).Some?
    case ValidateOp(service, _, _, _) => Found(s, service, e.start).Some?
    case DeleteOp(service) => Deletes(s, service, e.start)
    case CacheWriteOp(_) => true
    case RestoreOp(cookie) => Restores(s, cookie, e.start)
    case _ => false
  }

  ghost predicate Stores(e: Event) {
    e.op.StoreOp? && Clean(e.op.form, e.start).Ok?
  }

  /** Each of those events leaves cache and bucket in agreement, whatever they were before. */
  lemma SynchronisingEventCoheres(s: Session, e: Event)
    requires WellTimed(e) && Synchronises(s, e)
    ensures Next(s, e).bucket.Some? && Coherent(Next(s, e))
    ensures e.op.CacheWriteOp? || e.op.RestoreOp? ==> Next(s, e).bucket.value.restoreKey.Some?
  {
  }

  /** Agreement is lost only by a store. */
  lemma CoherentStep(s: Session, e: Event)
    requires WellTimed(e) && Coherent(s) && !Stores(e)
    ensures Coherent(Next(s, e))
  {
    if Synchronises(s, e) { SynchronisingEventCoheres(s, e); }
  }

  /** The cache lags the bucket only between a store and the next synchronising event. */
  lemma {:induction false} CoherentSinceLastSync(s: Session, run: seq<Event>, t: real, i: nat)
    requires Timeline(run, t) && i < |run| && Synchronises(After(s, run[..i]), run[i])
    requires forall j :: i < j < |run| ==> !Stores(run[j])
    ensures Coherent(After(s, run))
    decreases |run|
  {
    var last := |run| - 1;
    if i == last {
      SynchronisingEventCoheres(After(s, run[..last]), run[last]);
    } else {
      assert run[..last][..i] == run[..i];
      CoherentSinceLastSync(s, run[..last], t, i);
      CoherentStep(After(s, run[..last]), run[last]);
    }
  }

  // ---- delete ------------------------------------------------------------------

  /** Deletion removes one record from bucket and cache and leaves every other one, and every other cache entry. */
  lemma DeleteRemovesOneRecord(s: Session, service: string, t0: real, t1: real)
    requires Deletes(s, service, t0) && Coherent(s)
    ensures var after := Delete(s, service, t0, t1);
            && Lookup(after, service) == None
            && (forall v :: v != service ==> Lookup(after, v) == Lookup(s, v))
            && (forall k :: s.bucket.value.restoreKey != Some(k) ==> (k in after.cache <==> k in s.cache))
            && (forall k :: s.bucket.value.restoreKey != Some(k) && k in s.cache ==> after.cache[k] == s.cache[k])
            && (forall k :: s.bucket.value.restoreKey == Some(k) && k != "" ==>
                  && (k in after.cache <==> s.bucket.value.credentials.Keys != {service})
                  && (k in after.cache ==> after.cache[k].credentials == s.cache[k].credentials - {service}))
  {
    var b := s.bucket.value;
    var left := b.credentials - {service};
    assert left == map[] <==> b.credentials.Keys == {service} by {
      assert left.Keys == b.credentials.Keys - {service};
      assert left == map[] <==> left.Keys == {};
    }
  }

  // ---- gone stays gone --------------------------------------------------------------

  /** All the cache holds is under the bucket's key, is not empty, and is for services the bucket has too. */
  ghost predicate Confined(s: Session) {
    && (s.bucket.Some? ==> s.bucket.value.restoreKey != Some(""))
    && forall k :: k in s.cache ==>
         && s.bucket.Some? && s.bucket.value.restoreKey == Some(k)
         && s.cache[k].credentials != map[]
         && s.cache[k].credentials.Keys <= s.bucket.value.credentials.Keys
  }

  lemma SyncConfines(s: Session)
    requires s.bucket.Some? && s.bucket.value.restoreKey != Some("")
    requires forall k :: k in s.cache ==> s.bucket.value.restoreKey == Some(k)
    ensures Confined(Sync(s))
  {
  }

  /** With no session loss a restore never finds anything. */
  lemma ConfinedNeverRestores(s: Session, cookie: Option<string>, t: real)
    requires Confined(s)
    ensures !Restores(s, cookie, t) && Restore(s, cookie, t) == s
  {
  }

  lemma ConfinedStep(s: Session, e: Event)
    requires WellTimed(e) && Confined(s) && !e.op.LoseSession?
    ensures Confined(Next(s, e))
  {
    match e.op
    case StoreOp(form) =>
    case GetOp(service) =>
      if Found(s, service, e.start).Some? { SyncConfines(s.(bucket := Some(s.bucket.value.(lastActivity := e.end)))); }
    case ValidateOp(service, ok, got, judged) =>
      if Found(s, service, e.start).Some? {
        SyncConfines(s.(bucket := Some(s.bucket.value.(lastActivity := got))));
        var j := SetRecord(Get(s, service, e.start, got), service, Judged(Lookup(s, service).value, ok, judged));
        SyncConfines(j.(bucket := Some(j.bucket.value.(lastActivity := e.end))));
      }
    case DeleteOp(service) =>
      if Deletes(s, service, e.start) {
        var b := s.bucket.value;
        SyncConfines(s.(bucket := Some(b.(credentials := b.credentials - {service}, lastActivity := e.end))));
      }
    case CacheWriteOp(freshKey) =>
      var b := Ensure(s, e.start).bucket.value;
      var keyed := if b.restoreKey.Some? && b.restoreKey.value != "" then b else b.(restoreKey := Some(freshKey));
      SyncConfines(Ensure(s, e.start).(bucket := Some(keyed)));
    case RestoreOp(cookie) => ConfinedNeverRestores(s, cookie, e.start);
    case _ =>
  }

  /** The event may bring `service` back: a store for it. */
  ghost predicate StoresFor(e: Event, service: string) {
    Stores(e) && e.op.form.service == service
  }

  /** From an empty cache and no bucket, every run without session loss stays confined. */
  lemma {:induction false} ConfinedRun(s: Session, run: seq<Event>, t: real)
    requires s.cache == map[] && s.bucket.None? && Timeline(run, t)
    requires forall j :: 0 <= j < |run| ==> !run[j].op.LoseSession?
    ensures Confined(After(s, run))
    decreases |run|
  {
    if run != [] {
      ConfinedRun(s, run[..|run| - 1], t);
      ConfinedStep(After(s, run[..|run| - 1]), run[|run| - 1]);
    }
  }

  /** Neither the bucket nor any cache entry has the service. */
  ghost predicate Absent(s: Session, service: string) {
    Lookup(s, service).None? && forall k :: k in s.cache ==> service !in s.cache[k].credentials
  }

  /** A deletion, a logout, and any event that looks at the timeout of an expired session. */
  ghost predicate Removes(s: Session, e: Event, service: string) {
    || (e.op == DeleteOp(service) && Deletes(s, service, e.start))
    || e.op.LogoutOp?
    || (Expired(s, e.start) && (e.op.GetOp? || e.op.ValidateOp? || e.op.EnforceOp? || e.op.ListActiveOp?
                                || (e.op.DeleteOp? && e.op.service in SERVICES)))
  }

  /** A cache entry under another key than the bucket's has the service. */
  ghost predicate Elsewhere(s: Session, service: string) {
    exists k :: k in s.cache && service in s.cache[k].credentials && (s.bucket.Some? ==> s.bucket.value.restoreKey != Some(k))
  }

  ghost predicate UsableKey(s: Session) {
    s.bucket.Some? ==> s.bucket.value.restoreKey != Some("")
  }

  lemma KeyStaysUsable(s: Session, e: Event)
    requires UsableKey(s) && WellTimed(e)
    ensures UsableKey(Next(s, e))
  {
  }

  /** Every bucket a session can reach has no key or a usable one. */
  lemma {:induction false} KeysAreUsable(s: Session, run: seq<Event>, t: real)
    requires UsableKey(s) && Timeline(run, t)
    ensures UsableKey(After(s, run))
    decreases |run|
  {
    if run != [] {
      KeysAreUsable(s, run[..|run| - 1], t);
      KeyStaysUsable(After(s, run[..|run| - 1]), run[|run| - 1]);
    }
  }

  /** A removal reaches bucket and cache alike unless the cache has the service under a key the bucket no longer knows. */
  lemma RemovalReachesExactly(s: Session, e: Event, service: string)
    requires WellTimed(e) && Removes(s, e, service) && UsableKey(s)
    ensures Absent(Next(s, e), service) <==> !Elsewhere(s, service)
  {
    var after := Next(s, e);
    assert Lookup(after, service).None?;
    forall k | s.bucket.Some? ==> s.bucket.value.restoreKey != Some(k)
      ensures (k in after.cache <==> k in s.cache) && (k in s.cache ==> after.cache[k] == s.cache[k])
    {
    }
  }

  /** Without a session loss there is no such key, so every removal is complete. */
  lemma ConfinedRemovalIsComplete(s: Session, e: Event, service: string)
    requires WellTimed(e) && Confined(s) && Removes(s, e, service)
    ensures Absent(Next(s, e), service)
  {
    RemovalReachesExactly(s, e, service);
  }

  // ---- what can come back ---------------------------------------------------------------

  /** The bucket has the service, expired or not, or the cache has it under a usable key and not too old at `t`. */
  ghost predicate Recoverable(s: Session, service: string, t: real) {
    || Lookup(s, service).Some?
    || exists k :: k in s.cache && k != "" && service in s.cache[k].credentials && t - s.cache[k].lastActivity < TIMEOUT
  }

  /** No event but a store for the service brings it back, not even a session loss. */
  lemma UnrecoverableStep(s: Session, e: Event, service: string, t: real)
    requires WellTimed(e) && t <= e.start && !Recoverable(s, service, t) && !StoresFor(e, service)
    ensures !Recoverable(Next(s, e), service, t) && service !in Exposed(s, e)
  {
  }

  /** `run` starts at `t`, stores nothing for the service, and its last event hands it out. */
  ghost predicate BringsBack(s: Session, run: seq<Event>, service: string, t: real) {
    && run != [] && Timeline(run, t) && (forall j :: 0 <= j < |run| ==> !StoresFor(run[j], service))
    && service in Exposed(After(s, run[..|run| - 1]), run[|run| - 1])
  }

  lemma {:induction false} UnrecoverableRun(s: Session, run: seq<Event>, service: string, t: real)
    requires !Recoverable(s, service, t) && Timeline(run, t) && forall j :: 0 <= j < |run| ==> !StoresFor(run[j], service)
    ensures !Recoverable(After(s, run), service, t)
    decreases |run|
  {
    if run != [] {
      UnrecoverableRun(s, run[..|run| - 1], service, t);
      UnrecoverableStep(After(s, run[..|run| - 1]), run[|run| - 1], service, t);
    }
  }

  /** Gone stays gone: what is unrecoverable at `t` is handed out by no run from then on, session losses included. */
  lemma GoneStaysGone(s: Session, run: seq<Event>, service: string, t: real)
    requires !Recoverable(s, service, t)
    ensures !BringsBack(s, run, service, t)
  {
    if BringsBack(s, run, service, t) {
      UnrecoverableRun(s, run[..|run| - 1], service, t);
      UnrecoverableStep(After(s, run[..|run| - 1]), run[|run| - 1], service, t);
    }
  }

  function SomeForm(service: string): Form {
    Form(service, "a@b", "x", Some("http://x"), "", "cloud")
  }

  ghost predicate Spaceless(s: string) {
    forall i :: 0 <= i < |s| ==> !Text.IsSpace(s[i])
  }

  /** A cloud form with nothing to clean up is accepted. */
  lemma TidyFormIsAccepted(f: Form, t: real)
    requires f.service in SERVICES && f.deployment == "cloud" && Spaceless(f.email) && '@' in f.email
    requires Spaceless(f.apiToken) && f.apiToken != "" && f.url.Some? && Spaceless(f.url.value)
    requires "http://" <= f.url.value && f.url.value[|f.url.value| - 1] != '/'
    ensures Clean(f, t).Ok?
  {
    assert Text.Lower(Text.Strip(f.deployment)) == "cloud" by {
      Text.StripIdentity(f.deployment);
      Text.LowerIdentity(f.deployment);
    }
    assert Text.RStripSlashes(Text.Strip(f.url.value)) == f.url.value by { Text.StripIdentity(f.url.value); }
    Text.StripIdentity(f.email);
    Text.StripIdentity(f.apiToken);
  }

  lemma SomeFormIsAccepted(service: string, t: real)
    requires service in SERVICES
    ensures Clean(SomeForm(service), t).Ok?
  {
    assert "a@b"[1] == '@';
    TidyFormIsAccepted(SomeForm(service), t);
  }

  lemma AfterTwo(s: Session, d: Event, e: Event)
    ensures After(s, [d]) == Next(s, d) && After(s, [d, e]) == Next(Next(s, d), e)
  {
    assert [d][..0] == [] && [d, e][..1] == [d];
  }

  /** The exact condition: a credential can come back without being stored again if and only if it is recoverable. */
  lemma ComesBackExactly(s: Session, service: string, t: real)
    ensures Recoverable(s, service, t) <==> exists run :: BringsBack(s, run, service, t)
  {
    if Recoverable(s, service, t) {
      var run := Recovery(s, service, t);
    }
    forall run | !Recoverable(s, service, t) ensures !BringsBack(s, run, service, t) { GoneStaysGone(s, run, service, t); }
  }

  /** A get; before it, if the bucket has expired, a store for another service; for a cached record a loss and a restore. */
  lemma Recovery(s: Session, service: string, t: real) returns (run: seq<Event>)
    requires Recoverable(s, service, t)
    ensures BringsBack(s, run, service, t)
  {
    var get := Event(GetOp(service), t, t);
    if Lookup(s, service).Some? && !Expired(s, t) {
      run := [get];
      assert run[..0] == [];
    } else if Lookup(s, service).Some? {
      var other := if service == "jira" then "bitbucket" else "jira";
      SomeFormIsAccepted(other, t);
      run := StoreAndGet(s, service, SomeForm(other), t);
    } else {
      var k :| k in s.cache && k != "" && service in s.cache[k].credentials && t - s.cache[k].lastActivity < TIMEOUT;
      run := LoseAndRestore(s, service, k, t);
    }
  }

  /** A store renews the bucket for every other service too. */
  lemma PutKeepsOthers(s: Session, c: Credential, service: string, t: real)
    requires c.service != service
    ensures Found(Put(s, c, t, t), service, t) == Lookup(s, service)
  {
  }

  lemma StoreAndGet(s: Session, service: string, f: Form, t: real) returns (run: seq<Event>)
    requires Lookup(s, service).Some? && Clean(f, t).Ok? && f.service != service
    ensures BringsBack(s, run, service, t)
  {
    var store, get := Event(StoreOp(f), t, t), Event(GetOp(service), t, t);
    run := [store, get];
    PutKeepsOthers(s, Clean(f, t).value, service, t);
    AfterTwo(s, store, get);
    assert run[..1] == [store];
  }

  lemma LoseAndRestore(s: Session, service: string, k: string, t: real) returns (run: seq<Event>)
    requires k in s.cache && k != "" && service in s.cache[k].credentials && t - s.cache[k].lastActivity < TIMEOUT
    ensures BringsBack(s, run, service, t)
  {
    var lose, restore := Event(LoseSession, t, t), Event(RestoreOp(Some(k)), t, t);
    run := [lose, restore];
    AfterTwo(s, lose, restore);
    assert run[..1] == [lose];
  }

  // ---- a credential that was logged out of and comes back ----------------------------------

  ghost function Now(op: Op, t: real): Event {
    Event(op, t, t)
  }

  /** A store and a cache write without a bucket: a new bucket under the new key, and its copy in the cache. */
  lemma StoreAndCache(s: Session, f: Form, key: string, t: real)
    requires s.bucket.None? && Clean(f, t).Ok? && key != ""
    ensures var records := map[f.service := Clean(f, t).value];
            Next(Next(s, Now(StoreOp(f), t)), Now(CacheWriteOp(key), t)) ==
            Session(Some(Bucket(records, t, t, Some(key))), s.cache[key := Entry(records, t, t)])
  {
    var c := Clean(f, t).value;
    assert Next(s, Now(StoreOp(f), t)) == Session(Some(Bucket(map[f.service := c], t, t, None)), s.cache);
    assert f.service in map[f.service := c];
  }

  /** A session that stored and cached under `key` and then ended, by a loss or by a logout. */
  ghost function Visit(f: Form, key: string, end: Op, t: real): seq<Event> {
    [Now(StoreOp(f), t), Now(CacheWriteOp(key), t), Now(end, t)]
  }

  lemma AfterThree(s: Session, c: Event, d: Event, e: Event)
    ensures After(s, [c, d, e]) == Next(Next(Next(s, c), d), e)
  {
    AfterTwo(s, c, d);
    assert [c, d, e][..2] == [c, d];
  }

  /** What a visit by the owner of `records` leaves: the copy after a loss, nothing after a logout. */
  ghost function Left(s: Session, records: map<string, Credential>, key: string, end: Op, t: real): Session {
    if end.LogoutOp? then s else s.(cache := s.cache[key := Entry(records, t, t)])
  }

  lemma EndOfVisit(s: Session, records: map<string, Credential>, key: string, end: Op, t: real)
    requires s.bucket.None? && key !in s.cache && (end.LoseSession? || end.LogoutOp?)
    ensures Next(Session(Some(Bucket(records, t, t, Some(key))), s.cache[key := Entry(records, t, t)]), Now(end, t)) ==
            Left(s, records, key, end, t)
  {
    assert s.cache[key := Entry(records, t, t)] - {key} == s.cache;
  }

  lemma VisitEnds(s: Session, f: Form, key: string, end: Op, t: real)
    requires s.bucket.None? && Clean(f, t).Ok? && key != "" && key !in s.cache && (end.LoseSession? || end.LogoutOp?)
    ensures After(s, Visit(f, key, end, t)) == Left(s, map[f.service := Clean(f, t).value], key, end, t)
  {
    AfterThree(s, Now(StoreOp(f), t), Now(CacheWriteOp(key), t), Now(end, t));
    StoreAndCache(s, f, key, t);
    EndOfVisit(s, map[f.service := Clean(f, t).value], key, end, t);
  }

  lemma {:induction false} AfterBoth(s: Session, a: seq<Event>, b: seq<Event>)
    ensures After(s, a + b) == After(After(s, a), b)
    decreases |b|
  {
    if b == [] {
      assert a + b == a;
    } else {
      assert (a + b)[..|a + b| - 1] == a + b[..|b| - 1];
      AfterBoth(s, a, b[..|b| - 1]);
    }
  }

  /**
   From an empty session, in real events, for any two services and keys: one visit is lost, a second one is logged
   out of, and after that logout the first visit's cookie still yields its credential.
   */
  lemma LossBringsGoneBack(f: Form, g: Form, lost: string, logged: string, t: real)
    requires Clean(f, t).Ok? && Clean(g, t).Ok? && lost != "" && logged != "" && lost != logged
    ensures var s := After(Session(None, map[]), Visit(f, lost, LoseSession, t) + Visit(g, logged, LogoutOp, t));
            && s.bucket.None? && Elsewhere(s, f.service)
            && Exposed(s, Now(RestoreOp(Some(lost)), t)) == map[f.service := Clean(f, t).value]
  {
    var empty, records := Session(None, map[]), map[f.service := Clean(f, t).value];
    var left := Left(empty, records, lost, LoseSession, t);
    AfterBoth(empty, Visit(f, lost, LoseSession, t), Visit(g, logged, LogoutOp, t));
    VisitEnds(empty, f, lost, LoseSession, t);
    VisitEnds(left, g, logged, LogoutOp, t);
    OldCookieStillWorks(records, f.service, lost, t);
  }

  lemma OldCookieStillWorks(records: map<string, Credential>, service: string, key: string, t: real)
    requires service in records && key != ""
    ensures var s := Left(Session(None, map[]), records, key, LoseSession, t);
            s.bucket.None? && Elsewhere(s, service) && Exposed(s, Now(RestoreOp(Some(key)), t)) == records
  {
    var s := Left(Session(None, map[]), records, key, LoseSession, t);
    assert key in s.cache && s.cache[key].credentials == records;
  }

  // ---- reload ----------------------------------------------------------------------

  /**
   Reload round trip: a coherent bucket that is lost comes back value-equal under the same key when its cookie
   returns in time, and is dropped from the cache when it returns too late.
   */
  lemma ReloadRoundTrip(s: Session, k: string, t: real)
    requires Coherent(s) && s.bucket.Some? && s.bucket.value.restoreKey == Some(k) && k != ""
    requires s.bucket.value.credentials != map[]
    ensures var b, after := s.bucket.value, Restore(s.(bucket := None), Some(k), t);
            if t - b.lastActivity < TIMEOUT then
              after.bucket == Some(b.(lastActivity := t)) && Coherent(after)
            else
              after.bucket == None && after.cache == s.cache - {k}
  {
  }
}
