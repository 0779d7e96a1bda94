/** What holds over every run of a single credential session. */
module CredentialRuns {
  import opened Prelude
  import opened CredentialModel

  // ---- expiry --------------------------------------------------------------------

  /** An event that counts as activity: a store, a hit of get or validate, a deletion, a successful restore. */
  ghost predicate Refreshes(s: Session, e: Event) {
    match e.op
    case StoreOp(form) => Clean(form, e.start).Ok?
    case GetOp(service) => Found(s, service, e.start).Some?
    case ValidateOp(service, _, _, _) => Found(s, service, e.start).Some?
    case DeleteOp(service) => Deletes(s, service, e.start)
    case RestoreOp(cookie) => Restores(s, cookie, e.start)
    case _ => false
  }

  /** A store that goes through does not land on an expired bucket with a credential for another service. */
  ghost predicate Guarded(s: Session, e: Event) {
    e.op.StoreOp? && Clean(e.op.form, e.start).Ok? && Expired(s, e.start) ==>
      s.bucket.value.credentials.Keys <= {e.op.form.service}
  }

  ghost predicate Upto(credentials: map<string, Credential>, lastActivity: real, t: real) {
    lastActivity <= t && forall v :: v in credentials ==> credentials[v].storedAt <= t
  }

  /** Nothing in the session is younger than `t`. */
  ghost predicate Settled(s: Session, t: real) {
    && (s.bucket.Some? ==> Upto(s.bucket.value.credentials, s.bucket.value.lastActivity, t))
    && (forall k :: k in s.cache ==> Upto(s.cache[k].credentials, s.cache[k].lastActivity, t))
  }

  /** Records are either from before `t` or from a timeout later, and the former are not fresher than `t`. */
  ghost predicate Aged(credentials: map<string, Credential>, lastActivity: real, t: real) {
    forall v :: v in credentials ==>
      || credentials[v].storedAt >= t + TIMEOUT
      || (credentials[v].storedAt <= t && lastActivity <= t)
  }

  ghost predicate Idle(s: Session, t: real) {
    && (s.bucket.Some? ==> Aged(s.bucket.value.credentials, s.bucket.value.lastActivity, t))
    && (forall k :: k in s.cache ==> Aged(s.cache[k].credentials, s.cache[k].lastActivity, t))
  }

  ghost predicate Young(credentials: map<string, Credential>, t: real) {
    forall v :: v in credentials ==> credentials[v].storedAt >= t + TIMEOUT
  }

  /** Within a timeout of `t` nothing refreshes; afterwards whatever is still from before `t` has expired. */
  ghost predicate Gap(s: Session, e: Event, t: real) {
    if e.start < t + TIMEOUT then !Refreshes(s, e) else Guarded(s, e)
  }

  lemma TouchKeepsIdle(s: Session, t: real, t1: real)
    requires Idle(s, t) && s.bucket.Some? && Young(s.bucket.value.credentials, t)
    ensures Idle(Touch(s, t1), t)
  {
  }

  lemma ClearKeepsIdle(s: Session, t: real)
    requires Idle(s, t)
    ensures Idle(ClearAll(s), t)
  {
  }

  lemma GetKeepsIdle(s: Session, service: string, t0: real, t1: real, t: real)
    requires Idle(s, t) && (Found(s, service, t0).Some? ==> t0 >= t + TIMEOUT)
    ensures Idle(Get(s, service, t0, t1), t)
    ensures Found(s, service, t0).Some? ==>
              && Young(s.bucket.value.credentials, t)
              && Get(s, service, t0, t1).bucket == Some(s.bucket.value.(lastActivity := t1))
  {
  }

  lemma ValidateKeepsIdle(s: Session, e: Event, t: real)
    requires Idle(s, t) && e.op.ValidateOp? && (Found(s, e.op.service, e.start).Some? ==> e.start >= t + TIMEOUT)
    ensures Idle(Next(s, e), t)
  {
    var service := e.op.service;
    GetKeepsIdle(s, service, e.start, e.op.got, t);
    if Found(s, service, e.start).Some? {
      var g := Get(s, service, e.start, e.op.got);
      var judged := SetRecord(g, service, Judged(Lookup(s, service).value, e.op.ok, e.op.judged));
      assert Young(judged.bucket.value.credentials, t);
      TouchKeepsIdle(judged, t, e.end);
    }
  }

  lemma DeleteKeepsIdle(s: Session, service: string, t0: real, t1: real, t: real)
    requires Idle(s, t) && (Deletes(s, service, t0) ==> t0 >= t + TIMEOUT)
    ensures Idle(Delete(s, service, t0, t1), t)
  {
  }

  lemma PutKeepsIdle(s: Session, c: Credential, t0: real, t1: real, t: real)
    requires Idle(s, t) && c.storedAt >= t + TIMEOUT && t0 >= t + TIMEOUT
    requires Expired(s, t0) ==> s.bucket.value.credentials.Keys <= {c.service}
    ensures Idle(Put(s, c, t0, t1), t)
  {
  }

  lemma RestoreKeepsIdle(s: Session, cookie: Option<string>, t0: real, t: real)
    requires Idle(s, t) && (Restores(s, cookie, t0) ==> t0 >= t + TIMEOUT)
    ensures Idle(Restore(s, cookie, t0), t)
    ensures Restores(s, cookie, t0) ==> Young(s.cache[cookie.value].credentials, t)
  {
  }

  lemma CacheWriteKeepsIdle(s: Session, freshKey: string, t0: real, t: real)
    requires Idle(s, t)
    ensures Idle(CacheWrite(s, freshKey, t0), t)
  {
  }

  /** One event of the gap or after it keeps `Idle` and hands out nothing from before `t`. */
  lemma IdleStep(s: Session, e: Event, t: real)
    requires Idle(s, t) && t <= e.start && Gap(s, e, t)
    ensures Idle(Next(s, e), t) && Young(Exposed(s, e), t)
  {
    match e.op
    case StoreOp(form) =>
      if Refreshes(s, e) { PutKeepsIdle(s, Clean(form, e.start).value, e.start, e.end, t); }
    case GetOp(service) => GetKeepsIdle(s, service, e.start, e.end, t);
    case ValidateOp(service, _, _, _) =>
      ValidateKeepsIdle(s, e, t);
      GetKeepsIdle(s, service, e.start, e.op.got, t);
    case DeleteOp(service) => DeleteKeepsIdle(s, service, e.start, e.end, t);
    case LogoutOp => ClearKeepsIdle(s, t);
    case EnforceOp => ClearKeepsIdle(s, t);
    case ListActiveOp => ClearKeepsIdle(s, t);
    case CacheWriteOp(freshKey) => CacheWriteKeepsIdle(s, freshKey, e.start, t);
    case RestoreOp(cookie) => RestoreKeepsIdle(s, cookie, e.start, t);
    case LoseSession =>
  }

  /** Every event of the run, seen from the state it meets, respects the gap after `t`. */
  ghost predicate GapAfter(s: Session, run: seq<Event>, t: real) {
    forall i :: 0 <= i < |run| ==> Gap(After(s, run[..i]), run[i], t)
  }

  lemma GapPrefix(s: Session, run: seq<Event>, t: real, n: nat)
    requires GapAfter(s, run, t) && n <= |run|
    ensures GapAfter(s, run[..n], t)
  {
    forall i | 0 <= i < n ensures Gap(After(s, run[..n][..i]), run[..n][i], t) { assert run[..n][..i] == run[..i]; }
  }

  lemma {:induction false} IdleRun(s: Session, run: seq<Event>, t: real)
    requires Idle(s, t) && Timeline(run, t) && GapAfter(s, run, t)
    ensures Idle(After(s, run), t)
    decreases |run|
  {
    if run != [] {
      var last := |run| - 1;
      var mid := After(s, run[..last]);
      assert Idle(mid, t) by {
        GapPrefix(s, run, t, last);
        IdleRun(s, run[..last], t);
      }
      IdleStep(mid, run[last], t);
    }
  }

  /**
   Sixty silent minutes end a session for good. From any state settled at `t`, let no event refresh it for a
   timeout, and after that let no store land on an expired bucket that still holds another service's credential:
   then nothing stored up to `t` is handed out again, neither from the session nor through the restore cache.
   */
  lemma SilenceExpiresEverything(s: Session, run: seq<Event>, t: real, i: nat)
    requires Settled(s, t) && Timeline(run, t) && GapAfter(s, run, t) && i < |run|
    ensures forall v :: v in Exposed(After(s, run[..i]), run[i]) ==>
              Exposed(After(s, run[..i]), run[i])[v].storedAt >= t + TIMEOUT
  {
    GapPrefix(s, run, t, i);
    IdleRun(s, run[..i], t);
    IdleStep(After(s, run[..i]), run[i], t);
  }

  /**
   The guard is needed for exactly this: a store on any bucket, expired or not, keeps every other record, and a
   `get` within the next timeout returns it.
   */
  lemma StoreRevivesTheRest(s: Session, f: Form, t0: real, t1: real, other: string, t2: real, t3: real)
    requires t0 <= t1 <= t2 <= t3 && Clean(f, t0).Ok? && other != f.service
    ensures var after := Put(s, Clean(f, t0).value, t0, t1);
            Found(after, other, t2) == if t2 - t1 < TIMEOUT then Lookup(s, other) else None
  {
  }

  /**
   And it shuts out nothing more: after the silence, a store is followed by a `get` in time that returns an old
   record if and only if the store was not guarded.
   */
  lemma GuardIsExact(s: Session, e: Event, t: real, later: real)
    requires Settled(s, t) && e.op.StoreOp? && Clean(e.op.form, e.start).Ok? && t + TIMEOUT <= e.start <= e.end <= later < e.end + TIMEOUT
    ensures Guarded(s, e) <==> forall v :: Found(Next(s, e), v, later).Some? ==> Found(Next(s, e), v, later).value.storedAt >= t + TIMEOUT
  {
    var c := Clean(e.op.form, e.start).value;
    if !Guarded(s, e) {
      var v :| v in s.bucket.value.credentials.Keys && v != e.op.form.service;
      assert s.bucket.value.credentials[v].storedAt <= t;
      assert Found(Next(s, e), v, later) == Some(s.bucket.value.credentials[v]);
    } else if s.bucket.Some? {
      assert Expired(s, e.start);
      assert forall v :: Found(Next(s, e), v, later).Some? ==> v == c.service;
    }
  }

  lemma SettledLater(s: Session, t: real, t1: real)
    requires Settled(s, t) && t <= t1
    ensures Settled(s, t1)
  {
  }

  lemma TouchSettled(s: Session, t: real)
    requires s.bucket.Some? && Settled(s, t)
    ensures Settled(Touch(s, t), t)
  {
  }

  lemma GetSettled(s: Session, service: string, t0: real, t1: real)
    requires Settled(s, t0) && t0 <= t1
    ensures Settled(Get(s, service, t0, t1), t1)
  {
  }

  lemma ValidateSettled(s: Session, e: Event)
    requires Settled(s, e.start) && WellTimed(e) && e.op.ValidateOp?
    ensures Settled(Next(s, e), e.end)
  {
    var service, g := e.op.service, Get(s, e.op.service, e.start, e.op.got);
    GetSettled(s, service, e.start, e.op.got);
    SettledLater(g, e.op.got, e.end);
    if Found(s, service, e.start).Some? {
      var c := Judged(Lookup(s, service).value, e.op.ok, e.op.judged);
      assert c.storedAt <= e.start;
      TouchSettled(SetRecord(g, service, c), e.end);
    }
  }

  lemma DeleteSettled(s: Session, service: string, t0: real, t1: real)
    requires Settled(s, t0) && t0 <= t1
    ensures Settled(Delete(s, service, t0, t1), t1)
  {
  }

  lemma RestoreSettled(s: Session, cookie: Option<string>, t: real)
    requires Settled(s, t)
    ensures Settled(Restore(s, cookie, t), t)
  {
  }

  lemma CacheWriteSettled(s: Session, freshKey: string, t: real)
    requires Settled(s, t)
    ensures Settled(CacheWrite(s, freshKey, t), t)
  {
  }

  lemma PutSettled(s: Session, c: Credential, t0: real, t1: real)
    requires Settled(s, t0) && t0 <= t1 && c.storedAt == t0
    ensures Settled(Put(s, c, t0, t1), t1)
  {
  }

  /** Nothing in the session is ever younger than the clock. */
  lemma SettledStep(s: Session, e: Event, t: real)
    requires Settled(s, t) && WellTimed(e) && t <= e.start
    ensures Settled(Next(s, e), e.end)
  {
    SettledLater(s, t, e.start);
    SettledLater(s, t, e.end);
    match e.op
    case StoreOp(form) => if Clean(form, e.start).Ok? { PutSettled(s, Clean(form, e.start).value, e.start, e.end); }
    case GetOp(service) => GetSettled(s, service, e.start, e.end);
    case ValidateOp(_, _, _, _) => ValidateSettled(s, e);
    case DeleteOp(service) => DeleteSettled(s, service, e.start, e.end);
    case CacheWriteOp(freshKey) =>
      CacheWriteSettled(s, freshKey, e.start);
      SettledLater(CacheWrite(s, freshKey, e.start), e.start, e.end);
    case RestoreOp(cookie) =>
      RestoreSettled(s, cookie, e.start);
      SettledLater(Restore(s, cookie, e.start), e.start, e.end);
    case _ =>
  }

  /** So every state a session can reach is a starting point for the expiry theorem. */
  lemma {:induction false} SettledRun(s: Session, run: seq<Event>, t: real, now: real)
    requires Settled(s, t) && Timeline(run, t) && t <= now && forall i :: 0 <= i < |run| ==> run[i].end <= now
    ensures Settled(After(s, run), now)
    decreases |run|
  {
    if run != [] {
      var last := |run| - 1;
      SettledRun(s, run[..last], t, run[last].start);
      SettledStep(After(s, run[..last]), run[last], run[last].start);
    }
  }
}
