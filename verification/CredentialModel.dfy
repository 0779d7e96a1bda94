/**
 The credential session as values: the bucket kept in the session state, the process-wide restore cache, and
 the effect of every operation on the two. Every clock reading an operation makes is a parameter.
 */
module CredentialModel {
  import opened Prelude
  import Text

  /** 60 minutes. */
  const TIMEOUT := 3600.0

  const SERVICES := ["jira", "confluence", "bitbucket"]

  datatype Credential = Credential(
    service: string, url: string, email: string, apiToken: string, workspace: string, deployment: string,
    storedAt: real, lastValidatedAt: Option<real>, isValid: Option<bool>
  )

  datatype Bucket = Bucket(credentials: map<string, Credential>, lastActivity: real, startedAt: real, restoreKey: Option<string>)

  datatype Entry = Entry(credentials: map<string, Credential>, lastActivity: real, startedAt: real)

  datatype Session = Session(bucket: Option<Bucket>, cache: map<string, Entry>)

  // ---- the building blocks ----------------------------------------------------

  /** `_ensure_state`. */
  ghost function Ensure(s: Session, t: real): (r: Session)
    ensures r.bucket.Some? && r.cache == s.cache
  {
    if s.bucket.Some? then s else s.(bucket := Some(Bucket(map[], t, t, None)))
  }

  ghost function Forget(cache: map<string, Entry>, key: Option<string>): map<string, Entry> {
    if key.Some? then cache - {key.value} else cache
  }

  /** `_sync_restore_cache`: the cache entry under the bucket's key becomes a copy of the bucket. */
  ghost function Sync(s: Session): Session
    requires s.bucket.Some?
  {
    var b := s.bucket.value;
    if b.restoreKey.None? || b.restoreKey.value == "" then s
    else if b.credentials == map[] then s.(cache := Forget(s.cache, b.restoreKey))
    else s.(cache := s.cache[b.restoreKey.value := Entry(b.credentials, b.lastActivity, b.startedAt)])
  }

  ghost function Touch(s: Session, t: real): Session
    requires s.bucket.Some?
  {
    Sync(s.(bucket := Some(s.bucket.value.(lastActivity := t))))
  }

  ghost predicate Expired(s: Session, t: real) {
    s.bucket.Some? && t - s.bucket.value.lastActivity >= TIMEOUT
  }

  ghost function ClearAll(s: Session): Session {
    if s.bucket.None? then s else Session(None, Forget(s.cache, s.bucket.value.restoreKey))
  }

  ghost function Enforce(s: Session, t: real): Session {
    if Expired(s, t) then ClearAll(s) else s
  }

  // ---- store -------------------------------------------------------------------

  datatype Form = Form(service: string, email: string, apiToken: string, url: Option<string>, workspace: string, deployment: string)

  datatype StoreError = UnknownService | BadDeployment | BadUrl | BadEmail | EmptyToken

  function DefaultUrl(service: string, deployment: string): string {
    match (service, deployment == "cloud")
    case ("jira", true) => "https://your-company.atlassian.net"
    case ("confluence", true) => "https://your-company.atlassian.net/wiki"
    case ("bitbucket", true) => "https://bitbucket.org"
    case ("jira", false) => "https://jira.your-company.com"
    case ("confluence", false) => "https://confluence.your-company.com"
    case (_, _) => "https://bitbucket.your-company.com"
  }

  /** The checks and clean-ups `store` makes before it touches the session. */
  function Clean(f: Form, now: real): (r: Result<Credential, StoreError>)
    ensures r.Ok? ==>
              && r.value.service == f.service && f.service in SERVICES && r.value.storedAt == now
              && r.value.apiToken != "" && r.value.deployment in ["cloud", "server"]
              && (r.value.deployment == "cloud" ==> '@' in r.value.email)
              && r.value.isValid == None && r.value.lastValidatedAt == None
  {
    var deployment := Text.Lower(Text.Strip(f.deployment));
    if f.service !in SERVICES then Err(UnknownService)
    else if deployment !in ["cloud", "server"] then Err(BadDeployment)
    else
      var given := if f.url.Some? && f.url.value != "" then f.url.value else DefaultUrl(f.service, deployment);
      var url := Text.RStripSlashes(Text.Strip(given));
      var email := Text.Strip(f.email);
      if !("https://" <= url || "http://" <= url) then Err(BadUrl)
      else if deployment == "cloud" && '@' !in email then Err(BadEmail)
      else if Text.Strip(f.apiToken) == "" then Err(EmptyToken)
      else Ok(Credential(f.service, url, email, Text.Strip(f.apiToken), Text.StripSlashes(Text.Strip(f.workspace)),
                         deployment, now, None, None))
  }

  ghost function Put(s: Session, c: Credential, t0: real, t1: real): Session {
    var e := Ensure(s, t0);
    var b := e.bucket.value;
    e.(bucket := Some(b.(credentials := b.credentials[c.service := c], lastActivity := t1)))
  }

  // ---- get, validate, delete -----------------------------------------------------

  ghost function Lookup(s: Session, service: string): Option<Credential> {
    if s.bucket.Some? && service in s.bucket.value.credentials then Some(s.bucket.value.credentials[service]) else None
  }

  /** What `get` returns when entered at `t0`. */
  ghost function Found(s: Session, service: string, t0: real): Option<Credential> {
    if Expired(s, t0) then None else Lookup(s, service)
  }

  ghost function Get(s: Session, service: string, t0: real, t1: real): Session {
    if Expired(s, t0) then ClearAll(s)
    else if Lookup(s, service).None? then Ensure(s, t0)
    else Touch(s, t1)
  }

  ghost function ListActive(s: Session, t: real): Session {
    if Expired(s, t) then ClearAll(s) else Ensure(s, t)
  }

  /** The stored record after a validation that answered `ok` at time `t`. */
  ghost function Judged(c: Credential, ok: bool, t: real): Credential {
    c.(isValid := Some(ok), lastValidatedAt := if ok then Some(t) else c.lastValidatedAt)
  }

  ghost function SetRecord(s: Session, service: string, c: Credential): Session
    requires s.bucket.Some?
  {
    var b := s.bucket.value;
    s.(bucket := Some(b.(credentials := b.credentials[service := c])))
  }

  /** `get` at `t0`/`t1`, then the validator's answer at `t2`, then the touch at `t3`. */
  ghost function Validate(s: Session, service: string, ok: bool, t0: real, t1: real, t2: real, t3: real): Session {
    var g := Get(s, service, t0, t1);
    if Found(s, service, t0).None? then g
    else Touch(SetRecord(g, service, Judged(Lookup(s, service).value, ok, t2)), t3)
  }

  ghost predicate Deletes(s: Session, service: string, t0: real) {
    service in SERVICES && Found(s, service, t0).Some?
  }

  ghost function Delete(s: Session, service: string, t0: real, t1: real): Session {
    if service !in SERVICES then s
    else if Expired(s, t0) then ClearAll(s)
    else if Lookup(s, service).None? then Ensure(s, t0)
    else
      var b := s.bucket.value;
      var left := b.(credentials := b.credentials - {service}, lastActivity := t1);
      if left.credentials != map[] then Sync(s.(bucket := Some(left)))
      else Session(Some(left), Forget(s.cache, left.restoreKey))
  }

  // ---- cache write and restore -----------------------------------------------------

  /** `_cache_credentials`: a bucket without a key gets the fresh one, and the cache a copy. */
  ghost function CacheWrite(s: Session, freshKey: string, t: real): Session {
    var e := Ensure(s, t);
    var b := e.bucket.value;
    var keyed := if b.restoreKey.Some? && b.restoreKey.value != "" then b else b.(restoreKey := Some(freshKey));
    Sync(e.(bucket := Some(keyed)))
  }

  /** A restore with this cookie key at `t` succeeds. */
  ghost predicate Restores(s: Session, cookie: Option<string>, t: real) {
    && (s.bucket.Some? ==> s.bucket.value.credentials == map[])
    && cookie.Some? && cookie.value != "" && cookie.value in s.cache
    && t - s.cache[cookie.value].lastActivity < TIMEOUT
    && s.cache[cookie.value].credentials != map[]
  }

  /** `_restore_credentials_from_cache`. */
  ghost function Restore(s: Session, cookie: Option<string>, t: real): Session {
    if s.bucket.Some? && s.bucket.value.credentials != map[] then s
    else if cookie.None? || cookie.value == "" || cookie.value !in s.cache then s
    else
      var entry := s.cache[cookie.value];
      if t - entry.lastActivity >= TIMEOUT || entry.credentials == map[] then s.(cache := Forget(s.cache, cookie))
      else Sync(s.(bucket := Some(Bucket(entry.credentials, t, entry.startedAt, cookie))))
  }

  // ---- one event of a session --------------------------------------------------------

  datatype Op =
    | StoreOp(form: Form)
    | GetOp(service: string)
    | ValidateOp(service: string, ok: bool, got: real, judged: real)
    | DeleteOp(service: string)
    | LogoutOp
    | EnforceOp
    | ListActiveOp
    | CacheWriteOp(freshKey: string)
    | RestoreOp(cookie: Option<string>)
    | LoseSession

  /** An operation with its first and last clock reading. */
  datatype Event = Event(op: Op, start: real, end: real)

  ghost predicate WellTimed(e: Event) {
    && e.start <= e.end
    && (e.op.ValidateOp? ==> e.start <= e.op.got <= e.op.judged <= e.end)
    && (e.op.CacheWriteOp? ==> e.op.freshKey != "")
  }

  ghost function Next(s: Session, e: Event): Session {
    match e.op
    case StoreOp(form) => if Clean(form, e.start).Ok? then Put(s, Clean(form, e.start).value, e.start, e.end) else s
    case GetOp(service) => Get(s, service, e.start, e.end)
    case ValidateOp(service, ok, got, judged) => Validate(s, service, ok, e.start, got, judged, e.end)
    case DeleteOp(service) => Delete(s, service, e.start, e.end)
    case LogoutOp => ClearAll(s)
    case EnforceOp => Enforce(s, e.start)
    case ListActiveOp => ListActive(s, e.start)
    case CacheWriteOp(freshKey) => CacheWrite(s, freshKey, e.start)
    case RestoreOp(cookie) => Restore(s, cookie, e.start)
    case LoseSession => s.(bucket := None)
  }

  /** The records an event hands to its caller or, for a restore, brings back into the session. */
  ghost function Exposed(s: Session, e: Event): map<string, Credential> {
    match e.op
    case GetOp(service) => if Found(s, service, e.start).Some? then map[service := Lookup(s, service).value] else map[]
    case ValidateOp(service, _, _, _) =>
      if Found(s, service, e.start).Some? then map[service := Lookup(s, service).value] else map[]
    case RestoreOp(cookie) => if Restores(s, cookie, e.start) then s.cache[cookie.value].credentials else map[]
    case _ => map[]
  }

  /** The state after a run of events. */
  ghost function After(s: Session, run: seq<Event>): Session {
    if run == [] then s else Next(After(s, run[..|run| - 1]), run[|run| - 1])
  }

  /** Events follow one another in time, none before `from`. */
  ghost predicate Timeline(run: seq<Event>, from: real) {
    && (forall i :: 0 <= i < |run| ==> WellTimed(run[i]) && from <= run[i].start)
    && (forall i, j :: 0 <= i < j < |run| ==> run[i].end <= run[j].start)
  }
}
