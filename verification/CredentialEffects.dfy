/** What single operations leave behind, in plain terms: times in seconds, fields one by one. */
module CredentialEffects {
  import opened Prelude
  import opened CredentialModel
  import opened CredentialRuns
  import Text

  // ---- activity ------------------------------------------------------------------------

  /** After a refreshing event the session lasts exactly 3600 seconds from that event's last clock reading. */
  lemma RefreshLastsAnHour(s: Session, e: Event, later: real)
    requires WellTimed(e) && Refreshes(s, e)
    ensures var from := if e.op.RestoreOp? then e.start else e.end;
            && Next(s, e).bucket.Some? && Next(s, e).bucket.value.lastActivity == from
            && (Expired(Next(s, e), later) <==> later - from >= 3600.0)
  {
  }

  /** No other event on a bucket moves that moment. */
  lemma OthersDoNotRefresh(s: Session, e: Event)
    requires WellTimed(e) && !Refreshes(s, e) && s.bucket.Some? && Next(s, e).bucket.Some?
    ensures Next(s, e).bucket.value.lastActivity == s.bucket.value.lastActivity
    ensures Next(s, e).bucket.value.credentials == s.bucket.value.credentials
    ensures Next(s, e).bucket.value.startedAt == s.bucket.value.startedAt
  {
  }

  /** A bucket made anew is empty, without a key, and starts at the clock. */
  lemma NewBucketIsEmpty(s: Session, e: Event)
    requires WellTimed(e) && s.bucket.None? && (e.op.GetOp? || e.op.ListActiveOp?)
    ensures Next(s, e).bucket == Some(Bucket(map[], e.start, e.start, None)) && Next(s, e).cache == s.cache
  {
  }

  // ---- store ---------------------------------------------------------------------------

  /** A store puts its record under its service and leaves every other record, the key, the start and the cache alone. */
  lemma StorePutsItsRecord(s: Session, c: Credential, t0: real, t1: real)
    ensures var after := Put(s, c, t0, t1);
            && Lookup(after, c.service) == Some(c)
            && (forall v :: v != c.service ==> Lookup(after, v) == Lookup(s, v))
            && after.cache == s.cache && after.bucket.Some?
            && after.bucket.value.restoreKey == (if s.bucket.Some? then s.bucket.value.restoreKey else None)
            && after.bucket.value.startedAt == (if s.bucket.Some? then s.bucket.value.startedAt else t0)
  {
  }

  ghost predicate Spaceless(s: string) {
    forall i :: 0 <= i < |s| ==> !Text.IsSpace(s[i])
  }

  ghost predicate Blank(s: string) {
    forall i :: 0 <= i < |s| ==> Text.IsSpace(s[i])
  }

  ghost predicate Slashes(s: string) {
    forall i :: 0 <= i < |s| ==> s[i] == '/'
  }

  /** Not empty, and without white space or slashes at either end. */
  ghost predicate Trim(s: string) {
    && s != "" && !Text.IsSpace(s[0]) && !Text.IsSpace(s[|s| - 1])
    && s[0] != '/' && s[|s| - 1] != '/'
  }

  /** What the fields of a form look like around the texts that are meant. */
  datatype Padding = Padding(before: string, after: string)

  function Padded(s: string, p: Padding): string {
    p.before + s + p.after
  }

  lemma StripPadded(s: string, p: Padding)
    requires Blank(p.before) && Blank(p.after) && s != "" && !Text.IsSpace(s[0]) && !Text.IsSpace(s[|s| - 1])
    ensures Padded(s, p) != "" && Text.Strip(Padded(s, p)) == s
  {
    Text.StripTrims(p.before, s, p.after);
  }

  lemma AddressCleaned(url: string, slashes: string, p: Padding)
    requires Blank(p.before) && Blank(p.after) && Slashes(slashes) && Trim(url)
    ensures Padded(url + slashes, p) != "" && Text.RStripSlashes(Text.Strip(Padded(url + slashes, p))) == url
  {
    var s := url + slashes;
    assert s[0] == url[0] && (slashes == "" ==> s == url) && (slashes != "" ==> s[|s| - 1] == '/');
    StripPadded(s, p);
    Text.SlashesTrim("", url, slashes);
  }

  lemma WorkspaceCleaned(before: string, workspace: string, after: string, p: Padding)
    requires Blank(p.before) && Blank(p.after) && Slashes(before) && Slashes(after) && Trim(workspace)
    ensures Text.StripSlashes(Text.Strip(Padded(before + workspace + after, p))) == workspace
  {
    var s := before + workspace + after;
    assert before == "" ==> s[0] == workspace[0];
    assert after == "" ==> s[|s| - 1] == workspace[|workspace| - 1];
    StripPadded(s, p);
    Text.SlashesTrim(before, workspace, after);
  }

  /**
   The stored record, for a form whose texts are padded by white space and whose address and workspace have slashes
   around them: exactly the texts within, the deployment in lower case, no validation yet.
   */
  lemma StoredWithoutPadding(f: Form, url: string, email: string, token: string, workspace: string, deployment: string,
                             p: Padding, before: string, slashes: string, now: real)
    requires Blank(p.before) && Blank(p.after) && Slashes(before) && Slashes(slashes)
    requires Trim(url) && Trim(email) && Trim(token) && Trim(workspace) && Trim(deployment)
    requires f.service in ["jira", "confluence", "bitbucket"] && Text.Lower(deployment) in ["cloud", "server"]
    requires ("https://" <= url || "http://" <= url) && (Text.Lower(deployment) == "cloud" ==> '@' in email)
    requires f.url == Some(Padded(url + slashes, p)) && f.email == Padded(email, p) && f.apiToken == Padded(token, p)
    requires f.workspace == Padded(before + workspace + slashes, p) && f.deployment == Padded(deployment, p)
    ensures Clean(f, now) == Ok(Credential(f.service, url, email, token, workspace, Text.Lower(deployment), now, None, None))
  {
    assert Text.Strip(f.deployment) == deployment by { StripPadded(deployment, p); }
    assert Text.Strip(f.email) == email by { StripPadded(email, p); }
    assert Text.Strip(f.apiToken) == token by { StripPadded(token, p); }
    AddressCleaned(url, slashes, p);
    WorkspaceCleaned(before, workspace, slashes, p);
    assert SERVICES == ["jira", "confluence", "bitbucket"];
  }

  /** Which form is refused, and with which error: the first of the five conditions it misses. */
  lemma RefusedWith(f: Form, now: real)
    ensures var deployment := Text.Lower(Text.Strip(f.deployment));
            var given := if f.url.Some? && f.url.value != "" then f.url.value else DefaultUrl(f.service, deployment);
            var url := Text.RStripSlashes(Text.Strip(given));
            var known := f.service in ["jira", "confluence", "bitbucket"];
            var deployed := known && (deployment == "cloud" || deployment == "server");
            var addressed := deployed && ("https://" <= url || "http://" <= url);
            var mailed := addressed && (deployment == "cloud" ==> '@' in Text.Strip(f.email));
            && (Clean(f, now) == Err(UnknownService) <==> !known)
            && (Clean(f, now) == Err(BadDeployment) <==> known && !deployed)
            && (Clean(f, now) == Err(BadUrl) <==> deployed && !addressed)
            && (Clean(f, now) == Err(BadEmail) <==> addressed && !mailed)
            && (Clean(f, now) == Err(EmptyToken) <==> mailed && Blank(f.apiToken))
            && (Clean(f, now).Ok? <==> mailed && !Blank(f.apiToken))
  {
    Text.StripBlank(f.apiToken);
    assert SERVICES == ["jira", "confluence", "bitbucket"];
  }

  /** The address of a form without one. */
  lemma DefaultAddresses()
    ensures DefaultUrl("jira", "cloud") == "https://your-company.atlassian.net"
    ensures DefaultUrl("confluence", "cloud") == "https://your-company.atlassian.net/wiki"
    ensures DefaultUrl("bitbucket", "cloud") == "https://bitbucket.org"
    ensures DefaultUrl("jira", "server") == "https://jira.your-company.com"
    ensures DefaultUrl("confluence", "server") == "https://confluence.your-company.com"
    ensures DefaultUrl("bitbucket", "server") == "https://bitbucket.your-company.com"
  {
  }

  // ---- validate --------------------------------------------------------------------------

  /** Apart from the verdict and, if it is good, its time, the record is as before. */
  ghost predicate VerdictWritten(before: Credential, after: Credential, ok: bool, t: real) {
    && after.isValid == Some(ok)
    && after.lastValidatedAt == (if ok then Some(t) else before.lastValidatedAt)
    && after.service == before.service && after.url == before.url && after.email == before.email
    && after.apiToken == before.apiToken && after.workspace == before.workspace && after.deployment == before.deployment
    && after.storedAt == before.storedAt
  }

  /** A validation that found a record writes its verdict there and nowhere else, and the cache shows it at once. */
  lemma ValidationWritesTheVerdict(s: Session, service: string, ok: bool, t0: real, t1: real, t2: real, t3: real)
    requires Found(s, service, t0).Some?
    ensures var after := Validate(s, service, ok, t0, t1, t2, t3);
            && Lookup(after, service).Some? && VerdictWritten(Lookup(s, service).value, Lookup(after, service).value, ok, t2)
            && (forall v :: v != service ==> Lookup(after, v) == Lookup(s, v))
            && after.bucket.value.lastActivity == t3 && after.bucket.value.startedAt == s.bucket.value.startedAt
            && after.bucket.value.restoreKey == s.bucket.value.restoreKey
            && (forall k :: s.bucket.value.restoreKey == Some(k) && k != "" ==>
                  k in after.cache && after.cache[k] == Entry(after.bucket.value.credentials, t3, s.bucket.value.startedAt))
  {
    var after := Validate(s, service, ok, t0, t1, t2, t3);
    assert service in after.bucket.value.credentials;
  }

  // ---- cache write -----------------------------------------------------------------------

  /** A cache write keeps a usable key and otherwise takes the fresh one; records and times stay. */
  lemma CacheWriteKeepsTheBucket(s: Session, freshKey: string, t: real)
    requires s.bucket.Some?
    ensures var b, after := s.bucket.value, CacheWrite(s, freshKey, t).bucket;
            after == Some(b.(restoreKey := if b.restoreKey.Some? && b.restoreKey.value != "" then b.restoreKey else Some(freshKey)))
  {
  }
}
