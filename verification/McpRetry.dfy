/**
 The MCP candidate engine: candidates are tried in order, each up to three times, until one answers or one is
 refused. The outside world is a function from the number of the call to the reply it gets, and the text
 classifiers are parameters, so every statement holds for all reply sequences and all classifiers.
 */
module McpRetry {
  import opened Prelude

  const MAX_ATTEMPTS: nat := 3
  const RETRY_DELAYS: seq<real> := [0.7, 1.6]

  function RetryDelay(attempt: nat): (delay: real)
    ensures 0.7 <= delay <= 1.6
  {
    if attempt < |RETRY_DELAYS| then RETRY_DELAYS[attempt] else RETRY_DELAYS[|RETRY_DELAYS| - 1]
  }

  /** How one tool call ended: a payload, a `PermissionError`, an HTTP status error, any other exception. */
  datatype Reply<P> = Returned(payload: P) | PermissionRefused | HttpError(message: string) | Raised(message: string)

  /** The heuristics over payloads and messages; an empty failure message counts as none. */
  datatype Classifier<!P> = Classifier(
    failure: P -> Option<string>,
    authorization: string -> bool,
    unknownTool: string -> bool,
    transient: string -> bool
  )

  // ---- what a reply means, read off the message --------------------------------

  ghost predicate Succeeds<P>(cls: Classifier<P>, r: Reply<P>) {
    r.Returned? && cls.failure(r.payload) in [None, Some("")]
  }

  ghost function Message<P>(cls: Classifier<P>, r: Reply<P>): string {
    match r
    case Returned(p) => if cls.failure(p).Some? then cls.failure(p).value else ""
    case PermissionRefused => ""
    case HttpError(m) => m
    case Raised(m) => m
  }

  ghost predicate Refused<P>(cls: Classifier<P>, r: Reply<P>) {
    !Succeeds(cls, r) && (r.PermissionRefused? || cls.authorization(Message(cls, r)))
  }

  /** Worth another attempt: transient and not refused; a payload naming an unknown tool never is. */
  ghost predicate Transient<P>(cls: Classifier<P>, r: Reply<P>) {
    && !Succeeds(cls, r) && !Refused(cls, r)
    && cls.transient(Message(cls, r)) && !(r.Returned? && cls.unknownTool(Message(cls, r)))
  }

  /** Filed under the unknown-tool errors; an HTTP status error never is. */
  ghost predicate Unknown<P>(cls: Classifier<P>, r: Reply<P>) {
    !r.HttpError? && cls.unknownTool(Message(cls, r))
  }

  /** The classes reply by reply: what an answer, a refusal, a failure worth a retry and an unknown tool are. */
  lemma ReplyByReply<P>(cls: Classifier<P>, payload: P, m: string)
    ensures cls.failure(payload) in {None, Some("")} ==> Succeeds(cls, Returned(payload))
    ensures cls.failure(payload) == Some(m) && m != "" ==>
              var r := Returned(payload);
              && !Succeeds(cls, r)
              && (Refused(cls, r) <==> cls.authorization(m))
              && (Transient(cls, r) <==> !cls.authorization(m) && cls.transient(m) && !cls.unknownTool(m))
              && (Unknown(cls, r) <==> cls.unknownTool(m))
    ensures var r: Reply<P> := PermissionRefused; !Succeeds(cls, r) && Refused(cls, r) && !Transient(cls, r)
    ensures var r: Reply<P> := HttpError(m);
            && !Succeeds(cls, r) && !Unknown(cls, r)
            && (Refused(cls, r) <==> cls.authorization(m))
            && (Transient(cls, r) <==> !cls.authorization(m) && cls.transient(m))
    ensures var r: Reply<P> := Raised(m);
            && !Succeeds(cls, r)
            && (Refused(cls, r) <==> cls.authorization(m))
            && (Transient(cls, r) <==> !cls.authorization(m) && cls.transient(m))
            && (Unknown(cls, r) <==> cls.unknownTool(m))
  {
  }

  // ---- the trace specification ----------------------------------------------------

  datatype Call = Call(candidate: nat, attempt: nat)

  /** The calls made, the `i`-th one answered by `replies(i)`: only the last of them can have been answered or refused. */
  ghost predicate Legal<P>(trace: seq<Call>, cls: Classifier<P>, replies: nat -> Reply<P>) {
    && (trace != [] ==> trace[0] == Call(0, 0))
    && forall i, j :: 0 <= i < j == i + 1 < |trace| ==> Follows(trace[i], trace[j], cls, replies(i))
  }

  /** `next` is made because `call` failed with `r`, without an answer or a refusal. */
  ghost predicate Follows<P>(call: Call, next: Call, cls: Classifier<P>, r: Reply<P>) {
    !Succeeds(cls, r) && !Refused(cls, r) && next == NextCall(call, cls, r)
  }

  ghost predicate Retried<P>(call: Call, cls: Classifier<P>, r: Reply<P>) {
    Transient(cls, r) && call.attempt < 2
  }

  /** After a failure the same candidate again if that makes sense, otherwise the next one. */
  ghost function NextCall<P>(call: Call, cls: Classifier<P>, r: Reply<P>): Call {
    if Retried(call, cls, r) then Call(call.candidate, call.attempt + 1) else Call(call.candidate + 1, 0)
  }

  datatype Outcome<P> = Result(candidate: nat, payload: P) | Denied | Exhausted(message: string)

  /** The last call decides: an answer, a refusal, or the last failure of the last candidate. */
  ghost predicate Concludes<P>(trace: seq<Call>, candidates: nat, outcome: Outcome<P>, cls: Classifier<P>, replies: nat -> Reply<P>) {
    if trace == [] then candidates == 0 && outcome.Exhausted?
    else
      var last, r := trace[|trace| - 1], replies(|trace| - 1);
      match outcome
      case Result(candidate, payload) => Succeeds(cls, r) && r == Returned(payload) && candidate == last.candidate
      case Denied => Refused(cls, r)
      case Exhausted(_) =>
        && !Succeeds(cls, r) && !Refused(cls, r) && !Retried(last, cls, r) && last.candidate == candidates - 1
  }

  /** Every call of a legal trace is the one its position says: no candidate before its turn, none a fourth time. */
  lemma {:induction false} CallsInOrder<P>(trace: seq<Call>, cls: Classifier<P>, replies: nat -> Reply<P>, i: nat)
    requires Legal(trace, cls, replies) && i < |trace|
    ensures trace[i].attempt < 3
    ensures trace[i].candidate <= i <= 3 * trace[i].candidate + trace[i].attempt
    ensures trace[i].attempt > 0 ==> i > 0 && trace[i - 1] == Call(trace[i].candidate, trace[i].attempt - 1) && Transient(cls, replies(i - 1))
    ensures trace[i].attempt == 0 && i > 0 ==> trace[i - 1].candidate == trace[i].candidate - 1
  {
    if i > 0 {
      CallsInOrder(trace, cls, replies, i - 1);
      assert trace[i] == NextCall(trace[i - 1], cls, replies(i - 1));
    }
  }

  /** No candidate is skipped: each one up to the current has had its first attempt. */
  lemma {:induction false} NoneSkipped<P>(trace: seq<Call>, cls: Classifier<P>, replies: nat -> Reply<P>, i: nat, c: nat)
    requires Legal(trace, cls, replies) && i < |trace| && c <= trace[i].candidate
    ensures exists k :: 0 <= k <= i && trace[k] == Call(c, 0)
  {
    CallsInOrder(trace, cls, replies, i);
    if trace[i] != Call(c, 0) {
      NoneSkipped(trace, cls, replies, i - 1, c);
    }
  }

  /** The specification fixes the run: two concluded legal traces for the same world are the same. */
  lemma TraceIsDetermined<P>(s: seq<Call>, t: seq<Call>, n: nat, o: Outcome<P>, q: Outcome<P>, cls: Classifier<P>, replies: nat -> Reply<P>)
    requires Legal(s, cls, replies) && Concludes(s, n, o, cls, replies) && |s| <= |t|
    requires Legal(t, cls, replies) && Concludes(t, n, q, cls, replies)
    requires forall i :: 0 <= i < |t| ==> t[i].candidate < n
    ensures s == t && (o.Exhausted? <==> q.Exhausted?) && (!o.Exhausted? ==> o == q)
  {
    forall i | 0 <= i < |s| ensures s[i] == t[i] { SamePrefix(s, t, cls, replies, i); }
    if s != [] && |s| < |t| { GoesOn(t, cls, replies, |s| - 1); }
  }

  /**
   In a concluded run a call that failed transiently is followed by the next attempt at the same candidate, up to
   the third; any other call is followed by the next candidate's first attempt, or was the last.
   */
  lemma EveryRetryIsMade<P>(trace: seq<Call>, n: nat, o: Outcome<P>, cls: Classifier<P>, replies: nat -> Reply<P>, i: nat)
    requires Legal(trace, cls, replies) && Concludes(trace, n, o, cls, replies) && i < |trace|
    ensures if Transient(cls, replies(i)) && trace[i].attempt in {0, 1}
            then i + 1 < |trace| && trace[i + 1] == Call(trace[i].candidate, trace[i].attempt + 1)
            else i + 1 < |trace| ==> trace[i + 1] == Call(trace[i].candidate + 1, 0)
    ensures trace[i].attempt == 0 && Transient(cls, replies(i)) && Transient(cls, replies(i + 1)) ==>
              i + 2 < |trace| && trace[i + 2] == Call(trace[i].candidate, 2)
  {
    NextIsMade(trace, n, o, cls, replies, i);
    if i + 1 < |trace| { NextIsMade(trace, n, o, cls, replies, i + 1); }
  }

  lemma NextIsMade<P>(trace: seq<Call>, n: nat, o: Outcome<P>, cls: Classifier<P>, replies: nat -> Reply<P>, i: nat)
    requires Legal(trace, cls, replies) && Concludes(trace, n, o, cls, replies) && i < |trace|
    ensures if i + 1 < |trace| then trace[i + 1] == NextCall(trace[i], cls, replies(i)) else !Retried(trace[i], cls, replies(i))
    ensures i + 1 < |trace| ==> !Succeeds(cls, replies(i)) && !Refused(cls, replies(i))
  {
    if i + 1 < |trace| { GoesOn(trace, cls, replies, i); }
  }

  lemma GoesOn<P>(trace: seq<Call>, cls: Classifier<P>, replies: nat -> Reply<P>, i: nat)
    requires Legal(trace, cls, replies) && i + 1 < |trace|
    ensures Follows(trace[i], trace[i + 1], cls, replies(i))
  {
    var j := i + 1;
    assert Follows(trace[i], trace[j], cls, replies(i));
  }

  lemma {:induction false} SamePrefix<P>(s: seq<Call>, t: seq<Call>, cls: Classifier<P>, replies: nat -> Reply<P>, i: nat)
    requires Legal(s, cls, replies) && Legal(t, cls, replies) && i < |s| && i < |t|
    ensures s[i] == t[i]
  {
    if i > 0 {
      SamePrefix(s, t, cls, replies, i - 1);
      assert s[i] == NextCall(s[i - 1], cls, replies(i - 1));
      assert t[i] == NextCall(t[i - 1], cls, replies(i - 1));
    }
  }

  // ---- the error lists --------------------------------------------------------------

  /** What a candidate that gave up leaves behind: one entry, in one of the two lists. */
  datatype Failure = Failure(unknown: bool, text: string)

  ghost function Texts(log: seq<Failure>, unknown: bool): seq<string> {
    if log == [] then []
    else
      var last := log[|log| - 1];
      Texts(log[..|log| - 1], unknown) + if last.unknown == unknown then [last.text] else []
  }

  /** The `c`-th entry comes from the last call to the `c`-th candidate. */
  ghost predicate Accounts<P>(log: seq<Failure>, names: seq<string>, trace: seq<Call>, cls: Classifier<P>, replies: nat -> Reply<P>) {
    && |log| <= |names|
    && forall c :: 0 <= c < |log| ==> Filed(log[c], c, names[c], trace, cls, replies)
  }

  ghost predicate Filed<P>(f: Failure, c: nat, name: string, trace: seq<Call>, cls: Classifier<P>, replies: nat -> Reply<P>) {
    exists i: nat :: LastCallOf(i, c, trace) && f == FailureOf(name, cls, replies(i))
  }

  ghost predicate LastCallOf(i: nat, c: nat, trace: seq<Call>) {
    i < |trace| && trace[i].candidate == c && (i + 1 < |trace| ==> trace[i + 1].candidate == c + 1)
  }

  ghost function FailureOf<P>(name: string, cls: Classifier<P>, r: Reply<P>): Failure {
    Failure(Unknown(cls, r), name + ": " + Message(cls, r))
  }

  function Join(texts: seq<string>): string {
    if texts == [] then ""
    else if |texts| == 1 then texts[0]
    else texts[0] + " | " + Join(texts[1..])
  }

  function LastThree(texts: seq<string>): (r: seq<string>)
    ensures |r| <= 3 && |r| <= |texts| && r == texts[|texts| - |r|..] && (|r| < 3 ==> r == texts)
  {
    if |texts| > 3 then texts[|texts| - 3..] else texts
  }

  /** The final message: up to three texts, a bar between two of them. */
  lemma JoinedByBars(a: string, b: string, c: string)
    ensures Join([]) == "" && Join([a]) == a && Join([a, b]) == a + " | " + b && Join([a, b, c]) == a + " | " + b + " | " + c
  {
    assert [a, b][1..] == [b] && [a, b, c][1..] == [b, c];
    assert Join([b, c]) == b + " | " + c;
    assert Join([a, b, c]) == a + " | " + (b + " | " + c);
  }

  /** Only candidates that all named an unknown tool let those errors into the message. */
  lemma {:induction false} NoOtherErrors(log: seq<Failure>)
    ensures Texts(log, false) == [] <==> forall c :: 0 <= c < |log| ==> log[c].unknown
    ensures |Texts(log, false)| + |Texts(log, true)| == |log|
  {
    if log != [] { NoOtherErrors(log[..|log| - 1]); }
  }

  /** The list holds the texts of the entries at the places `at`, first to last, and those are all of its kind. */
  ghost predicate ListsAt(list: seq<string>, log: seq<Failure>, unknown: bool, at: seq<nat>) {
    && |list| == |at| && Ascending(at, |log|)
    && (forall k :: 0 <= k < |at| ==> list[k] == log[at[k]].text)
    && (forall i :: 0 <= i < |log| ==> (i in at <==> log[i].unknown == unknown))
  }

  lemma ListOneMore(list: seq<string>, log: seq<Failure>, f: Failure, at: seq<nat>)
    requires ListsAt(list, log, f.unknown, at)
    ensures ListsAt(list + [f.text], log + [f], f.unknown, at + [|log|])
  {
    var more, longer := at + [|log|], log + [f];
    assert Ascending(more, |longer|);
    forall k | 0 <= k < |more| ensures (list + [f.text])[k] == longer[more[k]].text {
      if k < |at| { assert more[k] == at[k] && longer[at[k]] == log[at[k]]; }
    }
    forall i | 0 <= i < |longer| ensures i in more <==> longer[i].unknown == f.unknown {
      if i < |log| { assert longer[i] == log[i]; }
    }
  }

  lemma ListSkips(list: seq<string>, log: seq<Failure>, f: Failure, at: seq<nat>)
    requires ListsAt(list, log, !f.unknown, at)
    ensures ListsAt(list, log + [f], !f.unknown, at)
  {
    var longer := log + [f];
    assert |log| !in at;
    forall i | 0 <= i < |longer| ensures i in at <==> longer[i].unknown == !f.unknown {
      if i < |log| { assert longer[i] == log[i]; }
    }
  }

  ghost predicate InOrder(list: seq<string>, log: seq<Failure>, unknown: bool) {
    exists at: seq<nat> :: ListsAt(list, log, unknown, at)
  }

  lemma InOrderGrows(list: seq<string>, log: seq<Failure>, f: Failure, unknown: bool)
    requires InOrder(list, log, unknown)
    ensures InOrder(list + if f.unknown == unknown then [f.text] else [], log + [f], unknown)
  {
    var at: seq<nat> :| ListsAt(list, log, unknown, at);
    if f.unknown == unknown {
      ListOneMore(list, log, f, at);
    } else {
      ListSkips(list, log, f, at);
      assert list + [] == list;
    }
  }

  /** Each list keeps its entries in the order in which the candidates gave up. */
  lemma {:induction false} TextsInOrder(log: seq<Failure>, unknown: bool)
    ensures InOrder(Texts(log, unknown), log, unknown)
  {
    if log == [] {
      assert ListsAt([], log, unknown, []);
    } else {
      var init, f := log[..|log| - 1], log[|log| - 1];
      TextsInOrder(init, unknown);
      InOrderGrows(Texts(init, unknown), init, f, unknown);
      assert log == init + [f];
    }
  }

  lemma TextsAppend(log: seq<Failure>, f: Failure)
    ensures Texts(log + [f], false) == if f.unknown then Texts(log, false) else Texts(log, false) + [f.text]
    ensures Texts(log + [f], true) == if f.unknown then Texts(log, true) + [f.text] else Texts(log, true)
  {
    assert (log + [f])[..|log|] == log;
  }

  // ---- the engine ----------------------------------------------------------------

  datatype Ending<P> = Answer(payload: P) | Refusal | Failed(failure: Failure)

  /** The reply to the last of `calls` attempts explains how the candidate ended. */
  ghost predicate Ends<P>(ending: Ending<P>, c: nat, calls: nat, cls: Classifier<P>, r: Reply<P>)
    requires calls >= 1
  {
    match ending
    case Answer(payload) => Succeeds(cls, r) && r == Returned(payload)
    case Refusal => Refused(cls, r)
    case Failed(_) => !Succeeds(cls, r) && !Refused(cls, r) && !Retried(Call(c, calls - 1), cls, r)
  }

  /** The calls number `start` onwards were a candidate's attempts, and this is how they ended. */
  ghost predicate Trial<P>(ending: Ending<P>, calls: nat, name: string, c: nat, start: nat, cls: Classifier<P>, replies: nat -> Reply<P>) {
    && 1 <= calls <= 3
    && (forall i :: start <= i < start + calls - 1 ==> Transient(cls, replies(i)))
    && Ends(ending, c, calls, cls, replies(start + calls - 1))
    && (ending.Failed? ==> ending.failure == FailureOf(name, cls, replies(start + calls - 1)))
  }

  /** The time spent waiting over so many attempts. */
  ghost function Pause(calls: nat): real {
    match calls
    case 0 => 0.0
    case 1 => 0.0
    case 2 => 0.7
    case _ => 2.3
  }

  /** The attempts of one candidate, the first of them the call number `start`. */
  method TryCandidate<P>(name: string, c: nat, start: nat, cls: Classifier<P>, replies: nat -> Reply<P>)
    returns (ending: Ending<P>, calls: nat, waited: real)
    ensures Trial(ending, calls, name, c, start, cls, replies)
    ensures calls == if !Transient(cls, replies(start)) then 1 else if !Transient(cls, replies(start + 1)) then 2 else 3
    ensures var r := replies(start + calls - 1);
            && (ending.Answer? <==> Succeeds(cls, r)) && (ending.Refusal? <==> Refused(cls, r))
            && (ending.Answer? ==> r == Returned(ending.payload))
    ensures waited == Pause(calls)
  {
    waited := 0.0;
    var attempt := 0;
    while attempt < MAX_ATTEMPTS
      invariant 0 <= attempt < MAX_ATTEMPTS
      invariant forall i :: start <= i < start + attempt ==> Transient(cls, replies(i))
      invariant waited == Pause(attempt + 1)
    {
      calls := attempt + 1;
      match replies(start + attempt) {
        case Returned(result) =>
          var failure := cls.failure(result);
          if failure.None? || failure.value == "" {
            return Answer(result), calls, waited;
          }
          var formatted := name + ": " + failure.value;
          if cls.authorization(failure.value) {
            return Refusal, calls, waited;
          }
          if cls.unknownTool(failure.value) {
            return Failed(Failure(true, formatted)), calls, waited;
          }
          if cls.transient(failure.value) && attempt < MAX_ATTEMPTS - 1 {
            waited := waited + RetryDelay(attempt);
          } else {
            return Failed(Failure(false, formatted)), calls, waited;
          }
        case PermissionRefused =>
          return Refusal, calls, waited;
        case HttpError(message) =>
          if cls.authorization(message) {
            return Refusal, calls, waited;
          }
          if cls.transient(message) && attempt < MAX_ATTEMPTS - 1 {
            waited := waited + RetryDelay(attempt);
          } else {
            return Failed(Failure(false, name + ": " + message)), calls, waited;
          }
        case Raised(message) =>
          if cls.authorization(message) {
            return Refusal, calls, waited;
          }
          if cls.transient(message) && attempt < MAX_ATTEMPTS - 1 {
            waited := waited + RetryDelay(attempt);
          } else if cls.unknownTool(message) {
            return Failed(Failure(true, name + ": " + message)), calls, waited;
          } else {
            return Failed(Failure(false, name + ": " + message)), calls, waited;
          }
      }
      attempt := attempt + 1;
    }
    assert false;
  }

  ghost function Attempts(c: nat, calls: nat): (r: seq<Call>)
    ensures |r| == calls && forall a :: 0 <= a < calls ==> r[a] == Call(c, a)
  {
    seq(calls, a requires 0 <= a < calls => Call(c, a))
  }

  /** The pauses of a run: 0.7 seconds before each second attempt and 1.6 before each third. */
  ghost function Waited(trace: seq<Call>): real {
    if trace == [] then 0.0
    else
      var attempt := trace[|trace| - 1].attempt;
      Waited(trace[..|trace| - 1]) + if attempt == 1 then 0.7 else if attempt == 2 then 1.6 else 0.0
  }

  lemma WaitedGrows(trace: seq<Call>, c: nat, calls: nat)
    requires 1 <= calls <= 3
    ensures Waited(trace + Attempts(c, calls)) == Waited(trace) + Pause(calls)
  {
    var one := trace + [Call(c, 0)];
    var two := one + [Call(c, 1)];
    var three := two + [Call(c, 2)];
    assert one[..|trace|] == trace && two[..|one|] == one && three[..|two|] == two;
    assert Waited(one) == Waited(trace) && Waited(two) == Waited(trace) + 0.7;
    assert trace + Attempts(c, calls) == if calls == 1 then one else if calls == 2 then two else three;
  }

  /** A legal trace ready for candidate `c`: either nothing was called yet, or its last call ended candidate `c - 1`. */
  ghost predicate ReadyFor<P>(trace: seq<Call>, c: nat, cls: Classifier<P>, replies: nat -> Reply<P>) {
    && Legal(trace, cls, replies)
    && (trace == [] <==> c == 0)
    && (trace != [] ==>
          var i := |trace| - 1;
          && trace[i].candidate == c - 1 && !Succeeds(cls, replies(i)) && !Refused(cls, replies(i))
          && !Retried(trace[i], cls, replies(i)))
  }

  lemma ExtendTrace<P>(trace: seq<Call>, c: nat, calls: nat, cls: Classifier<P>, replies: nat -> Reply<P>)
    requires ReadyFor(trace, c, cls, replies) && 1 <= calls <= 3
    requires forall i :: |trace| <= i < |trace| + calls - 1 ==> Transient(cls, replies(i))
    ensures Legal(trace + Attempts(c, calls), cls, replies)
  {
    var longer := trace + Attempts(c, calls);
    forall i, j | 0 <= i < j == i + 1 < |longer|
      ensures Follows(longer[i], longer[j], cls, replies(i))
    {
      if i < |trace| - 1 {
        assert longer[i] == trace[i] && longer[j] == trace[j];
      } else if i == |trace| - 1 {
        assert longer[i] == trace[i] && longer[j] == Call(c, 0);
      } else {
        assert Transient(cls, replies(i));
        assert longer[i] == Call(c, i - |trace|) && longer[j] == Call(c, j - |trace|);
      }
    }
  }

  /** The trace of a candidate that ended the run, or used up its attempts. */
  lemma CandidateEnds<P>(trace: seq<Call>, c: nat, n: nat, calls: nat, ending: Ending<P>, cls: Classifier<P>, replies: nat -> Reply<P>)
    requires ReadyFor(trace, c, cls, replies) && c < n && 1 <= calls <= 3
    requires forall i :: |trace| <= i < |trace| + calls - 1 ==> Transient(cls, replies(i))
    requires Ends(ending, c, calls, cls, replies(|trace| + calls - 1))
    ensures var longer := trace + Attempts(c, calls);
            && Legal(longer, cls, replies)
            && (ending.Answer? ==> Concludes(longer, n, Result(c, ending.payload), cls, replies))
            && (ending.Refusal? ==> Concludes(longer, n, Denied, cls, replies))
            && (ending.Failed? ==> ReadyFor(longer, c + 1, cls, replies))
  {
    ExtendTrace(trace, c, calls, cls, replies);
    var longer := trace + Attempts(c, calls);
    assert longer[|longer| - 1] == Call(c, calls - 1);
  }

  lemma AllGaveUp<P>(trace: seq<Call>, n: nat, message: string, cls: Classifier<P>, replies: nat -> Reply<P>)
    requires ReadyFor(trace, n, cls, replies)
    ensures Concludes(trace, n, Exhausted(message), cls, replies)
  {
  }

  lemma ExtendAccounts<P>(log: seq<Failure>, names: seq<string>, trace: seq<Call>, calls: nat, cls: Classifier<P>, replies: nat -> Reply<P>)
    requires Accounts(log, names, trace, cls, replies) && |log| < |names| && 1 <= calls
    requires trace != [] ==> trace[|trace| - 1].candidate == |log| - 1
    ensures var longer := trace + Attempts(|log|, calls);
            Accounts(log + [FailureOf(names[|log|], cls, replies(|longer| - 1))], names, longer, cls, replies)
  {
  }

  lemma KeepAccounts<P>(log: seq<Failure>, names: seq<string>, trace: seq<Call>, longer: seq<Call>, cls: Classifier<P>, replies: nat -> Reply<P>)
    requires Accounts(log, names, trace, cls, replies) && trace <= longer
    requires trace != [] ==> trace[|trace| - 1].candidate == |log| - 1
    requires |trace| < |longer| ==> longer[|trace|].candidate == |log|
    ensures Accounts(log, names, longer, cls, replies)
  {
  }

  /** What is known before candidate `c`: the calls so far and the entry each earlier candidate left. */
  ghost predicate Progress<P>(trace: seq<Call>, log: seq<Failure>, c: nat, names: seq<string>, cls: Classifier<P>, replies: nat -> Reply<P>) {
    && ReadyFor(trace, c, cls, replies) && |log| == c
    && Accounts(log, names, trace, cls, replies) && Within(trace, |names|)
  }

  ghost predicate Within(trace: seq<Call>, n: nat) {
    forall i :: 0 <= i < |trace| ==> trace[i].candidate < n
  }

  /** One candidate's attempts, whichever way they ended. */
  lemma Proceed<P>(trace: seq<Call>, log: seq<Failure>, c: nat, calls: nat, ending: Ending<P>, names: seq<string>, cls: Classifier<P>,
                   replies: nat -> Reply<P>)
    requires Progress(trace, log, c, names, cls, replies) && c < |names|
    requires Trial(ending, calls, names[c], c, |trace|, cls, replies)
    ensures var longer := trace + Attempts(c, calls);
            match ending
            case Answer(payload) => Delivers(longer, log, Result(c, payload), names, cls, replies)
            case Refusal => Delivers(longer, log, Denied, names, cls, replies)
            case Failed(failure) => Progress(longer, log + [failure], c + 1, names, cls, replies)
  {
    CandidateEnds(trace, c, |names|, calls, ending, cls, replies);
    KeepAccounts(log, names, trace, trace + Attempts(c, calls), cls, replies);
    ExtendAccounts(log, names, trace, calls, cls, replies);
  }

  /** What a finished run promises about its calls and error entries. */
  ghost predicate Delivers<P>(trace: seq<Call>, log: seq<Failure>, outcome: Outcome<P>, names: seq<string>, cls: Classifier<P>,
                              replies: nat -> Reply<P>) {
    && Legal(trace, cls, replies) && Within(trace, |names|) && Concludes(trace, |names|, outcome, cls, replies)
    && Accounts(log, names, trace, cls, replies) && (outcome.Exhausted? ==> |log| == |names|)
  }

  /**
   `mcp_call_any`. The trace is legal and concluded by the outcome, each candidate that gave up is accounted for
   in one of the two lists, in order; each second attempt was preceded by a pause of 0.7 seconds and each third
   by one of 1.6, and there were no others.
   */
  method McpCallAny<P>(names: seq<string>, cls: Classifier<P>, replies: nat -> Reply<P>)
    returns (outcome: Outcome<P>, ghost trace: seq<Call>, ghost log: seq<Failure>, waited: real)
    ensures Delivers(trace, log, outcome, names, cls, replies)
    ensures outcome.Exhausted? ==>
              outcome.message == Join(LastThree(if Texts(log, false) != [] then Texts(log, false) else Texts(log, true)))
    ensures waited == Waited(trace)
  {
    var errors, unknownToolErrors := [], [];
    trace, log, waited := [], [], 0.0;
    var made := 0;
    for c := 0 to |names|
      invariant Progress(trace, log, c, names, cls, replies) && |trace| == made
      invariant errors == Texts(log, false) && unknownToolErrors == Texts(log, true)
      invariant waited == Waited(trace)
    {
      var ending, calls, pause := TryCandidate(names[c], c, made, cls, replies);
      Proceed(trace, log, c, calls, ending, names, cls, replies);
      WaitedGrows(trace, c, calls);
      trace := trace + Attempts(c, calls);
      made := made + calls;
      waited := waited + pause;
      match ending {
        case Answer(payload) =>
          return Result(c, payload), trace, log, waited;
        case Refusal =>
          return Denied, trace, log, waited;
        case Failed(failure) =>
          TextsAppend(log, failure);
          log := log + [failure];
          if failure.unknown {
            unknownToolErrors := unknownToolErrors + [failure.text];
          } else {
            errors := errors + [failure.text];
          }
      }
    }
    var finalErrors := if errors != [] then errors else unknownToolErrors;
    outcome := Exhausted(Join(LastThree(finalErrors)));
    AllGaveUp(trace, |names|, outcome.message, cls, replies);
  }

  // ---- the LLM post ---------------------------------------------------------------

  const RETRY_STATUSES: set<int> := {429, 500, 502, 503, 504}

  /** A response with its status, a timeout or transport error, or an exception of another kind. */
  datatype Post = Response(status: int) | TransportFailure | OtherFailure

  datatype PostOutcome = Got(status: int) | RaisedStatus(status: int) | RaisedTransport | RaisedOther

  ghost predicate Transitory(p: Post) {
    p.TransportFailure? || (p.Response? && (p.status == 429 || p.status == 500 || p.status == 502 || p.status == 503 || p.status == 504))
  }

  /**
   `_post_llm_with_retry`: a second post exactly after a transitory first one, a third exactly after two of them,
   with the pauses between; the last post decides, and a transitory third one is raised. The statements behind the
   loop are never reached.
   */
  method PostLlmWithRetry(posts: nat -> Post) returns (outcome: PostOutcome, made: nat, waited: real)
    ensures made == if !Transitory(posts(0)) then 1 else if !Transitory(posts(1)) then 2 else 3
    ensures waited == Pause(made)
    ensures match posts(made - 1)
            case Response(status) => outcome == if Transitory(posts(made - 1)) then RaisedStatus(status) else Got(status)
            case TransportFailure => outcome == RaisedTransport
            case OtherFailure => outcome == RaisedOther
  {
    var attempt := 0;
    waited := 0.0;
    while attempt < MAX_ATTEMPTS
      invariant 0 <= attempt < MAX_ATTEMPTS
      invariant forall i :: 0 <= i < attempt ==> Transitory(posts(i))
      invariant waited == Pause(attempt + 1)
    {
      made := attempt + 1;
      match posts(attempt) {
        case Response(status) =>
          if status in RETRY_STATUSES {
            if attempt == MAX_ATTEMPTS - 1 {
              return RaisedStatus(status), made, waited;
            }
          } else {
            return Got(status), made, waited;
          }
        case TransportFailure =>
          if attempt == MAX_ATTEMPTS - 1 {
            return RaisedTransport, made, waited;
          }
        case OtherFailure =>
          return RaisedOther, made, waited;
      }
      waited := waited + RetryDelay(attempt);
      attempt := attempt + 1;
    }
    assert false;
  }
}
