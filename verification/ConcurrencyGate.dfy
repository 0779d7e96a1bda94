/** The per-department admission gate in front of workflow starts, and what it guarantees over interleavings. */
module ConcurrencyGate {
  import opened Prelude

  // ---- configuration and one check ---------------------------------------------------

  datatype Value = Null | Boolean(b: bool) | Integer(n: int) | Other

  datatype Config = Absent | NotAnObject | Object(members: map<string, Value>)

  /** The cap a department's configuration sets: a positive integer under its key, and nothing else. */
  function ExtractMaxConcurrent(config: Config): (r: Option<int>)
    ensures forall n :: r == Some(n) <==>
              config.Object? && n >= 1 && "max_concurrent_workflows" in config.members && config.members["max_concurrent_workflows"] == Integer(n)
  {
    match config
    case Absent => None
    case NotAnObject => None
    case Object(members) =>
      if "max_concurrent_workflows" !in members then None
      else
        match members["max_concurrent_workflows"]
        case Null => None
        case Boolean(_) => None
        case Integer(n) => if n < 1 then None else Some(n)
        case Other => None
  }

  datatype Source = Temporal | Postgres

  /** What the Visibility client does when asked: absent, raising, or answering a count. */
  datatype Visibility = NotWired | Raises | Counts(n: int)

  /** The Visibility count whenever there is one, even zero; the database count otherwise. */
  function CountActive(visibility: Visibility, rows: int): (int, Source) {
    match visibility
    case NotWired => (rows, Postgres)
    case Raises => (rows, Postgres)
    case Counts(n) => (n, Temporal)
  }

  datatype CheckResult = CheckResult(current: int, maxAllowed: Option<int>, source: Source)

  datatype LimitExceeded = LimitExceeded(current: int, maxAllowed: int, source: Source)

  function CheckDept(cap: Option<int>, visibility: Visibility, rows: int): (r: Result<CheckResult, LimitExceeded>)
    ensures var current := if visibility.Counts? then visibility.n else rows;
            var source := if visibility.Counts? then Temporal else Postgres;
            && (r.Ok? <==> cap.None? || current < cap.value)
            && (r.Ok? ==> r.value.current == current && r.value.source == source && r.value.maxAllowed == cap)
            && (r.Err? ==> r.error.current == current && r.error.source == source && Some(r.error.maxAllowed) == cap)
  {
    var (current, source) := CountActive(visibility, rows);
    if cap.None? then Ok(CheckResult(current, None, source))
    else if current >= cap.value then Err(LimitExceeded(current, cap.value, source))
    else Ok(CheckResult(current, cap, source))
  }

  // ---- the protocol around it -----------------------------------------------------------

  /** Workflows running for a department, and requests admitted but not yet started. */
  datatype Load = Load(running: nat, admitted: nat)

  type State = map<string, Load>

  ghost function At(s: State, dept: string): Load {
    if dept in s then s[dept] else Load(0, 0)
  }

  datatype Step =
    | Check(dept: string, visibility: Visibility, rows: int)
    | Start(dept: string)
    | Abort(dept: string)
    | Finish(dept: string)

  /** One step of any request of any department; a step with nothing to act on does nothing. */
  ghost function Next(s: State, step: Step, caps: string -> Option<int>): State {
    var d := step.dept;
    var l := At(s, d);
    match step
    case Check(_, visibility, rows) =>
      if CheckDept(caps(d), visibility, rows).Ok? then s[d := l.(admitted := l.admitted + 1)] else s
    case Start(_) => if l.admitted > 0 then s[d := Load(l.running + 1, l.admitted - 1)] else s
    case Abort(_) => if l.admitted > 0 then s[d := l.(admitted := l.admitted - 1)] else s
    case Finish(_) => if l.running > 0 then s[d := l.(running := l.running - 1)] else s
  }

  /**
   One step in numbers: a check admits one request more exactly when there is no cap or what is counted lies below it,
   a start turns one admitted request into a running workflow, an abort and a finish take one away.
   */
  lemma StepInNumbers(s: State, dept: string, visibility: Visibility, rows: int, caps: string -> Option<int>)
    ensures var l, count := At(s, dept), if visibility.Counts? then visibility.n else rows;
            && At(Next(s, Check(dept, visibility, rows), caps), dept)
               == Load(l.running, if caps(dept).None? || count < caps(dept).value then l.admitted + 1 else l.admitted)
            && At(Next(s, Start(dept), caps), dept) == (if l.admitted > 0 then Load(l.running + 1, l.admitted - 1) else l)
            && At(Next(s, Abort(dept), caps), dept) == (if l.admitted > 0 then Load(l.running, l.admitted - 1) else l)
            && At(Next(s, Finish(dept), caps), dept) == (if l.running > 0 then Load(l.running - 1, l.admitted) else l)
  {
  }

  /** A history of steps, the latest one outermost. */
  datatype Run = Begin | Then(before: Run, step: Step)

  /** The state after a history, from departments with nothing running. */
  ghost function After(run: Run, caps: string -> Option<int>): State {
    match run
    case Begin => map[]
    case Then(before, step) => Next(After(before, caps), step, caps)
  }

  /** A check that finds the department at its cap or above is told so; how far a count is off otherwise does not matter. */
  ghost predicate Warned(s: State, step: Step, cap: int) {
    step.Check? && CountActive(step.visibility, step.rows).0 < cap ==> At(s, step.dept).running < cap
  }

  /** Along the run, every check for `dept` is warned when it must be. */
  ghost predicate AlwaysWarned(run: Run, dept: string, cap: int, caps: string -> Option<int>) {
    run.Then? ==> AlwaysWarned(run.before, dept, cap, caps) && (run.step.dept == dept ==> Warned(After(run.before, caps), run.step, cap))
  }

  /** Along the run, at most `k` requests of `dept` are between check and start. */
  ghost predicate AtMost(run: Run, dept: string, k: nat, caps: string -> Option<int>) {
    At(After(run, caps), dept).admitted <= k && (run.Then? ==> AtMost(run.before, dept, k, caps))
  }

  /** Along the run, what runs and what is admitted together stay within `bound`. */
  ghost predicate Within(run: Run, dept: string, bound: int, caps: string -> Option<int>) {
    var l := At(After(run, caps), dept);
    l.running + l.admitted <= bound && (run.Then? ==> Within(run.before, dept, bound, caps))
  }

  lemma OtherDepartmentsDoNotMatter(s: State, step: Step, dept: string, caps: string -> Option<int>)
    requires step.dept != dept
    ensures At(Next(s, step, caps), dept) == At(s, dept)
  {
  }

  lemma BoundStep(s: State, step: Step, k: nat, cap: int, caps: string -> Option<int>)
    requires caps(step.dept) == Some(cap) && cap >= 1 && Warned(s, step, cap)
    requires At(Next(s, step, caps), step.dept).admitted <= k
    requires At(s, step.dept).running + At(s, step.dept).admitted <= cap - 1 + k
    ensures At(Next(s, step, caps), step.dept).running + At(Next(s, step, caps), step.dept).admitted <= cap - 1 + k
  {
  }

  /**
   For every interleaving of every department's steps: if every check that meets a full department is warned, and
   at most `k` of its requests are between check and start, then what runs and what is admitted together never
   exceed cap - 1 + k; with one request at a time, the cap itself. A counter that never under-reports always warns.
   */
  lemma {:induction false} AdmissionIsBounded(run: Run, dept: string, k: nat, cap: int, caps: string -> Option<int>)
    requires caps(dept) == Some(cap) && cap >= 1 && AlwaysWarned(run, dept, cap, caps) && AtMost(run, dept, k, caps)
    ensures Within(run, dept, cap - 1 + k, caps)
  {
    if run.Then? {
      AdmissionIsBounded(run.before, dept, k, cap, caps);
      if run.step.dept == dept {
        BoundStep(After(run.before, caps), run.step, k, cap, caps);
      } else {
        OtherDepartmentsDoNotMatter(After(run.before, caps), run.step, dept, caps);
      }
    }
  }

  /** Exactly when the cap holds with one request at a time: when every check that meets a full department is warned. */
  lemma {:induction false} CapHoldsExactly(run: Run, dept: string, cap: int, caps: string -> Option<int>)
    requires caps(dept) == Some(cap) && cap >= 1 && AtMost(run, dept, 1, caps)
    ensures Within(run, dept, cap, caps) <==> AlwaysWarned(run, dept, cap, caps)
  {
    if run.Then? {
      CapHoldsExactly(run.before, dept, cap, caps);
      if AlwaysWarned(run, dept, cap, caps) {
        AdmissionIsBounded(run, dept, 1, cap, caps);
      }
    }
  }

  /** The count a check acts on is never below what is running. */
  ghost predicate Honest(run: Run, dept: string, caps: string -> Option<int>) {
    run.Then? ==>
      && Honest(run.before, dept, caps)
      && (run.step.Check? && run.step.dept == dept ==>
            CountActive(run.step.visibility, run.step.rows).0 >= At(After(run.before, caps), dept).running)
  }

  /** A counter that never under-reports warns, whatever the cap is. */
  lemma {:induction false} HonestWarns(run: Run, dept: string, cap: int, caps: string -> Option<int>)
    requires Honest(run, dept, caps)
    ensures AlwaysWarned(run, dept, cap, caps)
  {
    if run.Then? { HonestWarns(run.before, dept, cap, caps); }
  }

  // ---- the bound is exact -----------------------------------------------------------------

  /** `running` workflows started one by one, then `more` checks at once, all with true counts. */
  ghost function Rush(dept: string, running: nat, more: nat): Run {
    if more > 0 then Then(Rush(dept, running, more - 1), Check(dept, Counts(running), 0))
    else if running > 0 then Then(Then(Rush(dept, running - 1, 0), Check(dept, Counts(running - 1), 0)), Start(dept))
    else Begin
  }

  lemma {:induction false} RushReaches(dept: string, running: nat, more: nat, k: nat, cap: int, caps: string -> Option<int>)
    requires caps(dept) == Some(cap) && running < cap && more <= k && k >= 1
    ensures At(After(Rush(dept, running, more), caps), dept) == Load(running, more)
    ensures Honest(Rush(dept, running, more), dept, caps) && AtMost(Rush(dept, running, more), dept, k, caps)
    decreases running, more
  {
    if more > 0 {
      RushReaches(dept, running, more - 1, k, cap, caps);
    } else if running > 0 {
      RushReaches(dept, running - 1, 0, k, cap, caps);
    }
  }

  /** No smaller bound would do: with true counts and `k` requests in between, a run does reach cap - 1 + k. */
  lemma BoundIsReached(dept: string, k: nat, cap: int, caps: string -> Option<int>)
    requires caps(dept) == Some(cap) && cap >= 1 && k >= 1
    ensures exists run :: Honest(run, dept, caps) && AtMost(run, dept, k, caps) && At(After(run, caps), dept) == Load(cap - 1, k)
  {
    RushReaches(dept, cap - 1, k, k, cap, caps);
  }

  // ---- an under-reporting counter -------------------------------------------------------------

  /** One request after another, each told by Visibility that nothing runs, while the table has every row. */
  ghost function Unseen(dept: string, n: nat): Run {
    if n == 0 then Begin else Then(Then(Unseen(dept, n - 1), Check(dept, Counts(0), n - 1)), Start(dept))
  }

  /**
   A Visibility query that answers zero, as it does while the department attribute is not registered, is
   believed although the database would know better: then any number of workflows run, even one request at a time,
   and the first check that should have been warned and was not is the one behind the cap-th start.
   */
  lemma {:induction false} BelievedZeroBreaksEveryCap(dept: string, n: nat, cap: int, caps: string -> Option<int>)
    requires caps(dept) == Some(cap) && cap >= 1
    ensures At(After(Unseen(dept, n), caps), dept) == Load(n, 0) && AtMost(Unseen(dept, n), dept, 1, caps)
    ensures AlwaysWarned(Unseen(dept, n), dept, cap, caps) <==> n <= cap
  {
    if n > 0 { BelievedZeroBreaksEveryCap(dept, n - 1, cap, caps); }
  }
}
