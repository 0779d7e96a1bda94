/**
 The smoke runner itself: four suites that make their calls, append one entry per scenario and file one open issue
 per failed entry. Every call is the one the protocol expects, and every failure is one a reply is to blame for.
 */
module SmokeRunner {
  import opened Prelude
  import opened IssueLog
  import opened SmokeProtocol
  import Text
  import SmokeScript

  /** The end of a method by a value, or by an exception nobody catches. */
  datatype Outcome<T> = Done(value: T) | Raised {
    predicate IsFailure() {
      Raised?
    }

    function PropagateFailure<U>(): Outcome<U>
      requires Raised?
    {
      Raised
    }

    function Extract(): T
      requires Done?
    {
      value
    }
  }

  // ---- what an entry says about the issue log -------------------------------------------

  function Digit(n: nat): string {
    if n < 10 then ["0123456789"[n]] else "?"
  }

  function Name(s: Scenario): string {
    match s
    case Jira(n) => "JIRA-" + Digit(n)
    case Conf(n) => "CONF-" + Digit(n)
    case Bb(n) => "BB-" + Digit(n)
    case Cross(n) => "BB-9 (BB-" + Digit(n) + " cross-token)"
  }

  /** What a summary starts with. */
  function Heading(s: Scenario): string {
    match s
    case Jira(n) => "JIRA-" + Digit(n)
    case Conf(n) => "CONF-" + Digit(n)
    case Bb(n) => "BB-" + Digit(n)
    case Cross(n) => "BB-9 cross-token BB-" + Digit(n)
  }

  function RequirementOf(s: Scenario): string {
    if s.Jira? then "R10" else if s.Conf? then "R11" else "R12"
  }

  function EvidenceOf(s: Scenario): string {
    if s.Jira? then "vps-test-evidence/10-jira.json"
    else if s.Conf? then "vps-test-evidence/11-confluence.json"
    else "vps-test-evidence/12-bitbucket.json"
  }

  /** Failures with the selected token are critical, all others major. */
  function SeverityOf(s: Scenario): string {
    if s.Bb? then "critical" else "major"
  }

  /** What the report and a reader of the log look at. */
  datatype Subject = Subject(requirement: string, scenario: Option<string>, severity: string)

  function SubjectOf(d: Draft): Subject {
    Subject(d.requirementId, d.scenarioId, d.severity)
  }

  function Called(s: Scenario): Subject {
    Subject(RequirementOf(s), Some(Name(s)), SeverityOf(s))
  }

  /** The issue of a failed scenario, its summary cut to the log's limit. */
  function DraftOf(s: Scenario, wording: string): Draft {
    var summary := Heading(s) + wording;
    Draft(RequirementOf(s), Some(Name(s)), SeverityOf(s), "integration",
          if |summary| > MAX_SUMMARY then summary[..MAX_SUMMARY] else summary, EvidenceOf(s), "manual_fix")
  }

  lemma DigitsAreShown()
    ensures Digit(1) == "1" && Digit(2) == "2" && Digit(3) == "3" && Digit(4) == "4"
    ensures Digit(5) == "5" && Digit(6) == "6" && Digit(7) == "7" && Digit(8) == "8"
  {
  }

  lemma AtlassianNames()
    ensures Name(Plan(0)) == "JIRA-1" && Name(Plan(1)) == "JIRA-2" && Name(Plan(2)) == "JIRA-3"
    ensures Name(Plan(3)) == "JIRA-4" && Name(Plan(4)) == "JIRA-5" && Name(Plan(5)) == "CONF-1"
    ensures Name(Plan(6)) == "CONF-2" && Name(Plan(7)) == "CONF-3" && Name(Plan(8)) == "CONF-4"
  {
    DigitsAreShown();
  }

  lemma BitbucketNames()
    ensures Name(Plan(9)) == "BB-1" && Name(Plan(10)) == "BB-2" && Name(Plan(11)) == "BB-3"
    ensures Name(Plan(12)) == "BB-4" && Name(Plan(13)) == "BB-5" && Name(Plan(14)) == "BB-6"
    ensures Name(Plan(15)) == "BB-7" && Name(Plan(16)) == "BB-8"
  {
    DigitsAreShown();
  }

  lemma CrossNames()
    ensures Name(Cross(1)) == "BB-9 (BB-1 cross-token)" && Heading(Cross(1)) == "BB-9 cross-token BB-1"
    ensures Name(Cross(4)) == "BB-9 (BB-4 cross-token)" && Heading(Cross(4)) == "BB-9 cross-token BB-4"
    ensures Name(Cross(5)) == "BB-9 (BB-5 cross-token)" && Heading(Cross(5)) == "BB-9 cross-token BB-5"
  {
    DigitsAreShown();
    CrossName(1);
    CrossName(4);
    CrossName(5);
  }

  lemma CrossName(n: nat)
    requires n < 10
    ensures Name(Cross(n)) == ['B', 'B', '-', '9', ' ', '(', 'B', 'B', '-', Digit(n)[0], ' '] + "cross-token)"
    ensures Heading(Cross(n)) == "BB-9 cross-token BB-" + [Digit(n)[0]]
  {
  }

  /** The twenty scenarios of a run, in order, under the names an issue carries. */
  lemma TwentyScenarios()
    ensures Name(Plan(0)) == "JIRA-1" && Name(Plan(1)) == "JIRA-2" && Name(Plan(2)) == "JIRA-3"
    ensures Name(Plan(3)) == "JIRA-4" && Name(Plan(4)) == "JIRA-5" && Name(Plan(5)) == "CONF-1"
    ensures Name(Plan(6)) == "CONF-2" && Name(Plan(7)) == "CONF-3" && Name(Plan(8)) == "CONF-4"
    ensures Name(Plan(9)) == "BB-1" && Name(Plan(10)) == "BB-2" && Name(Plan(11)) == "BB-3"
    ensures Name(Plan(12)) == "BB-4" && Name(Plan(13)) == "BB-5" && Name(Plan(14)) == "BB-6"
    ensures Name(Plan(15)) == "BB-7" && Name(Plan(16)) == "BB-8"
    ensures Name(Plan(17)) == "BB-9 (BB-1 cross-token)" && Heading(Plan(17)) == "BB-9 cross-token BB-1"
    ensures Name(Plan(18)) == "BB-9 (BB-4 cross-token)" && Heading(Plan(18)) == "BB-9 cross-token BB-4"
    ensures Name(Plan(19)) == "BB-9 (BB-5 cross-token)" && Heading(Plan(19)) == "BB-9 cross-token BB-5"
  {
    AtlassianNames();
    BitbucketNames();
    CrossNames();
  }

  /** The issue of the scenario at place `i`: Jira's under R10, Confluence's under R11, both Bitbucket suites' under R12. */
  lemma DraftInFull(i: nat, wording: string)
    requires i < 20
    ensures var d := DraftOf(Plan(i), wording);
            && d.requirementId == (if i < 5 then "R10" else if i < 9 then "R11" else "R12")
            && d.scenarioId == Some(Name(Plan(i)))
            && d.severity == (if 9 <= i < 17 then "critical" else "major")
            && d.category == "integration" && d.recommendedAction == "manual_fix"
            && d.evidencePath == (if i < 5 then "vps-test-evidence/10-jira.json"
                                  else if i < 9 then "vps-test-evidence/11-confluence.json" else "vps-test-evidence/12-bitbucket.json")
            && d.summary <= Heading(Plan(i)) + wording
            && |d.summary| == (if |Heading(Plan(i)) + wording| > 160 then 160 else |Heading(Plan(i)) + wording|)
    ensures i < 17 ==> Heading(Plan(i)) == Name(Plan(i))
  {
  }

  lemma HeadingIsVisible(s: Scenario)
    ensures Heading(s) != "" && !Text.IsSpace(Heading(s)[0])
  {
  }

  lemma RequirementIsKnown(s: Scenario)
    ensures IsRequirement(RequirementOf(s))
  {
  }

  lemma SeverityIsKnown(s: Scenario)
    ensures SeverityOf(s) in SEVERITIES
  {
    assert SEVERITIES[0] == "critical" && SEVERITIES[1] == "major";
  }

  lemma EvidenceIsKept(s: Scenario)
    ensures EVIDENCE_PREFIX <= EvidenceOf(s)
  {
  }

  /** No failure is lost to the log's validators. */
  lemma DraftIsValid(s: Scenario, wording: string)
    ensures Validate(DraftOf(s, wording)) == None && SubjectOf(DraftOf(s, wording)) == Called(s)
  {
    var d := DraftOf(s, wording);
    assert ValidSummary(d.summary) by {
      HeadingIsVisible(s);
      CutSummaryIsValid(Heading(s) + wording);
    }
    RequirementIsKnown(s);
    SeverityIsKnown(s);
    EvidenceIsKept(s);
    assert d.category in CATEGORIES by { assert CATEGORIES[4] == "integration"; }
    assert d.recommendedAction in ACTIONS by { assert ACTIONS[0] == "manual_fix"; }
  }

  /** The scenarios of the failed entries, in order. */
  ghost function Failed(results: seq<Entry>): seq<Scenario> {
    if results == [] then []
    else
      var e := results[|results| - 1];
      Failed(results[..|results| - 1]) + if e.verdict.Fail? then [e.scenario] else []
  }

  ghost function Nth<T>(s: seq<T>, k: nat): Option<T> {
    if k < |s| then Some(s[k]) else None
  }

  ghost function Owed(results: seq<Entry>, k: nat): Option<Scenario> {
    Nth(Failed(results), k)
  }

  /** How failures get into the log: what can be encoded, and what a summary says after its heading. */
  datatype Pen = Pen(encodable: Draft -> bool, wording: Scenario -> string)

  ghost function Written(pen: Pen, s: Scenario): Draft {
    DraftOf(s, pen.wording(s))
  }

  /** The log after these failures, one after the other. */
  ghost function LogAfter(pen: Pen, start: Content, failed: seq<Scenario>): Content {
    if failed == [] then start
    else
      var n := |failed| - 1;
      Appended(pen.encodable, LogAfter(pen, start, failed[..n]), Written(pen, failed[n]), "")
  }

  /** The log can be read, and nothing that has to be written cannot be encoded. */
  ghost predicate Legible(pen: Pen, start: Content, failed: seq<Scenario>) {
    && start.Some? && (failed != [] ==> AllEncodable(pen.encodable, start.value))
    && All(failed, Writes(pen))
  }

  /** The issue of this scenario can be encoded. */
  ghost function Writes(pen: Pen): Scenario -> bool {
    s => pen.encodable(DraftOf(s, pen.wording(s)))
  }

  /** The new issues are about these scenarios, in order and under growing ids, and there are no others. */
  ghost predicate Logged(before: seq<Issue>, issues: seq<Issue>, scenarios: seq<Scenario>) {
    && before <= issues && |issues| == |before| + |scenarios| && (Increasing(before) ==> Increasing(issues))
    && forall k :: 0 <= k < |scenarios| ==> SubjectOf(issues[|before| + k].draft) == Called(scenarios[k])
  }

  /** Exactly when the log keeps its old issues; it then has one new issue per failure. */
  lemma {:induction false} LogSurvivesExactly(pen: Pen, start: Content, failed: seq<Scenario>)
    ensures LogAfter(pen, start, failed).Some? <==> Legible(pen, start, failed)
    ensures Legible(pen, start, failed) ==> Logged(start.value, LogAfter(pen, start, failed).value, failed)
    ensures Legible(pen, start, failed) && failed != [] ==> AllEncodable(pen.encodable, LogAfter(pen, start, failed).value)
  {
    if failed != [] {
      var n := |failed| - 1;
      var rest, d := failed[..n], Written(pen, failed[n]);
      var c := LogAfter(pen, start, rest);
      LogSurvivesExactly(pen, start, rest);
      DraftIsValid(failed[n], pen.wording(failed[n]));
      LegibleSplits(pen, start, failed);
      if LogAfter(pen, start, failed).Some? {
        AppendedKeepsTheLog(pen.encodable, c, d, "");
        LoggedGrows(start.value, c.value, LogAfter(pen, start, failed).value, failed);
      }
    }
  }

  /** The log can be read, and if anything failed, all it holds and every new issue can be encoded. */
  lemma LegibleMeans(pen: Pen, start: Content, failed: seq<Scenario>)
    ensures Legible(pen, start, failed) <==>
              && start.Some?
              && (failed == [] || forall i :: 0 <= i < |start.value| ==> pen.encodable(start.value[i].draft))
              && (forall k :: 0 <= k < |failed| ==> pen.encodable(DraftOf(failed[k], pen.wording(failed[k]))))
  {
    if All(failed, Writes(pen)) {
      forall k | 0 <= k < |failed| ensures pen.encodable(DraftOf(failed[k], pen.wording(failed[k]))) { assert Writes(pen)(failed[k]); }
    }
  }

  lemma LegibleSplits(pen: Pen, start: Content, failed: seq<Scenario>)
    requires failed != []
    ensures var n := |failed| - 1;
            Legible(pen, start, failed) <==>
              Legible(pen, start, failed[..n]) && AllEncodable(pen.encodable, start.value) && pen.encodable(Written(pen, failed[n]))
  {
    AllByLast(failed, Writes(pen));
  }

  lemma LoggedGrows(before: seq<Issue>, issues: seq<Issue>, after: seq<Issue>, failed: seq<Scenario>)
    requires failed != [] && Logged(before, issues, failed[..|failed| - 1])
    requires issues <= after && |after| == |issues| + 1 && SubjectOf(after[|issues|].draft) == Called(failed[|failed| - 1])
    requires Increasing(issues) ==> Increasing(after)
    ensures Logged(before, after, failed)
  {
    var n := |failed| - 1;
    forall k | 0 <= k < |failed| ensures SubjectOf(after[|before| + k].draft) == Called(failed[k]) {
      if k < n { assert failed[..n][k] == failed[k] && after[|before| + k] == issues[|before| + k]; }
    }
  }

  ghost predicate Yields(pen: Pen, start: Content, results: seq<Entry>, c: Content) {
    LogAfter(pen, start, Failed(results)) == c
  }

  /** The log is what the failed entries make of it. */
  ghost predicate Recorded(pen: Pen, start: Content, results: seq<Entry>, content: Content) {
    forall c :: Yields(pen, start, results, c) ==> c == content
  }

  lemma RecordedMeans(pen: Pen, start: Content, results: seq<Entry>, content: Content)
    requires Recorded(pen, start, results, content)
    ensures content == LogAfter(pen, start, Failed(results))
  {
    assert Yields(pen, start, results, LogAfter(pen, start, Failed(results)));
  }

  lemma LogAfterOneMore(pen: Pen, start: Content, failed: seq<Scenario>, s: Scenario)
    ensures LogAfter(pen, start, failed + [s]) == Appended(pen.encodable, LogAfter(pen, start, failed), Written(pen, s), "")
  {
    assert (failed + [s])[..|failed|] == failed;
  }

  lemma RecordedGrows(pen: Pen, start: Content, results: seq<Entry>, content: Content, e: Entry)
    requires Recorded(pen, start, results, content)
    ensures Recorded(pen, start, results + [e],
                     if e.verdict.Fail? then Appended(pen.encodable, content, Written(pen, e.scenario), "") else content)
  {
    RecordedMeans(pen, start, results, content);
    FailedGrows(results, e);
    if e.verdict.Fail? {
      assert Failed(results + [e]) == Failed(results) + [e.scenario];
      LogAfterOneMore(pen, start, Failed(results), e.scenario);
    } else {
      assert Failed(results + [e]) == Failed(results);
    }
  }

  ghost function Charged(w: World, h: History, k: nat): Option<Scenario> {
    Nth(Blame(w, h), k)
  }

  /** The failed entries are exactly those that replies are to blame for, in order. */
  ghost predicate Answers(w: World, h: History, results: seq<Entry>) {
    forall k: nat :: Owed(results, k) == Charged(w, h, k)
  }

  lemma FailedGrows(results: seq<Entry>, e: Entry)
    ensures Failed(results + [e]) == Failed(results) + if e.verdict.Fail? then [e.scenario] else []
  {
    assert (results + [e])[..|results|] == results;
  }

  /** Replies nobody blames change nothing. */
  lemma StillAnswers(w: World, h: History, later: History, results: seq<Entry>)
    requires Answers(w, h, results) && Blame(w, later) == Blame(w, h)
    ensures Answers(w, later, results)
  {
    forall k: nat ensures Owed(results, k) == Charged(w, later, k) {
      assert Owed(results, k) == Charged(w, h, k);
    }
  }

  lemma AnswersOn(w: World, h: History, later: History, results: seq<Entry>, e: Entry)
    requires Answers(w, h, results) && Blame(w, later) == Blame(w, h) + if e.verdict.Fail? then [e.scenario] else []
    ensures Answers(w, later, results + [e])
  {
    AnswersMeans(w, h, results);
    FailedGrows(results, e);
  }

  lemma AnswersMeans(w: World, h: History, results: seq<Entry>)
    requires Answers(w, h, results)
    ensures Failed(results) == Blame(w, h)
  {
    var a, b := Failed(results), Blame(w, h);
    assert Owed(results, |a|) == Charged(w, h, |a|) && Owed(results, |b|) == Charged(w, h, |b|);
    forall k | 0 <= k < |a| ensures a[k] == b[k] {
      assert Owed(results, k) == Charged(w, h, k);
    }
  }

  ghost predicate Correct(w: World, h: History, results: seq<Entry>, i: nat) {
    i < |results| ==> results[i] == Ruling(w, h, Plan(i))
  }

  /** Every entry is the one the history calls for. */
  ghost predicate Right(w: World, h: History, results: seq<Entry>) {
    |results| <= 20 && forall i: nat :: Correct(w, h, results, i)
  }

  /** The twenty entries of a run that ends regularly: the scenarios in order, each with the verdict its replies say. */
  ghost predicate EntriesOf(w: World, h: History, results: seq<Entry>) {
    |results| == 20 && forall i :: 0 <= i < 20 ==> results[i].scenario == Plan(i) && results[i].verdict == SmokeScript.Outcome(w, h, Plan(i))
  }

  lemma EntriesExactly(w: World, results: seq<Entry>)
    requires Next(w, Play(w, Start)) == End && Right(w, Play(w, Start), results) && |results| == 20
    ensures EntriesOf(w, Play(w, Start), results)
  {
    forall i | 0 <= i < 20
      ensures results[i].scenario == Plan(i) && results[i].verdict == SmokeScript.Outcome(w, Play(w, Start), Plan(i))
    {
      assert Correct(w, Play(w, Start), results, i);
      SmokeScript.VerdictsExactly(w, i);
    }
  }

  ghost predicate StillUnmet(w: World, h: History, from: nat, j: nat) {
    from <= j ==> Unmet(w, h, j)
  }

  /** From this scenario on nothing has happened yet. */
  ghost predicate Ahead(w: World, h: History, from: nat) {
    forall j: nat :: StillUnmet(w, h, from, j)
  }

  lemma RightOn(w: World, h: History, c: Call, r: Response, results: seq<Entry>)
    requires Right(w, h, results) && Current(c.spot, |results|) && (|results| == 20 ==> Aside(c.spot))
    ensures Right(w, After(h, c, r), results)
  {
    forall i: nat ensures Correct(w, After(h, c, r), results, i) {
      assert Correct(w, h, results, i);
      if i < |results| { RulingStays(w, h, c, r, i, |results|); }
    }
  }

  lemma RightGrows(w: World, h: History, results: seq<Entry>, e: Entry)
    requires Right(w, h, results) && |results| < 20 && e == Ruling(w, h, Plan(|results|))
    ensures Right(w, h, results + [e])
  {
    forall i: nat ensures Correct(w, h, results + [e], i) { assert Correct(w, h, results, i); }
  }

  lemma AheadOn(w: World, h: History, c: Call, r: Response, from: nat, n: nat)
    requires Ahead(w, h, from) && Current(c.spot, n) && (from > n || Aside(c.spot))
    ensures Ahead(w, After(h, c, r), from)
  {
    forall j: nat ensures StillUnmet(w, After(h, c, r), from, j) {
      assert StillUnmet(w, h, from, j);
      if from <= j < 20 { UnmetStays(w, h, c, r, j); }
    }
  }

  lemma AheadShrinks(w: World, h: History, n: nat)
    requires Ahead(w, h, n)
    ensures Ahead(w, h, n + 1) && Unmet(w, h, n)
  {
    assert StillUnmet(w, h, n, n);
    var m := n + 1;
    forall j: nat ensures StillUnmet(w, h, m, j) { assert StillUnmet(w, h, n, j); }
  }

  /** What follows the preparation and clean-up calls of the cross-token suite. */
  function Onward(w: World, spot: Spot, ok: bool): Turn {
    match spot
    case XBranchCreate => if ok then Turn.Ask(Call(XCommit, w.crossBranch)) else LastTurn(w)
    case XCommit => Turn.Ask(Call(XPrCreate, w.crossBranch))
    case XPrDecline => Turn.Ask(Call(XBranchDelete, w.crossBranch))
    case _ => LastTurn(w)
  }

  // ---- the runner ----------------------------------------------------------------------

  class Runner {
    const world: World
    const file: IssueFile
    /** What an issue's summary says after its heading. */
    const wording: Scenario -> string
    var history: History
    var results: seq<Entry>
    /** The log as the run found it. */
    ghost const start: Content

    constructor (world: World, file: IssueFile, wording: Scenario -> string)
      ensures Ready(0, Turn.Ask(Call(JiraCreate, ""))) && this.world == world && this.file == file
      ensures start == file.content && Hand() == Pen(file.encodable, wording)
    {
      this.world, this.file, this.wording, this.start := world, file, wording, file.content;
      history, results := Start, [];
    }

    ghost function Hand(): Pen {
      Pen(file.encodable, wording)
    }

    /** The log follows the entries, the entries and the calls follow the protocol. */
    ghost predicate Valid()
      reads this, file
    {
      && Recorded(Hand(), start, results, file.content) && Right(world, history, results)
      && OnTrack(world, history) && Ahead(world, history, |results| + 1)
    }

    /** Between two scenarios, `n` of them done and `turn` to follow: exactly the failures that replies are to blame for. */
    ghost predicate Ready(n: nat, turn: Turn)
      reads this, file
    {
      && Valid() && Answers(world, history, results) && Awaits(world, history, turn)
      && |results| == n && Ahead(world, history, n)
    }

    /** Within the scenario at place `n`, whose first call is not to blame. */
    ghost predicate Midway(n: nat, c: Call, from: History, turn: Turn)
      reads this, file
    {
      && Valid() && Answers(world, from, results) && |results| == n && Unmet(world, from, n)
      && history == world.Then(from, c) && Blame(world, history) == Blame(world, from) && Awaits(world, history, turn)
    }

    /** After an exception, which may come in the middle of a scenario. */
    ghost predicate Stopped()
      reads this, file
    {
      Valid() && Answers(world, history, results) && Awaits(world, history, Crash)
    }

    /** `call_tool`: the call is the one the protocol has next. */
    method Ask(call: Call) returns (r: Response)
      requires Valid() && Awaits(world, history, Turn.Ask(call))
      requires Current(call.spot, |results|) && (|results| == 20 ==> Aside(call.spot))
      modifies this`history
      ensures Valid() && history == world.Then(old(history), call) && r == history.reply
      ensures Blame(world, history) == Blame(world, old(history)) + if Blamed(world, call, r) then [ScenarioOf(call.spot)] else []
      ensures call.spot != PageCreate ==> (PageNamed(history) <==> PageNamed(old(history)))
    {
      AwaitsMeans(world, history, Turn.Ask(call));
      OnTrackOn(world, history, call);
      r := world.reply(history, call);
      RightOn(world, history, call, r, results);
      AheadOn(world, history, call, r, |results| + 1, |results|);
      history := world.Then(history, call);
    }

    /** `results.append` with the open issue of a failed entry; the calls since `from` are to blame for exactly that. */
    method Conclude(e: Entry, ghost from: History)
      requires Valid() && Answers(world, from, results) && |results| < 20
      requires e.scenario == Plan(|results|) && CallsFor(world, history, e.scenario, e)
      requires Blame(world, history) == Blame(world, from) + if e.verdict.Fail? then [e.scenario] else []
      modifies this`results, file
      ensures Valid() && Answers(world, history, results) && results == old(results) + [e] && Ahead(world, history, |results|)
    {
      ghost var done := |results| + 1;
      AnswersOn(world, from, history, results, e);
      CallsForMeans(world, history, e.scenario, e);
      RightGrows(world, history, results, e);
      AheadShrinks(world, history, done);
      RecordedGrows(Hand(), start, results, file.content, e);
      if e.verdict.Fail? {
        LogIssue(e.scenario);
      }
      results := results + [e];
    }

    /** The two issue helpers; whatever goes wrong in them is swallowed. */
    method LogIssue(s: Scenario)
      modifies file
      ensures file.content == Appended(file.encodable, old(file.content), Written(Hand(), s), "")
    {
      DraftIsValid(s, wording(s));
      var _ := file.LogOpenIssue(DraftOf(s, wording(s)), "");
    }

    /** Scenarios that are not run, up to the one at place `upTo`. */
    method Skip(upTo: nat, verdict: Verdict, ghost turn: Turn)
      requires Ready(|results|, turn) && |results| <= upTo <= 20 && verdict in {Pending, NotApplicable}
      requires forall j :: |results| <= j < upTo ==> Unrun(world, history, Plan(j)) == verdict
      modifies this`results, file
      ensures Ready(upTo, turn)
    {
      while |results| < upTo
        invariant |old(results)| <= |results| <= upTo && Ready(|results|, turn)
      {
        AheadShrinks(world, history, |results|);
        NoCall(world, history, |results|);
        Conclude(Entry(Plan(|results|), verdict, 0, UnrunTool(world, Plan(|results|))), history);
      }
    }

    // ---- Jira -----------------------------------------------------------------------

    /** The key must be a text to be matched at all, and the issue counts as created only when it is one of the project's. */
    method Jira1() returns (o: Outcome<Option<string>>)
      requires Ready(0, Turn.Ask(Call(JiraCreate, "")))
      modifies this`history, this`results, file
      ensures o.Raised? ==> Stopped()
      ensures o.Done? ==> Ready(1, if o.value.Some? then Turn.Ask(Call(JiraSearch, o.value.value)) else ConfTurn(world))
    {
      ghost var from := history;
      AheadShrinks(world, from, 0);
      var r := Ask(Call(JiraCreate, ""));
      var key := None;
      if r.success {
        var v := r.field(Key);
        if !v.Str? {
          StillAnswers(world, from, history, results);
          return Raised;
        }
        if world.isIssueKey(v.s) {
          key := Some(v.s);
        }
      }
      OneCall(world, from, Call(JiraCreate, ""), r, 0);
      Conclude(Entry(Jira(1), Judge(key.Some?), r.httpStatus, ToolAt(JiraCreate)), from);
      return Done(key);
    }

    /** The created key must show in the search. */
    method Jira2(key: string)
      requires Ready(1, Turn.Ask(Call(JiraSearch, key)))
      modifies this`history, this`results, file
      ensures Ready(2, Turn.Ask(Call(JiraComment, key)))
    {
      ghost var from := history;
      AheadShrinks(world, from, 1);
      var r := Ask(Call(JiraSearch, key));
      OneCall(world, from, Call(JiraSearch, key), r, 1);
      Conclude(Entry(Jira(2), Judge(r.success && Text.Contains(r.text, key)), r.httpStatus, ToolAt(JiraSearch)), from);
    }

    /** The comment's id is read only to be shown. */
    method Jira3(key: string) returns (o: Outcome<()>)
      requires Ready(2, Turn.Ask(Call(JiraComment, key)))
      modifies this`history, this`results, file
      ensures o.Raised? ==> Stopped()
      ensures o.Done? ==> Ready(3, Turn.Ask(Call(JiraTransition, key)))
    {
      ghost var from := history;
      AheadShrinks(world, from, 2);
      var r := Ask(Call(JiraComment, key));
      if r.success && r.field(Id).Raises? {
        StillAnswers(world, from, history, results);
        return Raised;
      }
      OneCall(world, from, Call(JiraComment, key), r, 2);
      Conclude(Entry(Jira(3), Judge(r.success), r.httpStatus, ToolAt(JiraComment)), from);
      return Done(());
    }

    /** The transition must show in a second look at the issue, whose own success is not asked for. */
    method Jira4(key: string) returns (o: Outcome<()>)
      requires Ready(3, Turn.Ask(Call(JiraTransition, key)))
      modifies this`history, this`results, file
      ensures o.Raised? ==> Stopped()
      ensures o.Done? ==> Ready(4, Turn.Ask(Call(JiraDelete, key)))
    {
      ghost var from := history;
      AheadShrinks(world, from, 3);
      var r := Ask(Call(JiraTransition, key));
      var ok := false;
      if r.success {
        var v := Ask(Call(JiraLook, key));
        if v.field(StatusName).Raises? {
          StillAnswers(world, from, history, results);
          return Raised;
        }
        ok := IssueDone(v);
        TwoCalls(world, from, Call(JiraTransition, key), r, Call(JiraLook, key), v, 3);
      } else {
        OneCall(world, from, Call(JiraTransition, key), r, 3);
      }
      Conclude(Entry(Jira(4), Judge(ok), r.httpStatus, ToolAt(JiraTransition)), from);
      return Done(());
    }

    /** Deletion: confirmed by the issue being gone, excused when the tool is banned. */
    method Jira5(key: string)
      requires Ready(4, Turn.Ask(Call(JiraDelete, key)))
      modifies this`history, this`results, file
      ensures Ready(5, ConfTurn(world))
    {
      ghost var from := history;
      AheadShrinks(world, from, 4);
      var r := Ask(Call(JiraDelete, key));
      if r.success {
        var v := Ask(Call(JiraRecheck, key));
        TwoCalls(world, from, Call(JiraDelete, key), r, Call(JiraRecheck, key), v, 4);
        Conclude(Entry(Jira(5), Judge(OutOfReach(v)), r.httpStatus, ToolAt(JiraDelete)), from);
      } else if JiraDelete in world.banned {
        BannedIsExcused(world, from, Call(JiraDelete, key), r);
        Conclude(Entry(Jira(5), NotApplicable, 0, ToolAt(JiraDelete)), from);
      } else {
        OneCall(world, from, Call(JiraDelete, key), r, 4);
        Conclude(Entry(Jira(5), Fail, r.httpStatus, ToolAt(JiraDelete)), from);
      }
    }

    /** The Jira suite; without a key the chain is broken. */
    method RunJira() returns (o: Outcome<()>)
      requires Ready(0, Turn.Ask(Call(JiraCreate, "")))
      modifies this`history, this`results, file
      ensures o.Raised? ==> Stopped()
      ensures o.Done? ==> Ready(5, ConfTurn(world))
    {
      var key :- Jira1();
      if key.None? {
        Skip(5, Pending, ConfTurn(world));
      } else {
        Jira2(key.value);
        var _ :- Jira3(key.value);
        var _ :- Jira4(key.value);
        Jira5(key.value);
      }
      return Done(());
    }

    // ---- Confluence -----------------------------------------------------------------

    /** Always passes: with the key found through the first space tool there is, or with the configured one. */
    method Conf1() returns (o: Outcome<Value>)
      requires Ready(5, ConfTurn(world)) && world.published(JiraSuite)
      modifies this`history, this`results, file
      ensures o.Raised? ==> Stopped()
      ensures o.Done? ==> Ready(6, if o.value.Str? then PageTurn(world, o.value.s) else Crash)
    {
      ghost var from := history;
      AheadShrinks(world, from, 5);
      var space := Str(world.defaultSpace);
      var tool := SpaceTool(world);
      if tool.None? {
        NoCall(world, from, 5);
        Conclude(Entry(Conf(1), Pass, 0, NoTool), from);
        return Done(space);
      }
      var r := Ask(Call(Spaces, ""));
      if r.success {
        var v := r.field(SpaceKey);
        if v.Raises? {
          StillAnswers(world, from, history, results);
          return Raised;
        }
        if Truthy(v) {
          space := v;
        }
      }
      SpacesPass(world, from, Call(Spaces, ""), r);
      Conclude(Entry(Conf(1), Pass, r.httpStatus, SpaceToolNo(tool.value)), from);
      return Done(space);
    }

    /** The space is put into the page's text first; the page counts as created only when the reply names it. */
    method Conf2(space: Value) returns (o: Outcome<Option<string>>)
      requires Ready(6, if space.Str? then PageTurn(world, space.s) else Crash)
      modifies this`history, this`results, file
      ensures o.Raised? ==> Stopped()
      ensures o.Done? ==> Ready(7, if o.value.Some? then UpdateTurn(world, o.value.value) else BbTurn(world))
      ensures o.Done? ==> (o.value.Some? <==> PageNamed(history))
    {
      if !space.Str? {
        return Raised;
      }
      ghost var from := history;
      AheadShrinks(world, from, 6);
      if PageCreate in world.banned {
        NoCall(world, from, 6);
        Conclude(Entry(Conf(2), NotApplicable, 0, ToolAt(PageCreate)), from);
        return Done(None);
      }
      var r := Ask(Call(PageCreate, space.s));
      if (if r.success then r.Either(Id, PageId).Raises? else r.field(ErrorText).Raises?) {
        StillAnswers(world, from, history, results);
        return Raised;
      }
      var page := r.Named(Id, PageId);
      OneCall(world, from, Call(PageCreate, space.s), r, 6);
      Conclude(Entry(Conf(2), Judge(page.Some?), r.httpStatus, ToolAt(PageCreate)), from);
      return Done(page);
    }

    /** The update must show in a second look at the page, unless that look itself fails; its version must be a number. */
    method Conf3(page: string) returns (o: Outcome<()>)
      requires Ready(7, UpdateTurn(world, page)) && PageNamed(history)
      modifies this`history, this`results, file
      ensures o.Raised? ==> Stopped()
      ensures o.Done? ==> Ready(8, DeleteTurn(world, page)) && PageNamed(history)
    {
      ghost var from := history;
      AheadShrinks(world, from, 7);
      if PageUpdate in world.banned {
        NoCall(world, from, 7);
        Conclude(Entry(Conf(3), NotApplicable, 0, ToolAt(PageUpdate)), from);
        return Done(());
      }
      var r := Ask(Call(PageUpdate, page));
      if r.success {
        o := Conf3Look(page, r, from);
      } else {
        OneCall(world, from, Call(PageUpdate, page), r, 7);
        Conclude(Entry(Conf(3), Fail, r.httpStatus, ToolAt(PageUpdate)), from);
        o := Done(());
      }
    }

    method Conf3Look(page: string, r: Response, ghost from: History) returns (o: Outcome<()>)
      requires Midway(7, Call(PageUpdate, page), from, Turn.Ask(Call(PageLook, page)))
      requires r == history.reply && r.success && PageNamed(history)
      modifies this`history, this`results, file
      ensures o.Raised? ==> Stopped()
      ensures o.Done? ==> Ready(8, DeleteTurn(world, page)) && PageNamed(history)
    {
      var v := Ask(Call(PageLook, page));
      if v.success && !v.field(Version).Number? {
        StillAnswers(world, from, history, results);
        return Raised;
      }
      TwoCalls(world, from, Call(PageUpdate, page), r, Call(PageLook, page), v, 7);
      Conclude(Entry(Conf(3), Judge(PageUpdated(v)), r.httpStatus, ToolAt(PageUpdate)), from);
      return Done(());
    }

    /** Deletion, attempted unless its tool is banned, and confirmed by the page being gone or trashed. */
    method Conf4(page: string) returns (o: Outcome<()>)
      requires Ready(8, DeleteTurn(world, page)) && PageNamed(history)
      modifies this`history, this`results, file
      ensures o.Raised? ==> Stopped()
      ensures o.Done? ==> Ready(9, BbTurn(world))
    {
      ghost var from := history;
      AheadShrinks(world, from, 8);
      if PageDelete in world.banned {
        NoCall(world, from, 8);
        Conclude(Entry(Conf(4), NotApplicable, 0, ToolAt(PageDelete)), from);
        return Done(());
      }
      var r := Ask(Call(PageDelete, page));
      if r.success {
        o := Conf4Look(page, r, from);
      } else {
        OneCall(world, from, Call(PageDelete, page), r, 8);
        Conclude(Entry(Conf(4), Fail, r.httpStatus, ToolAt(PageDelete)), from);
        o := Done(());
      }
    }

    method Conf4Look(page: string, r: Response, ghost from: History) returns (o: Outcome<()>)
      requires Midway(8, Call(PageDelete, page), from, Turn.Ask(Call(PageRecheck, page))) && r == history.reply && r.success
      modifies this`history, this`results, file
      ensures o.Raised? ==> Stopped()
      ensures o.Done? ==> Ready(9, BbTurn(world))
    {
      var v := Ask(Call(PageRecheck, page));
      if !OutOfReach(v) && v.field(Status).Raises? {
        StillAnswers(world, from, history, results);
        return Raised;
      }
      TwoCalls(world, from, Call(PageDelete, page), r, Call(PageRecheck, page), v, 8);
      Conclude(Entry(Conf(4), Judge(PageGone(v)), r.httpStatus, ToolAt(PageDelete)), from);
      return Done(());
    }

    /** The Confluence suite; without a page the chain is broken. */
    method RunConfluence() returns (o: Outcome<()>)
      requires Ready(5, ConfTurn(world)) && world.published(JiraSuite)
      modifies this`history, this`results, file
      ensures o.Raised? ==> Stopped()
      ensures o.Done? ==> Ready(9, BbTurn(world))
    {
      var space :- Conf1();
      var page :- Conf2(space);
      if page.None? {
        Skip(9, Pending, BbTurn(world));
      } else {
        var _ :- Conf3(page.value);
        var _ :- Conf4(page.value);
      }
      return Done(());
    }

    // ---- Bitbucket ------------------------------------------------------------------

    /** The repository's main branch must be called main; both token runs ask. */
    method Repository(spot: Spot, n: nat) returns (o: Outcome<()>)
      requires Ready(n, Turn.Ask(Call(spot, ""))) && ((spot == Repo && n == 9) || (spot == XRepo && n == 17))
      modifies this`history, this`results, file
      ensures o.Raised? ==> Stopped()
      ensures o.Done? ==>
                Ready(n + 1, Turn.Ask(if spot == Repo then Call(BranchCreate, world.branch) else Call(XBranchCreate, world.crossBranch)))
    {
      ghost var from := history;
      AheadShrinks(world, from, n);
      var r := Ask(Call(spot, ""));
      if r.success && MainBranch(r).Raises? {
        StillAnswers(world, from, history, results);
        return Raised;
      }
      OneCall(world, from, Call(spot, ""), r, n);
      Conclude(Entry(ScenarioOf(spot), Judge(OnMain(r)), r.httpStatus, ToolAt(spot)), from);
      return Done(());
    }

    method Bb2() returns (created: bool)
      requires Ready(10, Turn.Ask(Call(BranchCreate, world.branch)))
      modifies this`history, this`results, file
      ensures Ready(11, if created then Turn.Ask(Call(Commit, world.branch)) else CrossTurn(world))
    {
      ghost var from := history;
      AheadShrinks(world, from, 10);
      var r := Ask(Call(BranchCreate, world.branch));
      OneCall(world, from, Call(BranchCreate, world.branch), r, 10);
      Conclude(Entry(Bb(2), Judge(r.success), r.httpStatus, ToolAt(BranchCreate)), from);
      created := r.success;
    }

    /** The first twelve places of the commit's hash are shown, which a number or an object does not have. */
    method Bb3() returns (o: Outcome<()>)
      requires Ready(11, Turn.Ask(Call(Commit, world.branch)))
      modifies this`history, this`results, file
      ensures o.Raised? ==> Stopped()
      ensures o.Done? ==> Ready(12, Turn.Ask(Call(PrCreate, world.branch)))
    {
      ghost var from := history;
      AheadShrinks(world, from, 11);
      var r := Ask(Call(Commit, world.branch));
      if r.success {
        var sha := r.Either(CommitSha, Hash);
        if sha.Raises? || (Truthy(sha) && (sha.Number? || sha.Object?)) {
          StillAnswers(world, from, history, results);
          return Raised;
        }
      }
      OneCall(world, from, Call(Commit, world.branch), r, 11);
      Conclude(Entry(Bb(3), Judge(r.success), r.httpStatus, ToolAt(Commit)), from);
      return Done(());
    }

    /** The pull request counts as created only when the reply names it. */
    method Bb4() returns (o: Outcome<Option<string>>)
      requires Ready(12, Turn.Ask(Call(PrCreate, world.branch)))
      modifies this`history, this`results, file
      ensures o.Raised? ==> Stopped()
      ensures o.Done? ==> Ready(13, Turn.Ask(if o.value.Some? then Call(PrDiff, o.value.value) else Call(BranchDelete, world.branch)))
    {
      ghost var from := history;
      AheadShrinks(world, from, 12);
      var r := Ask(Call(PrCreate, world.branch));
      if r.success && r.Either(Id, PrId).Raises? {
        StillAnswers(world, from, history, results);
        return Raised;
      }
      var pr := r.Named(Id, PrId);
      OneCall(world, from, Call(PrCreate, world.branch), r, 12);
      Conclude(Entry(Bb(4), Judge(pr.Some?), r.httpStatus, ToolAt(PrCreate)), from);
      return Done(pr);
    }

    /** The diff must name the committed file; both token runs ask. */
    method ReadDiff(spot: Spot, pr: string, n: nat) returns (o: Outcome<()>)
      requires Ready(n, Turn.Ask(Call(spot, pr))) && ((spot == PrDiff && n == 13) || (spot == XPrDiff && n == 19))
      modifies this`history, this`results, file
      ensures o.Raised? ==> Stopped()
      ensures o.Done? ==> Ready(n + 1, Turn.Ask(Call(if spot == PrDiff then PrComment else XPrDecline, pr)))
    {
      ghost var from := history;
      AheadShrinks(world, from, n);
      var r := Ask(Call(spot, pr));
      var v := r.field(Diff);
      if r.success && (v.Raises? || (Truthy(v) && v.Number?)) {
        StillAnswers(world, from, history, results);
        return Raised;
      }
      var ok := r.success && Mentions(v, if spot == PrDiff then TEST_FILE else CROSS_FILE);
      OneCall(world, from, Call(spot, pr), r, n);
      Conclude(Entry(ScenarioOf(spot), Judge(ok), r.httpStatus, ToolAt(spot)), from);
      return Done(());
    }

    method Bb6(pr: string)
      requires Ready(14, Turn.Ask(Call(PrComment, pr)))
      modifies this`history, this`results, file
      ensures Ready(15, Turn.Ask(Call(PrDecline, pr)))
    {
      ghost var from := history;
      AheadShrinks(world, from, 14);
      var r := Ask(Call(PrComment, pr));
      OneCall(world, from, Call(PrComment, pr), r, 14);
      Conclude(Entry(Bb(6), Judge(r.success), r.httpStatus, ToolAt(PrComment)), from);
    }

    /** The pull request must then be declined, as far as its state can be read; a state that is no text raises. */
    method Bb7(pr: string) returns (o: Outcome<()>)
      requires Ready(15, Turn.Ask(Call(PrDecline, pr)))
      modifies this`history, this`results, file
      ensures o.Raised? ==> Stopped()
      ensures o.Done? ==> Ready(16, Turn.Ask(Call(BranchDelete, world.branch)))
    {
      ghost var from := history;
      AheadShrinks(world, from, 15);
      var r := Ask(Call(PrDecline, pr));
      if r.success {
        o := Bb7Look(pr, r, from);
      } else {
        OneCall(world, from, Call(PrDecline, pr), r, 15);
        Conclude(Entry(Bb(7), Fail, r.httpStatus, ToolAt(PrDecline)), from);
        o := Done(());
      }
    }

    method Bb7Look(pr: string, r: Response, ghost from: History) returns (o: Outcome<()>)
      requires Midway(15, Call(PrDecline, pr), from, Turn.Ask(Call(PrLook, pr))) && r == history.reply && r.success
      modifies this`history, this`results, file
      ensures o.Raised? ==> Stopped()
      ensures o.Done? ==> Ready(16, Turn.Ask(Call(BranchDelete, world.branch)))
    {
      var v := Ask(Call(PrLook, pr));
      if v.success && !v.Either(State, Status).Str? {
        StillAnswers(world, from, history, results);
        return Raised;
      }
      TwoCalls(world, from, Call(PrDecline, pr), r, Call(PrLook, pr), v, 15);
      Conclude(Entry(Bb(7), Judge(Declined(v)), r.httpStatus, ToolAt(PrDecline)), from);
      return Done(());
    }

    /** Deletion of the branch, confirmed by the branch list; a second tool is tried when the first fails. */
    method Bb8()
      requires Ready(16, Turn.Ask(Call(BranchDelete, world.branch)))
      modifies this`history, this`results, file
      ensures Ready(17, CrossTurn(world))
    {
      ghost var from := history;
      AheadShrinks(world, from, 16);
      var r := Ask(Call(BranchDelete, world.branch));
      if r.success {
        ConfirmGone(r, from);
      } else {
        FallBack(r, from);
      }
    }

    method ConfirmGone(r: Response, ghost from: History)
      requires Midway(16, Call(BranchDelete, world.branch), from, Turn.Ask(Call(BranchList, world.branch))) && r == history.reply && r.success
      modifies this`history, this`results, file
      ensures Ready(17, CrossTurn(world))
    {
      var v := Ask(Call(BranchList, world.branch));
      TwoCalls(world, from, Call(BranchDelete, world.branch), r, Call(BranchList, world.branch), v, 16);
      Conclude(Entry(Bb(8), Judge(BranchGone(v, world.branch)), r.httpStatus, ToolAt(BranchDelete)), from);
    }

    method FallBack(r: Response, ghost from: History)
      requires Midway(16, Call(BranchDelete, world.branch), from, Turn.Ask(Call(RefDelete, world.branch))) && r == history.reply && !r.success
      modifies this`history, this`results, file
      ensures Ready(17, CrossTurn(world))
    {
      var v := Ask(Call(RefDelete, world.branch));
      FallBackDecides(world, from, Call(BranchDelete, world.branch), r, Call(RefDelete, world.branch), v);
      Conclude(if v.success then Entry(Bb(8), Pass, v.httpStatus, ToolAt(RefDelete))
               else Entry(Bb(8), Fail, r.httpStatus, ToolAt(BranchDelete)), from);
    }

    /** The scenarios on a pull request. */
    method PullRequestChain(pr: string) returns (o: Outcome<()>)
      requires Ready(13, Turn.Ask(Call(PrDiff, pr)))
      modifies this`history, this`results, file
      ensures o.Raised? ==> Stopped()
      ensures o.Done? ==> Ready(16, Turn.Ask(Call(BranchDelete, world.branch)))
    {
      var _ :- ReadDiff(PrDiff, pr, 13);
      Bb6(pr);
      o := Bb7(pr);
    }

    /** The scenarios on a created branch, with or without a pull request. */
    method BranchChain() returns (o: Outcome<()>)
      requires Ready(11, Turn.Ask(Call(Commit, world.branch))) && world.bitbucket.Present?
      modifies this`history, this`results, file
      ensures o.Raised? ==> Stopped()
      ensures o.Done? ==> Ready(17, CrossTurn(world))
    {
      var _ :- Bb3();
      var pr :- Bb4();
      if pr.None? {
        Skip(16, Pending, Turn.Ask(Call(BranchDelete, world.branch)));
      } else {
        var _ :- PullRequestChain(pr.value);
      }
      Bb8();
      return Done(());
    }

    /** The Bitbucket suite with the selected token; nothing of it is run without the tools. */
    method RunBitbucket() returns (o: Outcome<()>)
      requires Ready(9, BbTurn(world)) && world.published(ConfluenceSuite)
      modifies this`history, this`results, file
      ensures o.Raised? ==> Stopped()
      ensures o.Done? ==> Ready(17, CrossTurn(world))
    {
      if world.bitbucket.Unreadable? {
        return Raised;
      }
      if world.bitbucket.Missing? {
        Skip(17, NotApplicable, CrossTurn(world));
        return Done(());
      }
      var _ :- Repository(Repo, 9);
      var created := Bb2();
      if created {
        var _ :- BranchChain();
      } else {
        Skip(17, Pending, CrossTurn(world));
      }
      return Done(());
    }

    // ---- Bitbucket with the other token ------------------------------------------------

    /** The pull request passes by its call alone, even when the reply does not name it. */
    method Cross4() returns (o: Outcome<Option<string>>)
      requires Ready(18, Turn.Ask(Call(XPrCreate, world.crossBranch)))
      modifies this`history, this`results, file
      ensures o.Raised? ==> Stopped()
      ensures o.Done? ==>
                Ready(19, Turn.Ask(if o.value.Some? then Call(XPrDiff, o.value.value) else Call(XBranchDelete, world.crossBranch)))
    {
      ghost var from := history;
      AheadShrinks(world, from, 18);
      var r := Ask(Call(XPrCreate, world.crossBranch));
      if r.success && r.Either(Id, PrId).Raises? {
        StillAnswers(world, from, history, results);
        return Raised;
      }
      OneCall(world, from, Call(XPrCreate, world.crossBranch), r, 18);
      Conclude(Entry(Cross(4), Judge(r.success), r.httpStatus, ToolAt(XPrCreate)), from);
      return Done(r.Named(Id, PrId));
    }

    /** Preparation and clean-up, of whose replies at most the success is looked at. */
    method Silent(call: Call, n: nat) returns (ok: bool)
      requires Ready(n, Turn.Ask(call)) && Aside(call.spot)
      modifies this`history
      ensures Ready(n, Onward(world, call.spot, ok))
    {
      ghost var from := history;
      var r := Ask(call);
      NeverBlamed(world, call, r);
      StillAnswers(world, from, history, results);
      AheadOn(world, from, call, r, n, n);
      ok := r.success;
    }

    /** The diff of a named pull request, and its decline. */
    method Cross5(pr: Option<string>) returns (o: Outcome<()>)
      requires Ready(19, Turn.Ask(if pr.Some? then Call(XPrDiff, pr.value) else Call(XBranchDelete, world.crossBranch)))
      requires world.cross.Present?
      modifies this`history, this`results, file
      ensures o.Raised? ==> Stopped()
      ensures o.Done? ==> Ready(20, Turn.Ask(Call(XBranchDelete, world.crossBranch)))
    {
      if pr.None? {
        Skip(20, Pending, Turn.Ask(Call(XBranchDelete, world.crossBranch)));
      } else {
        var _ :- ReadDiff(XPrDiff, pr.value, 19);
        var _ := Silent(Call(XPrDecline, pr.value), 20);
      }
      return Done(());
    }

    /** Commit, pull request and diff, then the deletion of the branch. */
    method CrossChain() returns (o: Outcome<()>)
      requires Ready(18, Turn.Ask(Call(XCommit, world.crossBranch))) && world.cross.Present?
      modifies this`history, this`results, file
      ensures o.Raised? ==> Stopped()
      ensures o.Done? ==> Ready(20, LastTurn(world))
    {
      var _ := Silent(Call(XCommit, world.crossBranch), 18);
      var pr :- Cross4();
      var _ :- Cross5(pr);
      var _ := Silent(Call(XBranchDelete, world.crossBranch), 20);
      return Done(());
    }

    /** The cross-token suite. */
    method RunCross() returns (o: Outcome<()>)
      requires Ready(17, CrossTurn(world)) && world.published(BitbucketSuite)
      modifies this`history, this`results, file
      ensures o.Raised? ==> Stopped()
      ensures o.Done? ==> Ready(20, LastTurn(world))
    {
      if world.cross.Unreadable? {
        return Raised;
      }
      if world.cross.Missing? {
        Skip(20, NotApplicable, LastTurn(world));
        return Done(());
      }
      var _ :- Repository(XRepo, 17);
      var created := Silent(Call(XBranchCreate, world.crossBranch), 18);
      if created {
        var _ :- CrossChain();
      } else {
        Skip(20, Pending, LastTurn(world));
      }
      return Done(());
    }

    // ---- the whole run ------------------------------------------------------------------

    /** The suites of `main`, each followed by the writing of its evidence. */
    method RunSuites() returns (o: Outcome<()>)
      requires Ready(0, Turn.Ask(Call(JiraCreate, "")))
      modifies this`history, this`results, file
      ensures o.Raised? ==> Stopped()
      ensures o.Done? ==> Ready(20, End)
    {
      var _ :- RunJira();
      if !world.published(JiraSuite) {
        return Raised;
      }
      var _ :- RunConfluence();
      if !world.published(ConfluenceSuite) {
        return Raised;
      }
      var _ :- RunBitbucket();
      if !world.published(BitbucketSuite) {
        return Raised;
      }
      var _ :- RunCross();
      if !world.published(CrossSuite) {
        return Raised;
      }
      return Done(());
    }

    /** The number of failed entries. */
    method CountFailed() returns (failed: nat)
      ensures failed == |Failed(results)|
    {
      failed := 0;
      for i := 0 to |results|
        invariant failed == |Failed(results[..i])|
      {
        FailedGrows(results[..i], results[i]);
        assert results[..i + 1] == results[..i] + [results[i]];
        if results[i].verdict.Fail? {
          failed := failed + 1;
        }
      }
      assert results[..|results|] == results;
    }

    /**
     `main` and the exit status it ends in. The calls are the run that the protocol fixes for this world; every entry
     is the one those calls and replies call for, all twenty of them if nothing raised; the failed entries, and with
     them what happens to the log, are those the replies are to blame for; an uncaught exception and a failed entry
     both end in 1.
     */
    method RunAll() returns (exit: int)
      requires Ready(0, Turn.Ask(Call(JiraCreate, "")))
      modifies this`history, this`results, file
      ensures history == Play(world, Start)
      ensures Right(world, history, results) && (Next(world, history) == End ==> EntriesOf(world, history, results))
      ensures Failed(results) == Blame(world, history) && file.content == LogAfter(Hand(), start, Blame(world, history))
      ensures exit == if Next(world, history) == End && Blame(world, history) == [] then 0 else 1
    {
      var o := RunSuites();
      AwaitsMeans(world, history, if o.Raised? then Crash else End);
      TrackEnds(world, history);
      AnswersMeans(world, history, results);
      RecordedMeans(Hand(), start, results, file.content);
      if o.Raised? {
        return 1;
      }
      EntriesExactly(world, results);
      var failed := CountFailed();
      exit := if failed > 0 then 1 else 0;
    }
  }
}
