/** A smoke run followed by the report: what the exit code says about the verdicts. */
module SmokeVerdict {
  import opened Prelude
  import opened IssueLog
  import opened SmokeProtocol
  import opened SmokeRunner
  import Report

  /** One of the scenarios belongs to this requirement. */
  ghost predicate Touches(scenarios: seq<Scenario>, requirement: string) {
    exists k :: 0 <= k < |scenarios| && RequirementOf(scenarios[k]) == requirement
  }

  /** While the log survives, the report fails a requirement exactly when it failed before or one of the logged scenarios is its own. */
  lemma ReportFollowsLog(before: seq<Issue>, issues: seq<Issue>, failed: seq<Scenario>, requirement: string)
    requires Logged(before, issues, failed)
    ensures Report.Fails(issues, requirement) <==> Report.Fails(before, requirement) || Touches(failed, requirement)
  {
    forall k: nat | k < |failed|
      ensures issues[|before| + k].draft.requirementId == RequirementOf(failed[k]) && Report.Grave(issues[|before| + k])
    {
      assert SubjectOf(issues[|before| + k].draft) == Called(failed[k]);
    }
    if Report.Fails(issues, requirement) {
      var i :| 0 <= i < |issues| && issues[i].draft.requirementId == requirement && Report.Grave(issues[i]);
      if i < |before| {
        assert before[i] == issues[i];
      } else {
        assert RequirementOf(failed[i - |before|]) == issues[|before| + (i - |before|)].draft.requirementId;
      }
    }
    if Report.Fails(before, requirement) {
      var i :| 0 <= i < |before| && before[i].draft.requirementId == requirement && Report.Grave(before[i]);
      assert issues[i] == before[i];
    }
    if Touches(failed, requirement) {
      var k :| 0 <= k < |failed| && RequirementOf(failed[k]) == requirement;
      assert Report.Grave(issues[|before| + k]);
    }
  }

  ghost predicate SmokeFails(issues: seq<Issue>) {
    Report.Fails(issues, "R10") || Report.Fails(issues, "R11") || Report.Fails(issues, "R12")
  }

  /** Exactly what the report fails after a run: what it failed before or what failed now, if the log survived, and nothing otherwise. */
  lemma ReportFailsExactly(pen: Pen, start: Content, failed: seq<Scenario>)
    ensures SmokeFails(Visible(LogAfter(pen, start, failed))) <==>
              Legible(pen, start, failed) && (SmokeFails(start.value) || failed != [])
  {
    LogSurvivesExactly(pen, start, failed);
    if Legible(pen, start, failed) {
      var issues := LogAfter(pen, start, failed).value;
      ReportFollowsLog(start.value, issues, failed, "R10");
      ReportFollowsLog(start.value, issues, failed, "R11");
      ReportFollowsLog(start.value, issues, failed, "R12");
      if failed != [] { assert Touches(failed, RequirementOf(failed[0])); }
    }
  }

  ghost predicate ShowsFailure(verdicts: map<string, Report.Verdict>)
    requires {"R10", "R11", "R12"} <= verdicts.Keys
  {
    verdicts["R10"] == Report.Fail || verdicts["R11"] == Report.Fail || verdicts["R12"] == Report.Fail
  }

  lemma VerdictsShowFailures(issues: seq<Issue>, present: string -> bool, verdicts: map<string, Report.Verdict>)
    requires Report.Verdicts(issues, present, verdicts)
    ensures {"R10", "R11", "R12"} <= verdicts.Keys && (ShowsFailure(verdicts) <==> SmokeFails(issues))
  {
    assert forall k :: 9 <= k < 12 ==> Report.Judges(issues, present, verdicts, Report.REQUIREMENTS[k].0, Report.REQUIREMENTS[k].1);
    assert Report.REQUIREMENTS[9].0 == "R10" && Report.REQUIREMENTS[10].0 == "R11" && Report.REQUIREMENTS[11].0 == "R12";
  }

  /**
   A run and then the report, on the same log, for every gateway and every log. The log becomes what the blamed
   scenarios make of it, and keeps its old issues exactly when it is legible. From a log without failing R10 to R12
   the report fails one of them exactly when something is blamed and the log survives that; so the exit code says the
   same as the report if and only if the run ended regularly with nothing to blame, or with a legible log had something to blame.
   */
  method SmokeThenReport(world: World, file: IssueFile, wording: Scenario -> string, present: string -> bool)
    returns (exit: int, verdicts: map<string, Report.Verdict>)
    modifies file
    ensures var h, pen := Play(world, Start), Pen(file.encodable, wording);
            && exit == (if Next(world, h) == End && Blame(world, h) == [] then 0 else 1)
            && file.content == LogAfter(pen, old(file.content), Blame(world, h))
            && (file.content.Some? <==> Legible(pen, old(file.content), Blame(world, h)))
            && (file.content.Some? ==> Logged(old(file.content).value, file.content.value, Blame(world, h)))
    ensures {"R10", "R11", "R12"} <= verdicts.Keys && (file.content.None? ==> !ShowsFailure(verdicts))
    ensures !old(SmokeFails(Visible(file.content))) ==>
              (ShowsFailure(verdicts) <==> file.content.Some? && Blame(world, Play(world, Start)) != [])
    ensures !old(SmokeFails(Visible(file.content))) ==>
              ((exit == 1 <==> ShowsFailure(verdicts)) <==>
               if Blame(world, Play(world, Start)) == [] then Next(world, Play(world, Start)) == End else file.content.Some?)
  {
    ghost var pen, start, blame := Pen(file.encodable, wording), file.content, Blame(world, Play(world, Start));
    var runner := new Runner(world, file, wording);
    exit := runner.RunAll();
    LogSurvivesExactly(pen, start, blame);
    ReportFailsExactly(pen, start, blame);
    verdicts := Report.GenerateVerdicts(Visible(file.content), present);
    VerdictsShowFailures(Visible(file.content), present, verdicts);
  }

  /** A first reply with a key that is no text: exit code 1, an untouched log, and no failing verdict to show for it. */
  method NonTextKeyIsSilent(world: World, file: IssueFile, wording: Scenario -> string, present: string -> bool)
    returns (exit: int, verdicts: map<string, Report.Verdict>)
    requires var r := world.reply(Start, Call(JiraCreate, "")); r.success && !r.field(Key).Str?
    modifies file
    ensures exit == 1 && file.content == old(file.content) && {"R10", "R11", "R12"} <= verdicts.Keys
    ensures !old(SmokeFails(Visible(file.content))) ==> !ShowsFailure(verdicts)
  {
    NonTextKeyEndsTheRun(world);
    exit, verdicts := SmokeThenReport(world, file, wording, present);
  }

  /** A text key the log cannot encode: the run goes on, but every old issue is lost and the report shows no failure. */
  method UnencodableKeyLosesTheLog(world: World, file: IssueFile, wording: Scenario -> string, present: string -> bool)
    returns (exit: int, verdicts: map<string, Report.Verdict>)
    requires var r := world.reply(Start, Call(JiraCreate, "")); r.success && r.field(Key).Str? && !world.isIssueKey(r.field(Key).s)
    requires !file.encodable(DraftOf(Jira(1), wording(Jira(1))))
    modifies file
    ensures exit == 1 && file.content.None? && {"R10", "R11", "R12"} <= verdicts.Keys && !ShowsFailure(verdicts)
  {
    var first := world.Then(Start, Call(JiraCreate, ""));
    ghost var blame := Blame(world, Play(world, Start));
    assert Blame(world, first.past) == [] && Blame(world, first) == [Jira(1)];
    assert Legal(world, first);
    LegalIsOnTheWay(world, first);
    BlameStays(world, first);
    assert blame[0] == Jira(1);
    assert !Writes(Pen(file.encodable, wording))(blame[0]);
    exit, verdicts := SmokeThenReport(world, file, wording, present);
  }
}
