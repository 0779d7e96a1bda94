/** The verdicts of the test report: one per requirement, from the open issues and the evidence files. */
module Report {
  import opened Prelude
  import opened IssueLog

  datatype Verdict = Pass | ManualPending | Partial | Fail

  const REQUIREMENTS: seq<(string, string)> := [
    ("R1", "01-preflight.txt"), ("R2", "02-install.txt"), ("R3", "03-sync.txt"), ("R4", "04-workspace-env-keys.txt"),
    ("R5", "05-token-selection.json"), ("R6", "06-leakcheck.txt"), ("R7", "07-boot.txt"), ("R8", "08-wizard.txt"),
    ("R9", "09-stack.txt"), ("R10", "10-jira.json"), ("R11", "11-confluence.json"), ("R12", "12-bitbucket.json"),
    ("R13", "13-task.json"), ("R14", "14-jira-webhook.json"), ("R15", "15-bitbucket-webhook.json"),
    ("R16", "open-issues.json"), ("R17", "17-observability.json"), ("R18", "18-shutdown.txt"), ("R19", "19-teardown.txt")
  ]

  predicate Grave(i: Issue) {
    i.draft.severity in ["critical", "major"]
  }

  /** A grave open issue of this requirement. */
  ghost predicate Fails(issues: seq<Issue>, requirement: string) {
    exists i :: 0 <= i < |issues| && issues[i].draft.requirementId == requirement && Grave(issues[i])
  }

  ghost predicate OnlyMinor(issues: seq<Issue>, requirement: string) {
    && (exists i :: 0 <= i < |issues| && issues[i].draft.requirementId == requirement)
    && (forall i :: 0 <= i < |issues| && issues[i].draft.requirementId == requirement ==> issues[i].draft.severity == "minor")
  }

  /** `fail` for a grave issue, else `partial` for minor ones only, else by the evidence file. */
  method AggregateVerdict(requirement: string, issues: seq<Issue>, evidence: bool) returns (v: Verdict)
    ensures v == Fail <==> Fails(issues, requirement)
    ensures v == Partial <==> OnlyMinor(issues, requirement)
    ensures v in {ManualPending, Pass} ==> v == if evidence then Pass else ManualPending
  {
    var found, grave, allMinor := false, false, true;
    for i := 0 to |issues|
      invariant grave <==> Fails(issues[..i], requirement)
      invariant found <==> exists j :: 0 <= j < i && issues[j].draft.requirementId == requirement
      invariant allMinor <==> forall j :: 0 <= j < i && issues[j].draft.requirementId == requirement ==> issues[j].draft.severity == "minor"
    {
      assert issues[..i + 1] == issues[..i] + [issues[i]];
      if issues[i].draft.requirementId == requirement {
        found := true;
        if Grave(issues[i]) {
          grave := true;
        }
        if issues[i].draft.severity != "minor" {
          allMinor := false;
        }
      }
    }
    assert issues[..|issues|] == issues;
    if grave {
      return Fail;
    }
    if found && allMinor {
      return Partial;
    }
    return if evidence then Pass else ManualPending;
  }

  /** One verdict for each listed requirement, and no other: by its open issues first, then by its evidence file. */
  ghost predicate Verdicts(issues: seq<Issue>, present: string -> bool, verdicts: map<string, Verdict>) {
    && (forall k :: 0 <= k < |REQUIREMENTS| ==> Judges(issues, present, verdicts, REQUIREMENTS[k].0, REQUIREMENTS[k].1))
    && (forall id :: id in verdicts ==> Listed(id))
  }

  ghost predicate Judges(issues: seq<Issue>, present: string -> bool, verdicts: map<string, Verdict>, id: string, file: string) {
    && id in verdicts
    && (verdicts[id] == Fail <==> Fails(issues, id))
    && (verdicts[id] == Partial <==> OnlyMinor(issues, id))
    && (verdicts[id] == Pass <==> !Fails(issues, id) && !OnlyMinor(issues, id) && present(file))
    && (verdicts[id] == ManualPending <==> !Fails(issues, id) && !OnlyMinor(issues, id) && !present(file))
  }

  /** The verdict dictionary of `generate_report`; `present` says which evidence files are there. */
  method GenerateVerdicts(issues: seq<Issue>, present: string -> bool) returns (verdicts: map<string, Verdict>)
    ensures Verdicts(issues, present, verdicts)
  {
    verdicts := map[];
    for k := 0 to |REQUIREMENTS|
      invariant forall j :: 0 <= j < k ==> Judges(issues, present, verdicts, REQUIREMENTS[j].0, REQUIREMENTS[j].1)
      invariant forall id :: id in verdicts ==> exists j :: 0 <= j < k && REQUIREMENTS[j].0 == id
    {
      var (id, file) := REQUIREMENTS[k];
      var v := AggregateVerdict(id, issues, present(file));
      DistinctRequirements(k);
      verdicts := verdicts[id := v];
    }
  }

  /** The executive summary's fail test. */
  predicate NotReady(verdicts: map<string, Verdict>) {
    Fail in verdicts.Values
  }

  /** The summary warns exactly when some grave issue has an id the report lists. */
  lemma SummaryWarnsExactly(issues: seq<Issue>, present: string -> bool, verdicts: map<string, Verdict>)
    requires Verdicts(issues, present, verdicts)
    ensures NotReady(verdicts) <==> exists i :: 0 <= i < |issues| && Grave(issues[i]) && Listed(issues[i].draft.requirementId)
  {
    if NotReady(verdicts) {
      var id :| id in verdicts && verdicts[id] == Fail;
      var i :| 0 <= i < |issues| && issues[i].draft.requirementId == id && Grave(issues[i]);
      assert Listed(issues[i].draft.requirementId);
    }
    if i :| 0 <= i < |issues| && Grave(issues[i]) && Listed(issues[i].draft.requirementId) {
      assert verdicts[issues[i].draft.requirementId] == Fail;
    }
  }

  // ---- issues the log accepts and the report does not show --------------------------------

  /** The report has a verdict for this id. */
  ghost predicate Listed(id: string) {
    exists k :: 0 <= k < |REQUIREMENTS| && REQUIREMENTS[k].0 == id
  }

  /** Of the accepted ids: R20 to R23, and any with a line break behind it, which the pattern's end anchor lets through. */
  predicate Unseen(id: string) {
    (|id| == 3 && id[1] == '2') || (id != "" && id[|id| - 1] == '\n')
  }

  /** Among the ids the log accepts, the report lists exactly R1 to R19 without a line break. */
  lemma ListedExactly(id: string)
    requires MatchesRequirement(id)
    ensures Listed(id) <==> !Unseen(id)
  {
    if IsRequirement(id) && !Unseen(id) {
      var n := if |id| == 2 then id[1] as int - '0' as int else 10 * (id[1] as int - '0' as int) + (id[2] as int - '0' as int);
      assert 1 <= n <= 19;
      RequirementAt(n - 1);
      assert id == REQUIREMENTS[n - 1].0;
    }
    if Listed(id) {
      var k :| 0 <= k < |REQUIREMENTS| && REQUIREMENTS[k].0 == id;
      RequirementAt(k);
    }
  }

  function Digit(n: int): char
    requires 0 <= n < 10
  {
    '0' + n as char
  }

  lemma RequirementAt(k: nat)
    requires k < |REQUIREMENTS|
    ensures |REQUIREMENTS| == 19
    ensures var id, n := REQUIREMENTS[k].0, k + 1;
            id == if n < 10 then ['R', Digit(n)] else ['R', '1', Digit(n - 10)]
  {
  }

  lemma DistinctRequirements(k: nat)
    requires k < |REQUIREMENTS|
    ensures forall j :: 0 <= j < |REQUIREMENTS| && j != k ==> REQUIREMENTS[j].0 != REQUIREMENTS[k].0
  {
    forall j | 0 <= j < |REQUIREMENTS| && j != k ensures REQUIREMENTS[j].0 != REQUIREMENTS[k].0 {
      RequirementAt(j);
      RequirementAt(k);
    }
  }

  /** Every evidence file is numbered as its requirement, but R16's, which is the issue log itself. */
  lemma EvidenceIsNumbered(k: nat)
    requires k < |REQUIREMENTS|
    ensures var file, n := REQUIREMENTS[k].1, k + 1;
            if n == 16 then file == "open-issues.json"
            else file[..3] == (if n < 10 then ['0', Digit(n), '-'] else ['1', Digit(n - 10), '-'])
  {
  }

  /** The three requirements a smoke run looks after, and their files. */
  lemma SmokeFiles()
    ensures REQUIREMENTS[9] == ("R10", "10-jira.json") && REQUIREMENTS[10] == ("R11", "11-confluence.json")
    ensures REQUIREMENTS[11] == ("R12", "12-bitbucket.json")
  {
  }

  /** A grave issue the log accepts turns its own verdict to `fail` exactly when the report lists its id. */
  lemma GraveIssueShowsExactly(issues: seq<Issue>, present: string -> bool, i: nat, verdicts: map<string, Verdict>)
    requires i < |issues| && Validate(issues[i].draft) == None && Grave(issues[i]) && Verdicts(issues, present, verdicts)
    ensures var id := issues[i].draft.requirementId; (id in verdicts && verdicts[id] == Fail) <==> !Unseen(id)
  {
    ListedExactly(issues[i].draft.requirementId);
  }
}
