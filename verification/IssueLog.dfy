/** The open-issue file that all harness scripts append to, by writing all of it again. */
module IssueLog {
  import opened Prelude
  import Text

  const SEVERITIES := ["critical", "major", "minor"]
  const CATEGORIES := ["config", "code", "doc", "infra", "integration"]
  const ACTIONS := ["manual_fix", "code_change_required", "config_change", "doc_update", "upstream_atlassian_issue"]
  const EVIDENCE_PREFIX := "vps-test-evidence/"
  const MAX_SUMMARY: nat := 160

  datatype Draft = Draft(
    requirementId: string, scenarioId: Option<string>, severity: string, category: string,
    summary: string, evidencePath: string, recommendedAction: string
  )

  datatype Issue = Issue(id: int, draft: Draft, loggedAt: string)

  datatype LogError =
    | BadRequirement | BadSeverity | BadCategory | BadSummary | BadEvidence | BadAction
    | Unreadable | Unwritten

  /** R1 to R23. */
  predicate IsRequirement(s: string) {
    || (|s| == 2 && s[0] == 'R' && '1' <= s[1] <= '9')
    || (|s| == 3 && s[0] == 'R' && ((s[1] == '1' && '0' <= s[2] <= '9') || (s[1] == '2' && '0' <= s[2] <= '3')))
  }

  /** The pattern's end anchor also matches before a final line break. */
  predicate MatchesRequirement(s: string) {
    IsRequirement(s) || (s != "" && s[|s| - 1] == '\n' && IsRequirement(s[..|s| - 1]))
  }

  predicate ValidSummary(s: string) {
    |s| <= MAX_SUMMARY && Text.Strip(s) != ""
  }

  /** The six validators, in the order they run. */
  function Validate(d: Draft): Option<LogError> {
    if !MatchesRequirement(d.requirementId) then Some(BadRequirement)
    else if d.severity !in SEVERITIES then Some(BadSeverity)
    else if d.category !in CATEGORIES then Some(BadCategory)
    else if !ValidSummary(d.summary) then Some(BadSummary)
    else if !(EVIDENCE_PREFIX <= d.evidencePath) then Some(BadEvidence)
    else if d.recommendedAction !in ACTIONS then Some(BadAction)
    else None
  }

  ghost predicate Numbered(s: string, n: nat) {
    s == if n < 10 then ['R', '0' + n as char] else if n < 30 then ['R', '0' + (n / 10) as char, '0' + (n % 10) as char] else []
  }

  /** The accepted ids: R and a number from 1 to 23, and the same before a line break. */
  lemma AcceptedIds(s: string)
    ensures IsRequirement(s) <==> exists n: nat :: 1 <= n <= 23 && Numbered(s, n)
    ensures MatchesRequirement(s) <==> IsRequirement(s) || exists t :: IsRequirement(t) && s == t + "\n"
  {
    if IsRequirement(s) {
      var n: nat := if |s| == 2 then s[1] as int - '0' as int else 10 * (s[1] as int - '0' as int) + (s[2] as int - '0' as int);
      assert Numbered(s, n);
    }
    if s != "" && s[|s| - 1] == '\n' { assert s == s[..|s| - 1] + "\n"; }
    if t :| IsRequirement(t) && s == t + "\n" { assert s[..|s| - 1] == t; }
  }

  ghost predicate Known(d: Draft, upTo: nat) {
    && (upTo > 0 ==> MatchesRequirement(d.requirementId))
    && (upTo > 1 ==> d.severity in {"critical", "major", "minor"})
    && (upTo > 2 ==> d.category in {"config", "code", "doc", "infra", "integration"})
    && (upTo > 3 ==> |d.summary| <= 160 && exists i :: 0 <= i < |d.summary| && !Text.IsSpace(d.summary[i]))
    && (upTo > 4 ==> |d.evidencePath| >= 18 && d.evidencePath[..18] == "vps-test-evidence/")
    && (upTo > 5 ==> d.recommendedAction in {"manual_fix", "code_change_required", "config_change", "doc_update", "upstream_atlassian_issue"})
  }

  /** The first of the six conditions that a draft misses names the error. */
  lemma ValidatesInOrder(d: Draft)
    ensures Validate(d) == Some(BadRequirement) <==> !Known(d, 1)
    ensures Validate(d) == Some(BadSeverity) <==> Known(d, 1) && !Known(d, 2)
    ensures Validate(d) == Some(BadCategory) <==> Known(d, 2) && !Known(d, 3)
    ensures Validate(d) == Some(BadSummary) <==> Known(d, 3) && !Known(d, 4)
    ensures Validate(d) == Some(BadEvidence) <==> Known(d, 4) && !Known(d, 5)
    ensures Validate(d) == Some(BadAction) <==> Known(d, 5) && !Known(d, 6)
    ensures Validate(d) == None <==> Known(d, 6)
  {
    Text.StripBlank(d.summary);
  }

  /** Ids grow from entry to entry. */
  ghost predicate Increasing(issues: seq<Issue>) {
    forall i, j :: 0 <= i < j < |issues| ==> issues[i].id < issues[j].id
  }

  /** What the file holds; none once a write has broken off and left something that cannot be parsed. */
  type Content = Option<seq<Issue>>

  /** What a reader sees who takes a file that cannot be parsed for an empty one, as the report does. */
  function Visible(c: Content): seq<Issue> {
    if c.Some? then c.value else []
  }

  predicate AllEncodable(encodable: Draft -> bool, issues: seq<Issue>) {
    forall i :: 0 <= i < |issues| ==> encodable(issues[i].draft)
  }

  lemma EncodableGrows(encodable: Draft -> bool, issues: seq<Issue>, issue: Issue)
    ensures AllEncodable(encodable, issues + [issue]) <==> AllEncodable(encodable, issues) && encodable(issue.draft)
  {
    var longer := issues + [issue];
    assert longer[|issues|] == issue && forall i :: 0 <= i < |issues| ==> longer[i] == issues[i];
  }

  ghost function Highest(issues: seq<Issue>): int
    requires issues != []
  {
    var last := |issues| - 1;
    if last == 0 then issues[0].id
    else if issues[last].id > Highest(issues[..last]) then issues[last].id else Highest(issues[..last])
  }

  /** One more than the largest id, starting from 1. */
  ghost function NewId(issues: seq<Issue>): int {
    if issues == [] then 1 else Highest(issues) + 1
  }

  /** The new id is one more than the id of some issue of the file, and 1 in an empty file. */
  lemma {:induction false} NewIdIsNext(issues: seq<Issue>)
    ensures if issues == [] then NewId(issues) == 1 else exists i :: 0 <= i < |issues| && NewId(issues) == issues[i].id + 1
  {
    if issues != [] {
      var last := |issues| - 1;
      if last > 0 && issues[last].id <= Highest(issues[..last]) {
        NewIdIsNext(issues[..last]);
        var i :| 0 <= i < last && NewId(issues[..last]) == issues[..last][i].id + 1;
        assert NewId(issues) == issues[i].id + 1;
      } else {
        assert NewId(issues) == issues[last].id + 1;
      }
    }
  }

  lemma {:induction false} NewIdIsLarger(issues: seq<Issue>, i: nat)
    requires i < |issues|
    ensures issues[i].id < NewId(issues)
  {
    var last := |issues| - 1;
    if i < last { NewIdIsLarger(issues[..last], i); }
  }

  /** The file after a valid draft: all of it is written again, and a text that cannot be encoded breaks the write off. */
  ghost function Appended(encodable: Draft -> bool, c: Content, d: Draft, now: string): Content {
    if c.Some? && AllEncodable(encodable, c.value) && encodable(d) then Some(c.value + [Issue(NewId(c.value), d, now)]) else None
  }

  /** A draft that can be written goes behind the old issues under a larger id. */
  lemma AppendedKeepsTheLog(encodable: Draft -> bool, c: Content, d: Draft, now: string)
    requires Appended(encodable, c, d, now).Some?
    ensures var after := Appended(encodable, c, d, now).value;
            && after == c.value + [Issue(NewId(c.value), d, now)] && c.value <= after && AllEncodable(encodable, after)
            && (forall i :: 0 <= i < |c.value| ==> c.value[i].id < after[|c.value|].id)
            && (Increasing(c.value) ==> Increasing(after))
  {
    forall i | 0 <= i < |c.value| ensures c.value[i].id < NewId(c.value) { NewIdIsLarger(c.value, i); }
  }

  /** The write goes through exactly when the file can be read and every text in it, the new one too, can be encoded. */
  lemma WrittenExactly(encodable: Draft -> bool, c: Content, d: Draft, now: string)
    ensures Appended(encodable, c, d, now).Some? <==>
              c.Some? && encodable(d) && forall i :: 0 <= i < |c.value| ==> encodable(c.value[i].draft)
  {
  }

  class IssueFile {
    /** The issues whose texts the file's encoding can write. */
    const encodable: Draft -> bool
    var content: Content

    constructor (content: Content, encodable: Draft -> bool)
      ensures this.content == content && this.encodable == encodable
    {
      this.content, this.encodable := content, encodable;
    }

    /** An invalid draft and an unreadable file leave the file alone; a write that breaks off loses all of it. */
    method LogOpenIssue(d: Draft, now: string) returns (r: Result<int, LogError>)
      modifies this
      ensures Validate(d).Some? ==> r == Err(Validate(d).value) && content == old(content)
      ensures Validate(d).None? ==> content == Appended(encodable, old(content), d, now)
      ensures Validate(d).None? && content.Some? ==> r == Ok(NewId(old(content).value))
      ensures Validate(d).None? && content.None? ==> r == Err(if old(content).None? then Unreadable else Unwritten)
    {
      var invalid := Validate(d);
      if invalid.Some? {
        return Err(invalid.value);
      }
      if content.None? {
        return Err(Unreadable);
      }
      var next := NextId(content.value);
      var issues := content.value + [Issue(next, d, now)];
      EncodableGrows(encodable, content.value, issues[|issues| - 1]);
      if !AllEncodable(encodable, issues) {
        content := None;
        return Err(Unwritten);
      }
      content := Some(issues);
      return Ok(next);
    }
  }

  method NextId(issues: seq<Issue>) returns (next: int)
    ensures next == NewId(issues)
  {
    if issues == [] {
      return 1;
    }
    var largest := issues[0].id;
    for i := 1 to |issues|
      invariant largest == Highest(issues[..i])
    {
      assert issues[..i + 1][..i] == issues[..i];
      if issues[i].id > largest {
        largest := issues[i].id;
      }
    }
    assert issues[..|issues|] == issues;
    next := largest + 1;
  }

  /** A text that starts with a visible character is a valid summary once it is cut to the limit. */
  lemma CutSummaryIsValid(s: string)
    requires s != "" && !Text.IsSpace(s[0])
    ensures ValidSummary(if |s| > MAX_SUMMARY then s[..MAX_SUMMARY] else s)
  {
    Text.StripBlank(if |s| > MAX_SUMMARY then s[..MAX_SUMMARY] else s);
  }
}
