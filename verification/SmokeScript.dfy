/**
 The script of the smoke run, spot by spot: which calls a finished run has made, and about what, said by the replies
 it got and by its surroundings alone, without the order in which the script decides them.
 */
module SmokeScript {
  import opened Prelude
  import opened SmokeProtocol
  import Text

  ghost function TargetAt(h: History, spot: Spot): Option<string> {
    if h.Start? then None else if h.call.spot == spot then Some(h.call.target) else TargetAt(h.past, spot)
  }

  ghost predicate Succeeded(h: History, spot: Spot) {
    ReplyAt(h, spot).Some? && ReplyAt(h, spot).value.success
  }

  ghost predicate Failed(h: History, spot: Spot) {
    ReplyAt(h, spot).Some? && !ReplyAt(h, spot).value.success
  }

  /** The issue, the page and the two pull requests a run has made, if the creating reply named them. */
  ghost function Issue(w: World, h: History): Option<string> {
    var r := ReplyAt(h, JiraCreate);
    if r.Some? && r.value.success && r.value.field(Key).Str? && w.isIssueKey(r.value.field(Key).s) then Some(r.value.field(Key).s) else None
  }

  ghost function Page(h: History): Option<string> {
    if ReplyAt(h, PageCreate).Some? then ReplyAt(h, PageCreate).value.Named(Id, PageId) else None
  }

  ghost function PullRequest(h: History, spot: Spot): Option<string> {
    if ReplyAt(h, spot).Some? then ReplyAt(h, spot).value.Named(Id, PrId) else None
  }

  /** The key the space listing found, or else the configured one. */
  ghost function Space(w: World, h: History): string {
    var r := ReplyAt(h, Spaces);
    if r.Some? && r.value.success && r.value.field(SpaceKey).Str? && r.value.field(SpaceKey).s != "" then r.value.field(SpaceKey).s
    else w.defaultSpace
  }

  /** A reply names what it made by its first field that says something, and not at all if reading the first raises. */
  lemma NamedExactly(r: Response, f: Field, g: Field, s: string)
    ensures r.Named(f, g) == Some(s) <==>
              && r.success && !r.field(f).Raises?
              && (if Truthy(r.field(f)) then s == Shown(r.field(f)) else Truthy(r.field(g)) && s == Shown(r.field(g)))
  {
  }

  /** Which values say something, and what `str` makes of them. */
  lemma TruthByKind(s: string, t: bool, u: bool, members: set<string>, shown: string)
    ensures (Truthy(Str(s)) <==> s != "") && (Truthy(Number(t, u, shown)) <==> t)
    ensures (Truthy(List(members, t, shown)) <==> t) && (Truthy(Object(members, t, shown)) <==> t) && !Truthy(Null) && !Truthy(Value.Raises)
    ensures Shown(Str(s)) == s && Shown(Number(t, u, shown)) == shown
  {
  }

  /** What a diff must hold to mention a path: a part, an element or a key; an empty value and a number mention nothing. */
  lemma MentionsByKind(path: string, s: string, t: bool, u: bool, members: set<string>, shown: string)
    ensures Mentions(Str(s), path) <==> exists i: nat :: Text.OccursAt(s, path, i)
    ensures Mentions(List(members, t, shown), path) <==> t && path in members
    ensures Mentions(Object(members, t, shown), path) <==> t && path in members
    ensures !Mentions(Number(t, u, shown), path) && !Mentions(Null, path)
  {
    Text.ContainsMeans(s, path);
  }

  ghost function When(wanted: bool, target: Option<string>): Option<string> {
    if wanted then target else None
  }

  /** What a finished run has asked at this spot, and none where it has asked nothing. */
  ghost function Wanted(w: World, h: History, spot: Spot): Option<string> {
    match spot
    case JiraCreate => Some("")
    case JiraSearch => Issue(w, h)
    case JiraComment => Issue(w, h)
    case JiraTransition => Issue(w, h)
    case JiraLook => When(Succeeded(h, JiraTransition), Issue(w, h))
    case JiraDelete => Issue(w, h)
    case JiraRecheck => When(Succeeded(h, JiraDelete), Issue(w, h))
    case Spaces => When(0 in w.spaceTools || 1 in w.spaceTools || 2 in w.spaceTools, Some(""))
    case PageCreate => When(PageCreate !in w.banned, Some(Space(w, h)))
    case PageUpdate => When(PageUpdate !in w.banned, Page(h))
    case PageLook => When(Succeeded(h, PageUpdate), Page(h))
    case PageDelete => When(PageDelete !in w.banned, Page(h))
    case PageRecheck => When(Succeeded(h, PageDelete), Page(h))
    case Repo => When(w.bitbucket == Present, Some(""))
    case BranchCreate => When(w.bitbucket == Present, Some(w.branch))
    case Commit => When(Succeeded(h, BranchCreate), Some(w.branch))
    case PrCreate => When(Succeeded(h, BranchCreate), Some(w.branch))
    case PrDiff => PullRequest(h, PrCreate)
    case PrComment => PullRequest(h, PrCreate)
    case PrDecline => PullRequest(h, PrCreate)
    case PrLook => When(Succeeded(h, PrDecline), PullRequest(h, PrCreate))
    case BranchDelete => When(Succeeded(h, BranchCreate), Some(w.branch))
    case BranchList => When(Succeeded(h, BranchDelete), Some(w.branch))
    case RefDelete => When(Failed(h, BranchDelete), Some(w.branch))
    case XRepo => When(w.cross == Present, Some(""))
    case XBranchCreate => When(w.cross == Present, Some(w.crossBranch))
    case XCommit => When(Succeeded(h, XBranchCreate), Some(w.crossBranch))
    case XPrCreate => When(Succeeded(h, XBranchCreate), Some(w.crossBranch))
    case XPrDiff => PullRequest(h, XPrCreate)
    case XPrDecline => PullRequest(h, XPrCreate)
    case XBranchDelete => When(Succeeded(h, XBranchCreate), Some(w.crossBranch))
  }

  /** Up to the latest call everything has been asked that is wanted, and behind it nothing. */
  ghost predicate Settled(w: World, h: History, spot: Spot) {
    && (Place(spot) <= PlaceOf(h) ==> TargetAt(h, spot) == Wanted(w, h, spot))
    && (Place(spot) > PlaceOf(h) ==> TargetAt(h, spot).None?)
    && (ReplyAt(h, spot).Some? <==> TargetAt(h, spot).Some?)
  }

  ghost predicate AllSettled(w: World, h: History) {
    forall spot :: Settled(w, h, spot)
  }

  /** No two spots share a place. */
  lemma PlacesDiffer(a: Spot, b: Spot)
    requires Place(a) == Place(b)
    ensures a == b
  {
  }

  lemma WantedStaysEarly(w: World, h: History, c: Call, r: Response, spot: Spot)
    requires Place(spot) <= Place(c.spot) && Place(spot) <= 13
    ensures Wanted(w, After(h, c, r), spot) == Wanted(w, h, spot)
  {
  }

  lemma WantedStaysLate(w: World, h: History, c: Call, r: Response, spot: Spot)
    requires Place(spot) <= Place(c.spot) && Place(spot) >= 14
    ensures Wanted(w, After(h, c, r), spot) == Wanted(w, h, spot)
  {
  }

  /** What is wanted at a spot depends on replies at earlier spots only. */
  lemma WantedStays(w: World, h: History, c: Call, r: Response, spot: Spot)
    requires Place(spot) <= Place(c.spot)
    ensures Wanted(w, After(h, c, r), spot) == Wanted(w, h, spot)
  {
    if Place(spot) <= 13 { WantedStaysEarly(w, h, c, r, spot); } else { WantedStaysLate(w, h, c, r, spot); }
  }

  /** The replies that later decisions of these suites rest on have not come yet. */
  ghost predicate BitbucketAhead(h: History) {
    ReplyAt(h, BranchCreate).None? && ReplyAt(h, PrCreate).None? && ReplyAt(h, PrDecline).None? && ReplyAt(h, BranchDelete).None?
  }

  ghost predicate CrossAhead(h: History) {
    ReplyAt(h, XBranchCreate).None? && ReplyAt(h, XPrCreate).None?
  }

  ghost predicate ConfluenceAhead(h: History) {
    ReplyAt(h, Spaces).None? && ReplyAt(h, PageCreate).None? && ReplyAt(h, PageUpdate).None? && ReplyAt(h, PageDelete).None?
  }

  ghost predicate SettledAtLast(w: World, h: History) {
    h.After? ==> Settled(w, h, h.call.spot)
  }

  /** This turn asks what is wanted at the spot, or does not ask there what is not wanted. */
  ghost predicate Fits(w: World, h: History, t: Turn, spot: Spot) {
    && (t.Ask? && t.call.spot == spot ==> Wanted(w, h, spot) == Some(t.call.target))
    && (!t.Crash? && (t.Ask? ==> Place(spot) < Place(t.call.spot)) ==> Wanted(w, h, spot) == None)
  }

  ghost predicate Continues(w: World, h: History, spot: Spot) {
    Place(spot) > PlaceOf(h) ==> Fits(w, h, Next(w, h), spot)
  }

  lemma CrossFits(w: World, h: History, spot: Spot)
    requires CrossAhead(h) && Place(spot) >= 25
    ensures Fits(w, h, CrossTurn(w), spot)
  {
  }

  lemma TurnsByPlace(w: World)
    ensures ConfTurn(w) in {BbTurn(w), Crash} || (ConfTurn(w).Ask? && Place(ConfTurn(w).call.spot) < 14)
    ensures BbTurn(w) in {CrossTurn(w), Crash} || (BbTurn(w).Ask? && Place(BbTurn(w).call.spot) < 25)
  {
  }

  lemma RepositoryFits(w: World, h: History, spot: Spot)
    requires BitbucketAhead(h) && 14 <= Place(spot) < 25
    ensures Fits(w, h, BbTurn(w), spot)
  {
  }

  lemma BitbucketFits(w: World, h: History, spot: Spot)
    requires BitbucketAhead(h) && CrossAhead(h) && Place(spot) >= 14
    ensures Fits(w, h, BbTurn(w), spot)
  {
    if Place(spot) < 25 {
      RepositoryFits(w, h, spot);
    } else {
      CrossFits(w, h, spot);
      TurnsByPlace(w);
    }
  }

  lemma PageFits(w: World, h: History, spot: Spot)
    requires ConfluenceAhead(h) && 8 <= Place(spot) < 14
    ensures Fits(w, h, ConfTurn(w), spot)
  {
  }

  lemma ConfluenceFits(w: World, h: History, spot: Spot)
    requires ConfluenceAhead(h) && BitbucketAhead(h) && CrossAhead(h) && Place(spot) >= 8
    ensures Fits(w, h, ConfTurn(w), spot)
  {
    if Place(spot) < 14 {
      PageFits(w, h, spot);
    } else {
      BitbucketFits(w, h, spot);
      TurnsByPlace(w);
    }
  }

  lemma NextAfterJira(w: World, h: History)
    requires PlaceOf(h) <= 7
    ensures Next(w, h) in {ConfTurn(w), Crash} || (Next(w, h).Ask? && Place(Next(w, h).call.spot) < 8)
  {
  }

  lemma NextAfterConfluence(w: World, h: History)
    requires 8 <= PlaceOf(h) <= 13
    ensures Next(w, h) in {BbTurn(w), Crash} || (Next(w, h).Ask? && Place(Next(w, h).call.spot) < 14)
  {
  }

  lemma NextAfterBitbucket(w: World, h: History)
    requires 14 <= PlaceOf(h) <= 24
    ensures Next(w, h) in {CrossTurn(w), Crash} || (Next(w, h).Ask? && Place(Next(w, h).call.spot) < 25)
  {
  }

  lemma WithinJira(w: World, h: History, spot: Spot)
    requires PlaceOf(h) <= 7 && SettledAtLast(w, h) && Place(spot) < 8
    requires Settled(w, h, JiraCreate) && Settled(w, h, JiraTransition) && Settled(w, h, JiraDelete)
    ensures Continues(w, h, spot)
  {
  }

  lemma WithinConfluence(w: World, h: History, spot: Spot)
    requires 8 <= PlaceOf(h) <= 13 && SettledAtLast(w, h) && Place(spot) < 14
    requires Settled(w, h, PageCreate) && Settled(w, h, PageUpdate) && Settled(w, h, PageDelete)
    ensures Continues(w, h, spot)
  {
  }

  /** Behind the creation of the branch it was a success, and between the calls on a pull request they are all about that one. */
  ghost predicate OnBranch(h: History) {
    && (16 <= PlaceOf(h) <= 24 ==> Succeeded(h, BranchCreate))
    && (18 <= PlaceOf(h) <= 21 ==> PullRequest(h, PrCreate) == Some(h.call.target))
  }

  lemma KnowsItsBranch(w: World, h: History)
    requires AllSettled(w, h) && 14 <= PlaceOf(h) <= 24
    ensures OnBranch(h)
  {
    assert Settled(w, h, h.call.spot) && Settled(w, h, BranchCreate) && Settled(w, h, PrCreate);
    if h.call.spot == RefDelete || h.call.spot == BranchList { assert Settled(w, h, BranchDelete); }
  }

  lemma WithinBranch(w: World, h: History, spot: Spot)
    requires 14 <= PlaceOf(h) <= 16 && OnBranch(h) && Place(spot) < 25
    requires PlaceOf(h) == 14 ==> w.bitbucket == Present && ReplyAt(h, BranchCreate).None?
    requires ReplyAt(h, PrCreate).None? && ReplyAt(h, PrDecline).None? && ReplyAt(h, BranchDelete).None?
    ensures Continues(w, h, spot)
  {
  }

  lemma WithinPullRequest(w: World, h: History, spot: Spot)
    requires 17 <= PlaceOf(h) <= 18 && OnBranch(h) && Place(spot) < 25
    requires ReplyAt(h, PrDecline).None? && ReplyAt(h, BranchDelete).None?
    ensures Continues(w, h, spot)
  {
  }

  lemma WithinDecline(w: World, h: History, spot: Spot)
    requires 19 <= PlaceOf(h) <= 21 && OnBranch(h) && Place(spot) < 25
    requires ReplyAt(h, BranchDelete).None? && (PlaceOf(h) == 19 ==> ReplyAt(h, PrDecline).None?)
    ensures Continues(w, h, spot)
  {
  }

  lemma WithinBranchEnd(w: World, h: History, spot: Spot)
    requires 22 <= PlaceOf(h) <= 24 && OnBranch(h) && Place(spot) < 25
    requires PlaceOf(h) == 22 ==> h.call.target == w.branch
    requires PlaceOf(h) == 23 ==> !Failed(h, BranchDelete)
    ensures Continues(w, h, spot)
  {
  }

  lemma OnWithBranch(w: World, h: History, spot: Spot)
    requires AllSettled(w, h) && 14 <= PlaceOf(h) <= 18 && Place(spot) < 25
    ensures Continues(w, h, spot)
  {
    KnowsItsBranch(w, h);
    NotYet(w, h, PrDecline);
    NotYet(w, h, BranchDelete);
    if PlaceOf(h) <= 16 { NotYet(w, h, PrCreate); }
    if PlaceOf(h) == 14 { NotYet(w, h, BranchCreate); }
    assert Settled(w, h, h.call.spot);
    if PlaceOf(h) <= 16 { WithinBranch(w, h, spot); } else { WithinPullRequest(w, h, spot); }
  }

  lemma OnWithBranchEnd(w: World, h: History, spot: Spot)
    requires AllSettled(w, h) && 19 <= PlaceOf(h) <= 24 && Place(spot) < 25
    ensures Continues(w, h, spot)
  {
    KnowsItsBranch(w, h);
    if PlaceOf(h) == 19 { NotYet(w, h, PrDecline); }
    if PlaceOf(h) <= 21 { NotYet(w, h, BranchDelete); }
    assert Settled(w, h, h.call.spot);
    if PlaceOf(h) <= 21 { WithinDecline(w, h, spot); } else { WithinBranchEnd(w, h, spot); }
  }

  lemma WithinCross(w: World, h: History, spot: Spot)
    requires 25 <= PlaceOf(h) && SettledAtLast(w, h) && Settled(w, h, XBranchCreate) && Settled(w, h, XPrCreate)
    ensures Continues(w, h, spot)
  {
  }

  lemma ContinuesJira(w: World, h: History, spot: Spot)
    requires AllSettled(w, h) && PlaceOf(h) <= 7
    ensures Continues(w, h, spot)
  {
    assert SettledAtLast(w, h) && Settled(w, h, JiraCreate) && Settled(w, h, JiraTransition) && Settled(w, h, JiraDelete);
    if Place(spot) < 8 {
      WithinJira(w, h, spot);
    } else {
      NothingAhead(w, h);
      ConfluenceFits(w, h, spot);
      NextAfterJira(w, h);
    }
  }

  lemma ContinuesConfluence(w: World, h: History, spot: Spot)
    requires AllSettled(w, h) && 8 <= PlaceOf(h) <= 13
    ensures Continues(w, h, spot)
  {
    assert SettledAtLast(w, h) && Settled(w, h, PageCreate) && Settled(w, h, PageUpdate) && Settled(w, h, PageDelete);
    if Place(spot) < 14 {
      WithinConfluence(w, h, spot);
    } else {
      NothingAhead(w, h);
      BitbucketFits(w, h, spot);
      NextAfterConfluence(w, h);
    }
  }

  lemma ContinuesBitbucket(w: World, h: History, spot: Spot)
    requires AllSettled(w, h) && 14 <= PlaceOf(h) <= 24
    ensures Continues(w, h, spot)
  {
    if Place(spot) < 25 {
      if PlaceOf(h) <= 18 { OnWithBranch(w, h, spot); } else { OnWithBranchEnd(w, h, spot); }
    } else {
      NothingAhead(w, h);
      CrossFits(w, h, spot);
      NextAfterBitbucket(w, h);
    }
  }

  lemma NothingAhead(w: World, h: History)
    requires AllSettled(w, h)
    ensures PlaceOf(h) <= 7 ==> ConfluenceAhead(h)
    ensures PlaceOf(h) <= 13 ==> BitbucketAhead(h)
    ensures PlaceOf(h) <= 24 ==> CrossAhead(h)
  {
    forall spot | Place(spot) > PlaceOf(h) ensures ReplyAt(h, spot).None? { NotYet(w, h, spot); }
  }

  lemma NotYet(w: World, h: History, spot: Spot)
    requires AllSettled(w, h) && Place(spot) > PlaceOf(h)
    ensures ReplyAt(h, spot).None?
  {
    assert Settled(w, h, spot);
  }

  /** The next call is the wanted one, and nothing wanted is passed over. */
  lemma ContinuesEverywhere(w: World, h: History, spot: Spot)
    requires AllSettled(w, h)
    ensures Continues(w, h, spot)
  {
    if PlaceOf(h) <= 7 {
      ContinuesJira(w, h, spot);
    } else if PlaceOf(h) <= 13 {
      ContinuesConfluence(w, h, spot);
    } else if PlaceOf(h) <= 24 {
      ContinuesBitbucket(w, h, spot);
    } else {
      assert Settled(w, h, XBranchCreate) && Settled(w, h, XPrCreate) && SettledAtLast(w, h);
      WithinCross(w, h, spot);
    }
  }

  lemma SettledStep(w: World, h: History, c: Call, r: Response, spot: Spot)
    requires Next(w, h) == Ask(c) && Settled(w, h, spot) && Continues(w, h, spot)
    ensures Settled(w, After(h, c, r), spot)
  {
    NextRises(w, h);
    if Place(spot) <= Place(c.spot) { WantedStays(w, h, c, r, spot); }
    if Place(spot) == Place(c.spot) { PlacesDiffer(spot, c.spot); }
  }

  /** Along every run, exactly what is wanted has been asked. */
  lemma {:induction false} LegalIsSettled(w: World, h: History)
    requires Legal(w, h)
    ensures AllSettled(w, h)
  {
    if h.After? {
      LegalIsSettled(w, h.past);
      forall spot ensures Settled(w, h, spot) {
        ContinuesEverywhere(w, h.past, spot);
        SettledStep(w, h.past, h.call, h.reply, spot);
      }
    } else {
      forall spot ensures Settled(w, h, spot) {}
    }
  }

  /** A run that ends regularly has made exactly the wanted calls, each about what it is wanted for. */
  lemma CallsExactly(w: World, spot: Spot)
    requires Next(w, Play(w, Start)) == End
    ensures TargetAt(Play(w, Start), spot) == Wanted(w, Play(w, Start), spot)
  {
    var h := Play(w, Start);
    PlayIsLegal(w, Start);
    LegalIsSettled(w, h);
    ContinuesEverywhere(w, h, spot);
    assert Settled(w, h, spot);
  }

  // ---- what every scenario comes to ------------------------------------------------------

  ghost predicate BlamedHere(w: World, h: History, spot: Spot) {
    ReplyAt(h, spot).Some? && TargetAt(h, spot).Some? && Blamed(w, Call(spot, TargetAt(h, spot).value), ReplyAt(h, spot).value)
  }

  ghost predicate BlamedSomewhere(w: World, h: History, s: Scenario) {
    exists spot :: ScenarioOf(spot) == s && BlamedHere(w, h, spot)
  }

  lemma BlamedOnce(w: World, h: History, c: Call, r: Response, s: Scenario)
    requires ReplyAt(h, c.spot).None?
    ensures BlamedSomewhere(w, After(h, c, r), s) <==> (ScenarioOf(c.spot) == s && Blamed(w, c, r)) || BlamedSomewhere(w, h, s)
  {
    var after := After(h, c, r);
    if BlamedSomewhere(w, after, s) {
      var spot :| ScenarioOf(spot) == s && BlamedHere(w, after, spot);
      if spot != c.spot { assert BlamedHere(w, h, spot); } else { assert c == Call(spot, c.target); }
    }
    if ScenarioOf(c.spot) == s && Blamed(w, c, r) {
      assert c == Call(c.spot, c.target);
      assert BlamedHere(w, after, c.spot);
    }
    if BlamedSomewhere(w, h, s) {
      var spot :| ScenarioOf(spot) == s && BlamedHere(w, h, spot);
      assert BlamedHere(w, after, spot);
    }
  }

  /** A scenario is to blame exactly when one of its spots is. */
  lemma {:induction false} BlamedSpots(w: World, h: History, s: Scenario)
    requires Legal(w, h)
    ensures BlamedAt(w, h, s) <==> BlamedSomewhere(w, h, s)
  {
    if h.After? {
      BlamedSpots(w, h.past, s);
      LegalIsSettled(w, h.past);
      NextRises(w, h.past);
      assert Settled(w, h.past, h.call.spot);
      BlamedOnce(w, h.past, h.call, h.reply, s);
    }
  }

  lemma {:induction false} NoneBroke(h: History, spot: Spot)
    requires !Broken(h) && ReplyAt(h, spot).Some?
    ensures !Breaking(spot, ReplyAt(h, spot).value)
  {
    if h.call.spot != spot { NoneBroke(h.past, spot); }
  }

  /** What the first field that says something holds, else the second, else the third. */
  ghost function FirstOf(r: Response, f: Field, g: Field, e: Field): Value {
    if Truthy(r.field(f)) then r.field(f) else if Truthy(r.field(g)) then r.field(g) else r.field(e)
  }

  /** The reply a call at this spot has to get, told from the reply itself; elsewhere success is enough. */
  ghost predicate GoodReply(spot: Spot, target: string, r: Response) {
    match spot
    case JiraSearch => r.success && Text.Contains(r.text, target)
    case JiraLook => r.field(StatusName) in {Str("Done"), Str("Tamam")}
    case JiraRecheck => !r.success || r.httpStatus == 404
    case PageLook => !r.success || (r.field(Version).Number? && r.field(Version).aboveOne && Text.Contains(r.text, "Update Verification"))
    case PageRecheck => !r.success || r.httpStatus == 404 || r.field(Status) == Str("trashed")
    case Repo => r.success && FirstOf(r, MainbranchName, MainBranchName, MainbranchNameFlat) == Str("main")
    case XRepo => r.success && FirstOf(r, MainbranchName, MainBranchName, MainbranchNameFlat) == Str("main")
    case PrDiff => r.success && Mentions(r.field(Diff), "vps-e2e-test.md")
    case XPrDiff => r.success && Mentions(r.field(Diff), "vps-e2e-cross-token-test.md")
    case PrLook =>
      var state := if Truthy(r.field(State)) then r.field(State) else r.field(Status);
      !r.success || state == Str("") || (state.Str? && Text.Upper(state.s) == "DECLINED")
    case BranchList => !r.success || !Text.Contains(r.text, target)
    case _ => r.success
  }

  /** The call was made and its reply is a good one. */
  ghost predicate Good(h: History, spot: Spot) {
    ReplyAt(h, spot).Some? && TargetAt(h, spot).Some? && GoodReply(spot, TargetAt(h, spot).value, ReplyAt(h, spot).value)
  }

  /** The verdict on every scenario of a finished run, told from the replies. */
  ghost function Outcome(w: World, h: History, s: Scenario): Verdict {
    match s
    case Jira(n) =>
      if n == 1 then Judge(Issue(w, h).Some?)
      else if Issue(w, h).None? then Pending
      else if n == 2 then Judge(Good(h, JiraSearch))
      else if n == 3 then Judge(Good(h, JiraComment))
      else if n == 4 then Judge(Good(h, JiraTransition) && Good(h, JiraLook))
      else if Good(h, JiraDelete) then Judge(Good(h, JiraRecheck))
      else if JiraDelete in w.banned then NotApplicable
      else Fail
    case Conf(n) =>
      if n == 1 then Pass
      else if n == 2 then if PageCreate in w.banned then NotApplicable else Judge(Page(h).Some?)
      else if Page(h).None? then Pending
      else if n == 3 then if PageUpdate in w.banned then NotApplicable else Judge(Good(h, PageUpdate) && Good(h, PageLook))
      else if PageDelete in w.banned then NotApplicable
      else Judge(Good(h, PageDelete) && Good(h, PageRecheck))
    case Bb(n) =>
      if w.bitbucket != Present then NotApplicable
      else if n == 1 then Judge(Good(h, Repo))
      else if n == 2 then Judge(Good(h, BranchCreate))
      else if !Good(h, BranchCreate) then Pending
      else if n == 3 then Judge(Good(h, Commit))
      else if n == 4 then Judge(PullRequest(h, PrCreate).Some?)
      else if n == 8 then if Good(h, BranchDelete) then Judge(Good(h, BranchList)) else Judge(Good(h, RefDelete))
      else if PullRequest(h, PrCreate).None? then Pending
      else if n == 5 then Judge(Good(h, PrDiff))
      else if n == 6 then Judge(Good(h, PrComment))
      else Judge(Good(h, PrDecline) && Good(h, PrLook))
    case Cross(n) =>
      if w.cross != Present then NotApplicable
      else if n == 1 then Judge(Good(h, XRepo))
      else if !Good(h, XBranchCreate) then Pending
      else if n == 4 then Judge(Good(h, XPrCreate))
      else if PullRequest(h, XPrCreate).None? then Pending
      else Judge(Good(h, XPrDiff))
  }

  predicate Plainly(spot: Spot) {
    spot !in {JiraCreate, PageCreate, PrCreate, Spaces, JiraDelete, BranchDelete, XBranchCreate, XCommit, XPrDecline, XBranchDelete}
  }

  /** A reply that does not break the script is to blame exactly when it is no good one. */
  lemma BlamedMeansNotGood(w: World, spot: Spot, target: string, r: Response)
    requires Plainly(spot) && !Breaking(spot, r)
    ensures Blamed(w, Call(spot, target), r) <==> !GoodReply(spot, target, r)
  {
  }

  /** What is known about a spot of a finished run. */
  ghost predicate Clear(w: World, h: History, spot: Spot) {
    && TargetAt(h, spot) == Wanted(w, h, spot)
    && (ReplyAt(h, spot).Some? <==> TargetAt(h, spot).Some?)
    && (ReplyAt(h, spot).Some? ==> !Breaking(spot, ReplyAt(h, spot).value))
    && (ReplyAt(h, spot).Some? && Plainly(spot) ==> (BlamedHere(w, h, spot) <==> !Good(h, spot)))
  }

  lemma FinishedIsClear(w: World, spot: Spot)
    requires Next(w, Play(w, Start)) == End
    ensures Clear(w, Play(w, Start), spot)
  {
    var h := Play(w, Start);
    PlayIsLegal(w, Start);
    LegalIsSettled(w, h);
    CallsExactly(w, spot);
    FinishesExactly(w);
    assert Settled(w, h, spot);
    if ReplyAt(h, spot).Some? {
      NoneBroke(h, spot);
      if Plainly(spot) { BlamedMeansNotGood(w, spot, TargetAt(h, spot).value, ReplyAt(h, spot).value); }
    }
  }

  /** The run is finished: everything at every spot is clear, and blame is told by the spots. */
  ghost predicate AllClear(w: World, h: History) {
    && (forall spot :: Clear(w, h, spot))
    && (forall s :: Charged(w, h, s))
  }

  ghost predicate Charged(w: World, h: History, s: Scenario) {
    BlamedAt(w, h, s) <==> BlamedSomewhere(w, h, s)
  }

  ghost predicate Comes(w: World, h: History, s: Scenario) {
    Ruling(w, h, s).verdict == Outcome(w, h, s)
  }

  /** The second call of a scenario that looks again, and the first one of any other. */
  function SecondSpot(s: Scenario): Spot {
    match s
    case Jira(n) => if n == 4 then JiraLook else if n == 5 then JiraRecheck else MainSpot(s)
    case Conf(n) => if n == 3 then PageLook else if n == 4 then PageRecheck else MainSpot(s)
    case Bb(n) => if n == 7 then PrLook else if n == 8 then BranchList else MainSpot(s)
    case Cross(_) => MainSpot(s)
  }

  lemma OwnSpots(i: nat, spot: Spot)
    requires i < 20 && ScenarioOf(spot) == Plan(i) && !Aside(spot)
    ensures spot == MainSpot(Plan(i)) || spot == SecondSpot(Plan(i)) || spot == RefDelete
  {
  }

  lemma TheirScenario(i: nat)
    requires i < 20
    ensures ScenarioOf(MainSpot(Plan(i))) == Plan(i) && ScenarioOf(SecondSpot(Plan(i))) == Plan(i)
  {
  }

  /** A scenario is blamed for its first call, for its second look, or for the second tool that deletes a branch. */
  lemma BlamedBySpots(w: World, h: History, i: nat)
    requires i < 20 && AllClear(w, h)
    ensures var s := Plan(i);
            BlamedAt(w, h, s) <==>
              BlamedHere(w, h, MainSpot(s)) || BlamedHere(w, h, SecondSpot(s)) || (s == Bb(8) && BlamedHere(w, h, RefDelete))
  {
    var s := Plan(i);
    assert Charged(w, h, s);
    TheirScenario(i);
    if BlamedSomewhere(w, h, s) {
      var spot :| ScenarioOf(spot) == s && BlamedHere(w, h, spot);
      if Aside(spot) { NeverBlamed(w, Call(spot, TargetAt(h, spot).value), ReplyAt(h, spot).value); }
      OwnSpots(i, spot);
    }
  }

  lemma JiraComes(w: World, h: History, n: nat)
    requires AllClear(w, h) && 1 <= n <= 5
    ensures Comes(w, h, Jira(n))
  {
    assert Plan(n - 1) == Jira(n);
    BlamedBySpots(w, h, n - 1);
    assert Clear(w, h, JiraCreate) && Clear(w, h, MainSpot(Jira(n))) && Clear(w, h, SecondSpot(Jira(n)));
  }

  lemma PageComes(w: World, h: History, n: nat)
    requires AllClear(w, h) && n in {1, 2}
    ensures Comes(w, h, Conf(n))
  {
    assert Plan(n + 4) == Conf(n);
    BlamedBySpots(w, h, n + 4);
    assert Clear(w, h, Spaces) && Clear(w, h, PageCreate);
  }

  lemma PageUpdateComes(w: World, h: History)
    requires AllClear(w, h)
    ensures Comes(w, h, Conf(3))
  {
    assert Plan(7) == Conf(3);
    BlamedBySpots(w, h, 7);
    assert Clear(w, h, PageCreate) && Clear(w, h, PageUpdate) && Clear(w, h, PageLook);
  }

  lemma PageDeleteComes(w: World, h: History)
    requires AllClear(w, h)
    ensures Comes(w, h, Conf(4))
  {
    assert Plan(8) == Conf(4);
    BlamedBySpots(w, h, 8);
    assert Clear(w, h, PageCreate) && Clear(w, h, PageDelete) && Clear(w, h, PageRecheck);
  }

  lemma BranchComes(w: World, h: History, n: nat)
    requires AllClear(w, h) && n in {1, 2, 3}
    ensures Comes(w, h, Bb(n))
  {
    assert Plan(n + 8) == Bb(n);
    BlamedBySpots(w, h, n + 8);
    assert Clear(w, h, BranchCreate) && Clear(w, h, MainSpot(Bb(n)));
  }

  lemma BranchEndComes(w: World, h: History)
    requires AllClear(w, h)
    ensures Comes(w, h, Bb(8))
  {
    assert Plan(16) == Bb(8);
    BlamedBySpots(w, h, 16);
    assert Clear(w, h, BranchCreate) && Clear(w, h, BranchDelete) && Clear(w, h, BranchList) && Clear(w, h, RefDelete);
  }

  lemma PullRequestComes(w: World, h: History, n: nat)
    requires AllClear(w, h) && 4 <= n <= 6
    ensures Comes(w, h, Bb(n))
  {
    assert Plan(n + 8) == Bb(n);
    BlamedBySpots(w, h, n + 8);
    assert Clear(w, h, BranchCreate) && Clear(w, h, PrCreate) && Clear(w, h, MainSpot(Bb(n)));
  }

  lemma DeclineComes(w: World, h: History)
    requires AllClear(w, h)
    ensures Comes(w, h, Bb(7))
  {
    assert Plan(15) == Bb(7);
    BlamedBySpots(w, h, 15);
    assert Clear(w, h, BranchCreate) && Clear(w, h, PrCreate) && Clear(w, h, PrDecline) && Clear(w, h, PrLook);
  }

  lemma CrossRepositoryComes(w: World, h: History)
    requires AllClear(w, h)
    ensures Comes(w, h, Cross(1))
  {
    assert Plan(17) == Cross(1);
    BlamedBySpots(w, h, 17);
    assert Clear(w, h, XRepo);
  }

  lemma CrossPullRequestComes(w: World, h: History, n: nat)
    requires AllClear(w, h) && n in {4, 5}
    ensures Comes(w, h, Cross(n))
  {
    assert Plan(n + 14) == Cross(n);
    BlamedBySpots(w, h, n + 14);
    assert Clear(w, h, XBranchCreate) && Clear(w, h, XPrCreate);
    if n == 5 { assert Clear(w, h, XPrDiff); }
  }

  /** A run that ends regularly rules on every scenario as its replies say. */
  lemma VerdictsExactly(w: World, i: nat)
    requires Next(w, Play(w, Start)) == End && i < 20
    ensures Ruling(w, Play(w, Start), Plan(i)).verdict == Outcome(w, Play(w, Start), Plan(i))
  {
    var h := Play(w, Start);
    PlayIsLegal(w, Start);
    forall spot ensures Clear(w, h, spot) { FinishedIsClear(w, spot); }
    forall s ensures Charged(w, h, s) { BlamedSpots(w, h, s); }
    if i < 5 {
      JiraComes(w, h, i + 1);
    } else if i < 7 {
      PageComes(w, h, i - 4);
    } else if i == 7 {
      PageUpdateComes(w, h);
    } else if i == 8 {
      PageDeleteComes(w, h);
    } else if i < 12 {
      BranchComes(w, h, i - 8);
    } else if i == 16 {
      BranchEndComes(w, h);
    } else if i < 15 {
      PullRequestComes(w, h, i - 8);
    } else if i == 15 {
      DeclineComes(w, h);
    } else if i == 17 {
      CrossRepositoryComes(w, h);
    } else {
      CrossPullRequestComes(w, h, i - 14);
    }
    assert Comes(w, h, Plan(i));
  }
}
