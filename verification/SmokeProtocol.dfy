/**
 The smoke run as a protocol: which call follows which reply, what every reply means, and what that says about a
 whole run. Replies are arbitrary, and a field of a reply may hold any JSON value or make its extraction raise.
 */
module SmokeProtocol {
  import opened Prelude
  import Text

  datatype Scenario = Jira(n: nat) | Conf(n: nat) | Bb(n: nat) | Cross(n: nat)

  datatype Suite = JiraSuite | ConfluenceSuite | BitbucketSuite | CrossSuite

  /** The calls of the script, by their place in it; those of the cross-token suite start with an X. */
  datatype Spot =
    | JiraCreate | JiraSearch | JiraComment | JiraTransition | JiraLook | JiraDelete | JiraRecheck
    | Spaces | PageCreate | PageUpdate | PageLook | PageDelete | PageRecheck
    | Repo | BranchCreate | Commit | PrCreate | PrDiff | PrComment | PrDecline | PrLook
    | BranchDelete | BranchList | RefDelete
    | XRepo | XBranchCreate | XCommit | XPrCreate | XPrDiff | XPrDecline | XBranchDelete

  /** A call and what it is about: the issue, page, branch or pull request, or for a search the issue it must show. */
  datatype Call = Call(spot: Spot, target: string)

  // ---- replies -----------------------------------------------------------------------

  /** What an extraction yields, in the respects the suites look at: a JSON value, or an exception. */
  datatype Value =
    | Str(s: string)
    | Number(truthy: bool, aboveOne: bool, shown: string)
    | List(members: set<string>, nonempty: bool, shown: string)
    | Object(members: set<string>, nonempty: bool, shown: string)
    | Null
    | Raises

  predicate Truthy(v: Value) {
    match v
    case Str(s) => s != ""
    case Number(truthy, _, _) => truthy
    case List(_, nonempty, _) => nonempty
    case Object(_, nonempty, _) => nonempty
    case Null => false
    case Raises => false
  }

  /** `str(value)`. */
  function Shown(v: Value): string {
    match v
    case Str(s) => s
    case Number(_, _, shown) => shown
    case List(_, _, shown) => shown
    case Object(_, _, shown) => shown
    case Null => "None"
    case Raises => ""
  }

  datatype Field =
    | Key | Id | PageId | PrId | Status | StatusName | State | Diff | SpaceKey | Version | CommitSha | Hash | ErrorText
    | MainbranchName | MainBranchName | MainbranchNameFlat

  /** One reply of the gateway: its success flag and status, what each extraction makes of it, and its text. */
  datatype Response = Response(success: bool, httpStatus: int, field: Field -> Value, text: string) {
    /** The first field unless it is falsy, then the second. */
    function Either(f: Field, g: Field): Value {
      if field(f).Raises? || Truthy(field(f)) then field(f) else field(g)
    }

    /** The name a successful creation gives its object. */
    function Named(f: Field, g: Field): Option<string> {
      if success && Truthy(Either(f, g)) then Some(Shown(Either(f, g))) else None
    }
  }

  /** The calls of a run and their replies, the latest outermost. */
  datatype History = Start | After(past: History, call: Call, reply: Response)

  /** Whether the gateway lists Bitbucket tools; a listed name that is no text cannot be searched. */
  datatype Listing = Present | Missing | Unreadable

  /** The environment of a run: its reply to a call, which may depend on all earlier ones, and what was read from it once. */
  datatype World = World(
    reply: (History, Call) -> Response,
    isIssueKey: string -> bool,
    banned: set<Spot>,
    spaceTools: set<nat>,
    bitbucket: Listing,
    cross: Listing,
    published: Suite -> bool,
    defaultSpace: string,
    branch: string,
    crossBranch: string
  ) {
    /** The history after one more call. */
    function Then(h: History, c: Call): History {
      After(h, c, reply(h, c))
    }
  }

  /** The first of the three space tools that the gateway lists. */
  function SpaceTool(w: World): Option<nat> {
    if 0 in w.spaceTools then Some(0) else if 1 in w.spaceTools then Some(1) else if 2 in w.spaceTools then Some(2) else None
  }

  // ---- what a reply means ----------------------------------------------------------------

  function CreatedKey(w: World, r: Response): Option<string> {
    if r.success && r.field(Key).Str? && w.isIssueKey(r.field(Key).s) then Some(r.field(Key).s) else None
  }

  predicate IssueDone(r: Response) {
    r.field(StatusName) == Str("Done") || r.field(StatusName) == Str("Tamam")
  }

  predicate OutOfReach(r: Response) {
    r.httpStatus == 404 || !r.success
  }

  /** The update shows; a second look that fails counts as if it did. */
  predicate PageUpdated(r: Response) {
    r.success ==> r.field(Version).Number? && r.field(Version).aboveOne && Text.Contains(r.text, "Update Verification")
  }

  predicate PageGone(r: Response) {
    OutOfReach(r) || r.field(Status) == Str("trashed")
  }

  function MainBranch(r: Response): Value {
    var v := r.Either(MainbranchName, MainBranchName);
    if v.Raises? || Truthy(v) then v else r.field(MainbranchNameFlat)
  }

  predicate OnMain(r: Response) {
    r.success && MainBranch(r) == Str("main")
  }

  const TEST_FILE := "vps-e2e-test.md"
  const CROSS_FILE := "vps-e2e-cross-token-test.md"

  /** `path in diff`: a part of a text, an element of a list, a key of an object. */
  predicate Mentions(v: Value, path: string) {
    match v
    case Str(s) => Text.Contains(s, path)
    case List(members, nonempty, _) => nonempty && path in members
    case Object(members, nonempty, _) => nonempty && path in members
    case _ => false
  }

  /** A state that cannot be read counts as declined. */
  predicate Declined(r: Response) {
    var state := if r.success then r.Either(State, Status) else Str("");
    state == Str("") || (state.Str? && Text.Upper(state.s) == "DECLINED")
  }

  predicate BranchGone(r: Response, branch: string) {
    !(r.success && Text.Contains(r.text, branch))
  }

  /** The reply makes the script raise, because a value is used as what it is not or its extraction raises. */
  predicate Breaking(spot: Spot, r: Response) {
    match spot
    case JiraCreate => r.success && !r.field(Key).Str?
    case JiraComment => r.success && r.field(Id).Raises?
    case JiraLook => r.field(StatusName).Raises?
    case Spaces => r.success && (r.field(SpaceKey).Raises? || (Truthy(r.field(SpaceKey)) && !r.field(SpaceKey).Str?))
    case PageCreate => if r.success then r.Either(Id, PageId).Raises? else r.field(ErrorText).Raises?
    case PageLook => r.success && !r.field(Version).Number?
    case PageRecheck => !OutOfReach(r) && r.field(Status).Raises?
    case Repo => r.success && MainBranch(r).Raises?
    case XRepo => r.success && MainBranch(r).Raises?
    case Commit =>
      var v := r.Either(CommitSha, Hash);
      r.success && (v.Raises? || (Truthy(v) && (v.Number? || v.Object?)))
    case PrCreate => r.success && r.Either(Id, PrId).Raises?
    case XPrCreate => r.success && r.Either(Id, PrId).Raises?
    case PrDiff => r.success && (r.field(Diff).Raises? || (Truthy(r.field(Diff)) && r.field(Diff).Number?))
    case XPrDiff => r.success && (r.field(Diff).Raises? || (Truthy(r.field(Diff)) && r.field(Diff).Number?))
    case PrLook => r.success && !r.Either(State, Status).Str?
    case _ => false
  }

  /** The reply makes its scenario fail. */
  predicate Blamed(w: World, c: Call, r: Response) {
    && !Breaking(c.spot, r)
    && match c.spot
       case JiraCreate => CreatedKey(w, r).None?
       case JiraSearch => !(r.success && Text.Contains(r.text, c.target))
       case JiraLook => !IssueDone(r)
       case JiraDelete => !r.success && JiraDelete !in w.banned
       case JiraRecheck => !OutOfReach(r)
       case PageCreate => r.Named(Id, PageId).None?
       case PageLook => !PageUpdated(r)
       case PageRecheck => !PageGone(r)
       case Repo => !OnMain(r)
       case XRepo => !OnMain(r)
       case PrCreate => r.Named(Id, PrId).None?
       case PrDiff => !(r.success && Mentions(r.field(Diff), TEST_FILE))
       case XPrDiff => !(r.success && Mentions(r.field(Diff), CROSS_FILE))
       case PrLook => !Declined(r)
       case BranchList => !BranchGone(r, c.target)
       case Spaces => false
       case BranchDelete => false
       case XBranchCreate => false
       case XCommit => false
       case XPrDecline => false
       case XBranchDelete => false
       case _ => !r.success
  }

  /** The preparation and clean-up of the cross-token suite is no scenario's. */
  lemma NeverBlamed(w: World, c: Call, r: Response)
    requires Aside(c.spot)
    ensures !Blamed(w, c, r) && !Breaking(c.spot, r)
  {
  }

  function ScenarioOf(spot: Spot): Scenario {
    match spot
    case JiraCreate => Jira(1)
    case JiraSearch => Jira(2)
    case JiraComment => Jira(3)
    case JiraTransition => Jira(4)
    case JiraLook => Jira(4)
    case JiraDelete => Jira(5)
    case JiraRecheck => Jira(5)
    case Spaces => Conf(1)
    case PageCreate => Conf(2)
    case PageUpdate => Conf(3)
    case PageLook => Conf(3)
    case PageDelete => Conf(4)
    case PageRecheck => Conf(4)
    case Repo => Bb(1)
    case BranchCreate => Bb(2)
    case Commit => Bb(3)
    case PrCreate => Bb(4)
    case PrDiff => Bb(5)
    case PrComment => Bb(6)
    case PrDecline => Bb(7)
    case PrLook => Bb(7)
    case BranchDelete => Bb(8)
    case BranchList => Bb(8)
    case RefDelete => Bb(8)
    case XRepo => Cross(1)
    case XPrDiff => Cross(5)
    case _ => Cross(4)
  }

  /** The scenarios that the replies of a run make fail, in order. */
  ghost function Blame(w: World, h: History): seq<Scenario> {
    if h.Start? then []
    else Blame(w, h.past) + if Blamed(w, h.call, h.reply) then [ScenarioOf(h.call.spot)] else []
  }

  // ---- what a history says about every scenario ---------------------------------------------

  datatype Verdict = Pass | Fail | Pending | NotApplicable

  /** The tool an entry names: that of a call, one of the three space tools, or none. */
  datatype Tool = ToolAt(spot: Spot) | SpaceToolNo(n: nat) | NoTool

  datatype Entry = Entry(scenario: Scenario, verdict: Verdict, httpStatus: int, tool: Tool)

  /** The scenarios of a whole run, in order. */
  function Plan(i: nat): Scenario {
    if i < 5 then Jira(i + 1)
    else if i < 9 then Conf(i - 4)
    else if i < 17 then Bb(i - 8)
    else Cross(if i == 17 then 1 else i - 14)
  }

  /** The call a scenario starts with. */
  function MainSpot(s: Scenario): Spot {
    match s
    case Jira(n) =>
      if n == 1 then JiraCreate else if n == 2 then JiraSearch else if n == 3 then JiraComment
      else if n == 4 then JiraTransition else JiraDelete
    case Conf(n) => if n == 1 then Spaces else if n == 2 then PageCreate else if n == 3 then PageUpdate else PageDelete
    case Bb(n) =>
      if n == 1 then Repo else if n == 2 then BranchCreate else if n == 3 then Commit else if n == 4 then PrCreate
      else if n == 5 then PrDiff else if n == 6 then PrComment else if n == 7 then PrDecline else BranchDelete
    case Cross(n) => if n == 1 then XRepo else if n == 4 then XPrCreate else XPrDiff
  }

  ghost function ReplyAt(h: History, spot: Spot): Option<Response> {
    if h.Start? then None else if h.call.spot == spot then Some(h.reply) else ReplyAt(h.past, spot)
  }

  ghost predicate BlamedAt(w: World, h: History, s: Scenario) {
    h.After? && ((Blamed(w, h.call, h.reply) && ScenarioOf(h.call.spot) == s) || BlamedAt(w, h.past, s))
  }

  ghost predicate PageNamed(h: History) {
    ReplyAt(h, PageCreate).Some? && ReplyAt(h, PageCreate).value.Named(Id, PageId).Some?
  }

  /** The verdict of a scenario that made no call: its tool is banned or missing, or an earlier scenario broke the chain. */
  ghost function Unrun(w: World, h: History, s: Scenario): Verdict {
    match s
    case Jira(_) => Pending
    case Conf(n) => if n == 1 then Pass else if n == 2 || PageNamed(h) then NotApplicable else Pending
    case Bb(_) => if w.bitbucket.Present? then Pending else NotApplicable
    case Cross(_) => if w.cross.Present? then Pending else NotApplicable
  }

  function UnrunTool(w: World, s: Scenario): Tool {
    if s == Conf(1) || (s.Cross? && !w.cross.Present?) then NoTool else ToolAt(MainSpot(s))
  }

  /** The entry a history calls for: failed if a reply is to blame, otherwise by the reply to the scenario's first call. */
  ghost function Ruling(w: World, h: History, s: Scenario): Entry {
    var r := ReplyAt(h, MainSpot(s));
    if r.None? then Entry(s, Unrun(w, h, s), 0, UnrunTool(w, s))
    else if BlamedAt(w, h, s) then Entry(s, Fail, r.value.httpStatus, ToolAt(MainSpot(s)))
    else if s == Jira(5) && !r.value.success then Entry(s, NotApplicable, 0, ToolAt(JiraDelete))
    else if s == Bb(8) && !r.value.success && ReplyAt(h, RefDelete).Some? then
      Entry(s, Pass, ReplyAt(h, RefDelete).value.httpStatus, ToolAt(RefDelete))
    else
      Entry(s, Pass, r.value.httpStatus, if s == Conf(1) && SpaceTool(w).Some? then SpaceToolNo(SpaceTool(w).value) else ToolAt(MainSpot(s)))
  }

  /** Calls that belong to no scenario's judgement. */
  predicate Aside(spot: Spot) {
    spot in {XBranchCreate, XCommit, XPrDecline, XBranchDelete}
  }

  /** The call belongs to the scenario at place `n`, or to none. */
  predicate Current(spot: Spot, n: nat) {
    Aside(spot) || ScenarioOf(spot) == Plan(n)
  }

  lemma MainSpotIsItsOwn(i: nat)
    requires i < 20
    ensures ScenarioOf(MainSpot(Plan(i))) == Plan(i) && !Aside(MainSpot(Plan(i)))
  {
  }

  /** A call of a later scenario changes no ruling. */
  lemma RulingStays(w: World, h: History, c: Call, r: Response, i: nat, n: nat)
    requires i < n <= 20 && Current(c.spot, n) && (n == 20 ==> Aside(c.spot))
    ensures Ruling(w, After(h, c, r), Plan(i)) == Ruling(w, h, Plan(i))
  {
    MainSpotIsItsOwn(i);
    if Aside(c.spot) {
      NeverBlamed(w, c, r);
    } else {
      assert Plan(i) != Plan(n);
    }
  }

  /** Nothing has happened at the scenario yet. */
  ghost predicate Unmet(w: World, h: History, j: nat) {
    j < 20 ==> ReplyAt(h, MainSpot(Plan(j))).None? && !BlamedAt(w, h, Plan(j))
  }

  function Judge(ok: bool): Verdict {
    if ok then Pass else Fail
  }

  ghost predicate Rules(w: World, h: History, s: Scenario, e: Entry) {
    Ruling(w, h, s) == e
  }

  /** The history calls for this entry and no other. */
  ghost predicate CallsFor(w: World, h: History, s: Scenario, e: Entry) {
    forall f: Entry :: Rules(w, h, s, f) ==> f == e
  }

  lemma CallsForMeans(w: World, h: History, s: Scenario, e: Entry)
    requires CallsFor(w, h, s, e)
    ensures Ruling(w, h, s) == e
  {
    assert Rules(w, h, s, Ruling(w, h, s));
  }

  /** No call: the scenario is skipped. */
  lemma NoCall(w: World, h: History, n: nat)
    requires n < 20 && Unmet(w, h, n)
    ensures CallsFor(w, h, Plan(n), Entry(Plan(n), Unrun(w, h, Plan(n)), 0, UnrunTool(w, Plan(n))))
  {
  }

  /** One call: its reply decides. */
  lemma OneCall(w: World, h: History, c: Call, r: Response, n: nat)
    requires n < 20 && Unmet(w, h, n) && c.spot == MainSpot(Plan(n)) && n != 5 && n != 16 && (n == 4 ==> Blamed(w, c, r))
    ensures CallsFor(w, After(h, c, r), Plan(n), Entry(Plan(n), Judge(!Blamed(w, c, r)), r.httpStatus, ToolAt(c.spot)))
  {
    MainSpotIsItsOwn(n);
    assert Plan(n) != Conf(1) && Plan(n) != Bb(8);
  }

  /** A second call of the scenario after a successful first one: both decide. */
  lemma TwoCalls(w: World, h: History, c: Call, r: Response, d: Call, q: Response, n: nat)
    requires n < 20 && Unmet(w, h, n) && c.spot == MainSpot(Plan(n)) && n != 5 && r.success
    requires ScenarioOf(d.spot) == Plan(n) && d.spot != c.spot
    ensures CallsFor(w, After(After(h, c, r), d, q), Plan(n),
                     Entry(Plan(n), Judge(!Blamed(w, c, r) && !Blamed(w, d, q)), r.httpStatus, ToolAt(c.spot)))
  {
    MainSpotIsItsOwn(n);
    var one, two := After(h, c, r), After(After(h, c, r), d, q);
    assert Plan(n) != Conf(1);
    assert BlamedAt(w, one, Plan(n)) <==> Blamed(w, c, r);
    assert ReplyAt(one, c.spot) == Some(r) && ReplyAt(two, c.spot) == Some(r);
    assert BlamedAt(w, two, Plan(n)) <==> Blamed(w, c, r) || Blamed(w, d, q);
  }

  /** The space listing passes whatever it answers. */
  lemma SpacesPass(w: World, h: History, c: Call, r: Response)
    requires Unmet(w, h, 5) && c.spot == Spaces && SpaceTool(w).Some?
    ensures CallsFor(w, After(h, c, r), Conf(1), Entry(Conf(1), Pass, r.httpStatus, SpaceToolNo(SpaceTool(w).value)))
  {
    assert Plan(5) == Conf(1);
  }

  /** A refused deletion with a banned tool is excused. */
  lemma BannedIsExcused(w: World, h: History, c: Call, r: Response)
    requires Unmet(w, h, 4) && c.spot == JiraDelete && !r.success && JiraDelete in w.banned
    ensures CallsFor(w, After(h, c, r), Jira(5), Entry(Jira(5), NotApplicable, 0, ToolAt(JiraDelete)))
  {
    assert Plan(4) == Jira(5);
  }

  /** A refused branch deletion is judged by the tool tried after it. */
  lemma FallBackDecides(w: World, h: History, c: Call, r: Response, d: Call, q: Response)
    requires Unmet(w, h, 16) && c.spot == BranchDelete && !r.success && d.spot == RefDelete
    ensures CallsFor(w, After(After(h, c, r), d, q), Bb(8),
                     if q.success then Entry(Bb(8), Pass, q.httpStatus, ToolAt(RefDelete))
                     else Entry(Bb(8), Fail, r.httpStatus, ToolAt(BranchDelete)))
  {
    assert Plan(16) == Bb(8);
    var one, two := After(h, c, r), After(After(h, c, r), d, q);
    assert !BlamedAt(w, one, Bb(8)) && ReplyAt(one, BranchDelete) == Some(r);
    assert ReplyAt(two, BranchDelete) == Some(r) && ReplyAt(two, RefDelete) == Some(q);
  }

  lemma UnmetStays(w: World, h: History, c: Call, r: Response, j: nat)
    requires Unmet(w, h, j) && (Aside(c.spot) || ScenarioOf(c.spot) != Plan(j))
    ensures Unmet(w, After(h, c, r), j)
  {
    if j < 20 { MainSpotIsItsOwn(j); }
    if Aside(c.spot) { NeverBlamed(w, c, r); }
  }

  // ---- what comes next -------------------------------------------------------------------

  /** The next call, the end of the script by an exception, or its end. */
  datatype Turn = Ask(call: Call) | Crash | End

  function ConfTurn(w: World): Turn {
    if !w.published(JiraSuite) then Crash
    else if SpaceTool(w).Some? then Ask(Call(Spaces, ""))
    else PageTurn(w, w.defaultSpace)
  }

  function PageTurn(w: World, space: string): Turn {
    if PageCreate in w.banned then BbTurn(w) else Ask(Call(PageCreate, space))
  }

  function UpdateTurn(w: World, page: string): Turn {
    if PageUpdate in w.banned then DeleteTurn(w, page) else Ask(Call(PageUpdate, page))
  }

  function DeleteTurn(w: World, page: string): Turn {
    if PageDelete in w.banned then BbTurn(w) else Ask(Call(PageDelete, page))
  }

  function BbTurn(w: World): Turn {
    if !w.published(ConfluenceSuite) then Crash
    else match w.bitbucket
         case Unreadable => Crash
         case Missing => CrossTurn(w)
         case Present => Ask(Call(Repo, ""))
  }

  function CrossTurn(w: World): Turn {
    if !w.published(BitbucketSuite) then Crash
    else match w.cross
         case Unreadable => Crash
         case Missing => LastTurn(w)
         case Present => Ask(Call(XRepo, ""))
  }

  function LastTurn(w: World): Turn {
    if w.published(CrossSuite) then End else Crash
  }

  function SpaceOf(w: World, r: Response): string {
    if r.success && r.field(SpaceKey).Str? && r.field(SpaceKey).s != "" then r.field(SpaceKey).s else w.defaultSpace
  }

  /** Decided by the latest call and its reply alone. */
  function Next(w: World, h: History): Turn {
    if h.Start? then Ask(Call(JiraCreate, ""))
    else if Breaking(h.call.spot, h.reply) then Crash
    else
      var t, r := h.call.target, h.reply;
      match h.call.spot
      case JiraCreate => if CreatedKey(w, r).Some? then Ask(Call(JiraSearch, CreatedKey(w, r).value)) else ConfTurn(w)
      case JiraSearch => Ask(Call(JiraComment, t))
      case JiraComment => Ask(Call(JiraTransition, t))
      case JiraTransition => Ask(Call(if r.success then JiraLook else JiraDelete, t))
      case JiraLook => Ask(Call(JiraDelete, t))
      case JiraDelete => if r.success then Ask(Call(JiraRecheck, t)) else ConfTurn(w)
      case JiraRecheck => ConfTurn(w)
      case Spaces => PageTurn(w, SpaceOf(w, r))
      case PageCreate => if r.Named(Id, PageId).Some? then UpdateTurn(w, r.Named(Id, PageId).value) else BbTurn(w)
      case PageUpdate => if r.success then Ask(Call(PageLook, t)) else DeleteTurn(w, t)
      case PageLook => DeleteTurn(w, t)
      case PageDelete => if r.success then Ask(Call(PageRecheck, t)) else BbTurn(w)
      case PageRecheck => BbTurn(w)
      case Repo => Ask(Call(BranchCreate, w.branch))
      case BranchCreate => if r.success then Ask(Call(Commit, w.branch)) else CrossTurn(w)
      case Commit => Ask(Call(PrCreate, w.branch))
      case PrCreate => Ask(if r.Named(Id, PrId).Some? then Call(PrDiff, r.Named(Id, PrId).value) else Call(BranchDelete, w.branch))
      case PrDiff => Ask(Call(PrComment, t))
      case PrComment => Ask(Call(PrDecline, t))
      case PrDecline => Ask(if r.success then Call(PrLook, t) else Call(BranchDelete, w.branch))
      case PrLook => Ask(Call(BranchDelete, w.branch))
      case BranchDelete => Ask(Call(if r.success then BranchList else RefDelete, t))
      case BranchList => CrossTurn(w)
      case RefDelete => CrossTurn(w)
      case XRepo => Ask(Call(XBranchCreate, w.crossBranch))
      case XBranchCreate => if r.success then Ask(Call(XCommit, w.crossBranch)) else LastTurn(w)
      case XCommit => Ask(Call(XPrCreate, w.crossBranch))
      case XPrCreate =>
        Ask(if r.Named(Id, PrId).Some? then Call(XPrDiff, r.Named(Id, PrId).value) else Call(XBranchDelete, w.crossBranch))
      case XPrDiff => Ask(Call(XPrDecline, t))
      case XPrDecline => Ask(Call(XBranchDelete, w.crossBranch))
      case XBranchDelete => LastTurn(w)
  }

  /** Every call was the next one, and its reply the one the gateway gives there. */
  ghost predicate Legal(w: World, h: History) {
    h.After? ==> Legal(w, h.past) && Next(w, h.past) == Ask(h.call) && h.reply == w.reply(h.past, h.call)
  }

  // ---- the run is finite and determined --------------------------------------------------

  function Place(spot: Spot): nat {
    match spot
    case JiraCreate => 1 case JiraSearch => 2 case JiraComment => 3 case JiraTransition => 4 case JiraLook => 5
    case JiraDelete => 6 case JiraRecheck => 7 case Spaces => 8 case PageCreate => 9 case PageUpdate => 10
    case PageLook => 11 case PageDelete => 12 case PageRecheck => 13 case Repo => 14 case BranchCreate => 15
    case Commit => 16 case PrCreate => 17 case PrDiff => 18 case PrComment => 19 case PrDecline => 20
    case PrLook => 21 case BranchDelete => 22 case BranchList => 23 case RefDelete => 24 case XRepo => 25
    case XBranchCreate => 26 case XCommit => 27 case XPrCreate => 28 case XPrDiff => 29 case XPrDecline => 30
    case XBranchDelete => 31
  }

  function PlaceOf(h: History): nat {
    if h.Start? then 0 else Place(h.call.spot)
  }

  /** The script never goes back: it makes at most 31 calls. */
  lemma NextRises(w: World, h: History)
    ensures Next(w, h).Ask? ==> PlaceOf(h) < Place(Next(w, h).call.spot) <= 31
  {
    if PlaceOf(h) <= 13 {
      RisesEarly(w, h);
    } else {
      RisesLate(w, h);
    }
  }

  lemma RisesEarly(w: World, h: History)
    requires PlaceOf(h) <= 13
    ensures Next(w, h).Ask? ==> PlaceOf(h) < Place(Next(w, h).call.spot)
  {
  }

  lemma RisesLate(w: World, h: History)
    requires PlaceOf(h) > 13
    ensures Next(w, h).Ask? ==> PlaceOf(h) < Place(Next(w, h).call.spot)
  {
  }

  /** The run from here to its end. */
  ghost function Play(w: World, h: History): History
    decreases 31 - PlaceOf(h)
  {
    NextRises(w, h);
    if Next(w, h).Ask? then Play(w, w.Then(h, Next(w, h).call)) else h
  }

  lemma {:induction false} LegalIsOnTheWay(w: World, h: History)
    requires Legal(w, h)
    ensures Play(w, h) == Play(w, Start)
  {
    if h.After? { LegalIsOnTheWay(w, h.past); }
  }

  lemma {:induction false} PlayIsLegal(w: World, h: History)
    requires Legal(w, h)
    ensures Legal(w, Play(w, h)) && !Next(w, Play(w, h)).Ask?
    decreases 31 - PlaceOf(h)
  {
    NextRises(w, h);
    if Next(w, h).Ask? { PlayIsLegal(w, w.Then(h, Next(w, h).call)); }
  }

  /** The protocol fixes the run: whatever follows it to an end is the run. */
  lemma RunIsDetermined(w: World, h: History)
    requires Legal(w, h) && !Next(w, h).Ask?
    ensures h == Play(w, Start)
  {
    LegalIsOnTheWay(w, h);
  }

  ghost predicate Leads(w: World, h: History, t: Turn) {
    Next(w, h) == t
  }

  /** After `h` nothing but this turn can follow. */
  ghost predicate Awaits(w: World, h: History, t: Turn) {
    forall u: Turn :: Leads(w, h, u) ==> u == t
  }

  lemma AwaitsMeans(w: World, h: History, t: Turn)
    requires Awaits(w, h, t)
    ensures Next(w, h) == t
  {
    assert Leads(w, h, Next(w, h));
  }

  ghost predicate EndsIn(w: World, h: History, end: History) {
    Play(w, h) == end
  }

  /** The run from `h` is the rest of the whole run. */
  ghost predicate OnTrack(w: World, h: History) {
    forall end: History :: EndsIn(w, h, end) ==> EndsIn(w, Start, end)
  }

  lemma OnTrackOn(w: World, h: History, c: Call)
    requires OnTrack(w, h) && Next(w, h) == Ask(c)
    ensures OnTrack(w, w.Then(h, c))
  {
    NextRises(w, h);
    assert EndsIn(w, h, Play(w, h));
  }

  /** The protocol fixes the run: what is on track and has no next call is the whole run. */
  lemma TrackEnds(w: World, h: History)
    requires OnTrack(w, h) && !Next(w, h).Ask?
    ensures h == Play(w, Start)
  {
    assert EndsIn(w, h, h);
  }

  // ---- when a run finishes ------------------------------------------------------------------

  ghost predicate Broken(h: History) {
    h.After? && (Breaking(h.call.spot, h.reply) || Broken(h.past))
  }

  /** What the script passed on its way to this place. */
  ghost predicate Passed(w: World, place: nat) {
    && (place >= 8 ==> w.published(JiraSuite))
    && (place >= 14 ==> w.published(ConfluenceSuite) && !w.bitbucket.Unreadable?)
    && (place >= 25 ==> w.published(BitbucketSuite) && !w.cross.Unreadable?)
  }

  lemma PassedStep(w: World, h: History)
    requires Passed(w, PlaceOf(h))
    ensures Next(w, h).Ask? ==> Passed(w, Place(Next(w, h).call.spot))
    ensures Next(w, h).End? ==> Passed(w, 31) && w.published(CrossSuite)
  {
  }

  lemma {:induction false} LegalPassed(w: World, h: History)
    requires Legal(w, h)
    ensures Passed(w, PlaceOf(h)) && (h.After? ==> !Broken(h.past))
  {
    if h.After? {
      LegalPassed(w, h.past);
      PassedStep(w, h.past);
    }
  }

  /** The evidence of every suite can be written, and no tool list stops a suite before its first call. */
  ghost predicate Smooth(w: World) {
    Passed(w, 31) && w.published(CrossSuite)
  }

  /** Exactly when a run ends regularly: none of its replies breaks it, and its surroundings are smooth. */
  lemma FinishesExactly(w: World)
    ensures Next(w, Play(w, Start)) == End <==> !Broken(Play(w, Start)) && Smooth(w)
  {
    PlayIsLegal(w, Start);
    var h := Play(w, Start);
    LegalPassed(w, h);
    PassedStep(w, h);
  }

  /** A gateway no reply of which can break the script. */
  ghost predicate Tame(w: World) {
    forall h: History, c: Call :: !Breaking(c.spot, w.reply(h, c))
  }

  lemma {:induction false} TameIsUnbroken(w: World, h: History)
    requires Tame(w) && Legal(w, h)
    ensures !Broken(h)
  {
    if h.After? { TameIsUnbroken(w, h.past); }
  }

  /** Checkable beforehand: with a tame gateway and smooth surroundings every run ends regularly. */
  lemma TameRunsFinish(w: World)
    requires Tame(w) && Smooth(w)
    ensures Next(w, Play(w, Start)) == End
  {
    PlayIsLegal(w, Start);
    TameIsUnbroken(w, Play(w, Start));
    FinishesExactly(w);
  }

  // ---- what a run makes and destroys ---------------------------------------------------------

  predicate Destroys(spot: Spot) {
    spot in {JiraDelete, PageDelete, PrDecline, BranchDelete, RefDelete, XPrDecline, XBranchDelete}
  }

  function Undoing(spot: Spot, name: Option<string>): Option<Call> {
    if name.Some? then Some(Call(spot, name.value)) else None
  }

  /** The call that undoes a creation the reply gives a name to, unless that call is banned. */
  function Undo(w: World, c: Call, r: Response): Option<Call> {
    match c.spot
    case JiraCreate => Undoing(JiraDelete, CreatedKey(w, r))
    case PageCreate => if PageDelete in w.banned then None else Undoing(PageDelete, r.Named(Id, PageId))
    case BranchCreate => if r.success then Some(Call(BranchDelete, c.target)) else None
    case PrCreate => Undoing(PrDecline, r.Named(Id, PrId))
    case XBranchCreate => if r.success then Some(Call(XBranchDelete, c.target)) else None
    case XPrCreate => Undoing(XPrDecline, r.Named(Id, PrId))
    case _ => None
  }

  /** The clean-up calls that the creations so far call for and that have not been made since. */
  ghost function Open(w: World, h: History): set<Call> {
    if h.Start? then {} else Opened(w, Open(w, h.past), h.call, h.reply)
  }

  ghost function Opened(w: World, open: set<Call>, c: Call, r: Response): set<Call> {
    (if Destroys(c.spot) then open - {c} else open) + AsSet(Undo(w, c, r))
  }

  ghost function AsSet(c: Option<Call>): set<Call> {
    if c.Some? then {c.value} else {}
  }

  /** The clean-up that is owed after the latest call, whatever came before it. */
  ghost function Owing(w: World, h: History): set<Call> {
    if h.Start? then {}
    else
      var undo, t := AsSet(Undo(w, h.call, h.reply)), h.call.target;
      var branch, cross := {Call(BranchDelete, w.branch)}, {Call(XBranchDelete, w.crossBranch)};
      match h.call.spot
      case JiraCreate => undo
      case JiraSearch => {Call(JiraDelete, t)}
      case JiraComment => {Call(JiraDelete, t)}
      case JiraTransition => {Call(JiraDelete, t)}
      case JiraLook => {Call(JiraDelete, t)}
      case PageCreate => undo
      case PageUpdate => if PageDelete in w.banned then {} else {Call(PageDelete, t)}
      case PageLook => if PageDelete in w.banned then {} else {Call(PageDelete, t)}
      case BranchCreate => if h.reply.success then branch else {}
      case Commit => branch
      case PrCreate => branch + undo
      case PrDiff => branch + {Call(PrDecline, t)}
      case PrComment => branch + {Call(PrDecline, t)}
      case PrDecline => branch
      case PrLook => branch
      case XBranchCreate => if h.reply.success then cross else {}
      case XCommit => cross
      case XPrCreate => cross + undo
      case XPrDiff => cross + {Call(XPrDecline, t)}
      case XPrDecline => cross
      case _ => {}
  }

  lemma OwingStepJira(w: World, h: History, c: Call, r: Response)
    requires Next(w, h) == Ask(c) && PlaceOf(h) <= 7
    ensures Opened(w, Owing(w, h), c, r) == Owing(w, After(h, c, r))
  {
  }

  lemma OwingStepPage(w: World, h: History, c: Call, r: Response)
    requires Next(w, h) == Ask(c) && 8 <= PlaceOf(h) <= 13
    ensures Opened(w, Owing(w, h), c, r) == Owing(w, After(h, c, r))
  {
  }

  lemma OwingStepBranch(w: World, h: History, c: Call, r: Response)
    requires Next(w, h) == Ask(c) && 14 <= PlaceOf(h) <= 24
    ensures Opened(w, Owing(w, h), c, r) == Owing(w, After(h, c, r))
  {
  }

  lemma OwingStepCross(w: World, h: History, c: Call, r: Response)
    requires Next(w, h) == Ask(c) && 25 <= PlaceOf(h)
    ensures Opened(w, Owing(w, h), c, r) == Owing(w, After(h, c, r))
  {
  }

  /** Along every run, what is open is what the latest call says is owed. */
  lemma {:induction false} OpenIsOwing(w: World, h: History)
    requires Legal(w, h)
    ensures Open(w, h) == Owing(w, h)
  {
    if h.After? {
      OpenIsOwing(w, h.past);
      var place := PlaceOf(h.past);
      if place <= 7 {
        OwingStepJira(w, h.past, h.call, h.reply);
      } else if place <= 13 {
        OwingStepPage(w, h.past, h.call, h.reply);
      } else if place <= 24 {
        OwingStepBranch(w, h.past, h.call, h.reply);
      } else {
        OwingStepCross(w, h.past, h.call, h.reply);
      }
    }
  }

  /** The places at which an exception leaves something behind. */
  predicate LeavesBehind(w: World, spot: Spot) {
    || spot in {JiraComment, JiraLook, Commit, PrCreate, PrDiff, PrLook, XPrCreate, XPrDiff}
    || (spot == PageLook && PageDelete !in w.banned)
  }

  /** Nothing the run made and can name stays without its clean-up call, unless it breaks at one of those places. */
  lemma LeftBehindExactly(w: World)
    ensures var h := Play(w, Start);
            Open(w, h) == {} <==> !(h.After? && Breaking(h.call.spot, h.reply) && LeavesBehind(w, h.call.spot))
  {
    PlayIsLegal(w, Start);
    OpenIsOwing(w, Play(w, Start));
  }

  /** Call `c`, answered by `r`, made what call `d` destroys; a branch can be destroyed by either of two tools. */
  predicate Makes(w: World, c: Call, r: Response, d: Call) {
    Undo(w, c, r) == Some(if d.spot == RefDelete then Call(BranchDelete, d.target) else d)
  }

  ghost predicate Made(w: World, h: History, d: Call) {
    h.After? && (Makes(w, h.call, h.reply, d) || Made(w, h.past, d))
  }

  ghost predicate Tried(h: History, d: Call) {
    h.After? && (h.call == d || Tried(h.past, d))
  }

  /** The clean-up call was made after the latest creation it undoes. */
  ghost predicate TriedSince(w: World, h: History, d: Call) {
    h.After? && (h.call == d || (!Makes(w, h.call, h.reply, d) && TriedSince(w, h.past, d)))
  }

  /** What is open was made by this run and not tried to be destroyed since. */
  lemma {:induction false} OpenExactly(w: World, h: History, d: Call)
    requires Destroys(d.spot) && d.spot != RefDelete
    ensures d in Open(w, h) <==> Made(w, h, d) && !TriedSince(w, h, d)
  {
    if h.After? { OpenExactly(w, h.past, d); }
  }

  lemma DestroysWhatIsOwed(w: World, h: History, d: Call)
    requires Next(w, h) == Ask(d) && Destroys(d.spot)
    ensures d in Owing(w, h) || (d.spot == RefDelete && h.After? && h.call == Call(BranchDelete, d.target))
  {
  }

  /** Only what the run itself made is ever destroyed. */
  lemma {:induction false} DestroysOnlyItsOwn(w: World, h: History, d: Call)
    requires Legal(w, h) && Tried(h, d) && Destroys(d.spot)
    ensures Made(w, h, d)
  {
    if h.call != d {
      DestroysOnlyItsOwn(w, h.past, d);
    } else {
      DestroysWhatIsOwed(w, h.past, d);
      if d.spot == RefDelete {
        DestroysOnlyItsOwn(w, h.past, Call(BranchDelete, d.target));
        SameMaker(w, h.past, d.target);
      } else {
        OpenIsOwing(w, h.past);
        OpenExactly(w, h.past, d);
      }
    }
  }

  lemma {:induction false} SameMaker(w: World, h: History, branch: string)
    ensures Made(w, h, Call(BranchDelete, branch)) <==> Made(w, h, Call(RefDelete, branch))
  {
    if h.After? { SameMaker(w, h.past, branch); }
  }

  lemma {:induction false} TriedAtSomeTime(w: World, h: History, d: Call)
    requires TriedSince(w, h, d)
    ensures Tried(h, d)
  {
    if h.call != d { TriedAtSomeTime(w, h.past, d); }
  }

  /** A run that leaves nothing open has tried to destroy exactly what it made, among all it can name. */
  lemma CleansExactlyItsOwn(w: World, d: Call)
    requires Destroys(d.spot) && d.spot != RefDelete && Open(w, Play(w, Start)) == {}
    ensures Tried(Play(w, Start), d) <==> Made(w, Play(w, Start), d)
  {
    var h := Play(w, Start);
    PlayIsLegal(w, Start);
    OpenExactly(w, h, d);
    if Tried(h, d) {
      DestroysOnlyItsOwn(w, h, d);
    } else if Made(w, h, d) {
      TriedAtSomeTime(w, h, d);
    }
  }

  /** Blame is never taken back. */
  lemma {:induction false} BlameStays(w: World, h: History)
    ensures Blame(w, h) <= Blame(w, Play(w, h))
    decreases 31 - PlaceOf(h)
  {
    NextRises(w, h);
    if Next(w, h).Ask? {
      var c := Next(w, h).call;
      assert Blame(w, h) <= Blame(w, w.Then(h, c));
      BlameStays(w, w.Then(h, c));
    }
  }

  // ---- two ways to break a run -------------------------------------------------------------------

  /** A first reply whose key is no text ends the run at once: nothing is blamed on any scenario. */
  lemma NonTextKeyEndsTheRun(w: World)
    requires var r := w.reply(Start, Call(JiraCreate, "")); r.success && !r.field(Key).Str?
    ensures var h := Play(w, Start);
            h == w.Then(Start, Call(JiraCreate, "")) && Next(w, h) == Crash && Blame(w, h) == []
  {
    var h := w.Then(Start, Call(JiraCreate, ""));
    assert Blame(w, h.past) == [];
    RunIsDetermined(w, h);
  }

  /** A commit hash that is a number or an object ends the run with the branch it had just created left in place. */
  lemma NumericCommitLeavesTheBranch(w: World, h: History)
    requires Legal(w, h) && h.After? && h.call.spot == Commit && Breaking(Commit, h.reply)
    ensures Play(w, Start) == h && Open(w, h) == {Call(BranchDelete, w.branch)}
  {
    RunIsDetermined(w, h);
    OpenIsOwing(w, h);
  }

  ghost function Refusal(): Response {
    Response(false, 500, f => Null, "")
  }

  ghost function NumberReply(): Response {
    Response(true, 200, f => Number(true, true, "5"), "")
  }

  /** Every call is refused but the creation of a branch and the commit to it, whose replies hold numbers only. */
  ghost function BranchWorld(branch: string): World {
    World((h: History, c: Call) => if c.spot.BranchCreate? || c.spot.Commit? then NumberReply() else Refusal(), k => false,
          {PageCreate}, {}, Present, Missing, s => true, "", branch, "")
  }

  /** There is such a run: no issue and no page is created, the branch is, and its commit answers with a number. */
  lemma SomeRunLeavesItsBranch(branch: string)
    ensures var w := BranchWorld(branch); Call(BranchDelete, branch) in Open(w, Play(w, Start))
  {
    ReachesTheCommit(BranchWorld(branch), Refusal(), NumberReply());
  }

  lemma ReachesTheCommit(w: World, bad: Response, good: Response)
    requires !bad.success && good.success && Breaking(Commit, good)
    requires PageCreate in w.banned && SpaceTool(w).None? && w.bitbucket.Present? && Smooth(w)
    requires w.reply(Start, Call(JiraCreate, "")) == bad
    requires forall h :: w.reply(h, Call(Repo, "")) == bad
    requires forall h :: w.reply(h, Call(BranchCreate, w.branch)) == good && w.reply(h, Call(Commit, w.branch)) == good
    ensures Call(BranchDelete, w.branch) in Open(w, Play(w, Start))
  {
    var h1 := After(Start, Call(JiraCreate, ""), bad);
    var h2 := After(h1, Call(Repo, ""), bad);
    var h3 := After(h2, Call(BranchCreate, w.branch), good);
    var h4 := After(h3, Call(Commit, w.branch), good);
    assert Legal(w, h1) && Next(w, h1) == BbTurn(w) == Ask(Call(Repo, ""));
    assert Legal(w, h2) && Next(w, h2) == Ask(Call(BranchCreate, w.branch));
    assert Legal(w, h3) && Next(w, h3) == Ask(Call(Commit, w.branch));
    NumericCommitLeavesTheBranch(w, h4);
  }
}
