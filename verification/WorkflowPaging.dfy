/** The workflow listing: fetch a prefix of the listing, filter it, and cut a page out of what is left. */
module WorkflowPaging {
  import opened Prelude
  import Text

  datatype Workflow = Workflow(id: string, status: string, deptId: Option<string>)

  datatype Filter = Filter(deptId: Option<string>, status: Option<string>)

  /** A workflow without a department passes every department filter; an empty filter value is no filter. */
  predicate Matches(w: Workflow, f: Filter) {
    && (f.status.Some? && f.status.value != "" ==> w.status == Text.Lower(f.status.value))
    && (f.deptId.Some? && f.deptId.value != "" ==> w.deptId in {None, f.deptId})
  }

  /** The filter value by value: none and the empty text filter nothing; a status is looked for in lower case. */
  lemma FilterByValue(w: Workflow, dept: string, status: string, d: Option<string>, s: Option<string>)
    requires dept != "" && status != "" && d in {None, Some("")} && s in {None, Some("")}
    ensures Matches(w, Filter(d, s))
    ensures Matches(w, Filter(d, Some(status))) <==> w.status == Text.Lower(status)
    ensures Matches(w, Filter(Some(dept), s)) <==> w.deptId.None? || w.deptId.value == dept
    ensures Matches(w, Filter(Some(dept), Some(status))) <==> w.status == Text.Lower(status) && (w.deptId.None? || w.deptId.value == dept)
  {
    assert w.deptId in {None, Some(dept)} <==> w.deptId.None? || w.deptId.value == dept;
    assert d.None? || d.value == "";
    assert s.None? || s.value == "";
  }

  function Min(a: int, b: int): int {
    if a < b then a else b
  }

  /** `pages * size`, page by page. */
  ghost function Offset(pages: nat, size: nat): nat {
    if pages == 0 then 0 else Offset(pages - 1, size) + size
  }

  lemma {:induction false} OffsetIsProduct(pages: nat, size: nat)
    ensures Offset(pages, size) == pages * size
  {
    if pages > 0 {
      OffsetIsProduct(pages - 1, size);
      assert pages * size == (pages - 1) * size + size;
    }
  }

  lemma {:induction false} OffsetGrows(p: nat, q: nat, size: nat)
    requires p <= q
    ensures Offset(p, size) <= Offset(q, size) && (p < q ==> Offset(p, size) + size <= Offset(q, size))
  {
    if p < q { OffsetGrows(p, q - 1, size); }
  }

  // ---- positions: which entries of the listing a page shows ------------------------------

  /** Where the first `k` entries match, ascending. */
  ghost function Positions(listing: seq<Workflow>, k: nat, f: Filter): (r: seq<nat>)
    requires k <= |listing|
    ensures |r| <= k && forall j :: 0 <= j < |r| ==> r[j] < k
  {
    if k == 0 then []
    else Positions(listing, k - 1, f) + if Matches(listing[k - 1], f) then [k - 1] else []
  }

  /** What the client yields under a limit. */
  ghost function Fetched(listing: seq<Workflow>, limit: nat): nat {
    Min(limit, |listing|)
  }

  /** `rows[start:stop]`, clamped to the rows there are. */
  function Cut<T>(rows: seq<T>, start: nat, stop: nat): seq<T>
    requires start <= stop
  {
    rows[Min(start, |rows|)..Min(stop, |rows|)]
  }

  /** The positions of the listing that `page` shows. */
  ghost function PagePositions(listing: seq<Workflow>, f: Filter, page: nat, size: nat): seq<nat>
    requires page >= 1
  {
    Cut(Positions(listing, Fetched(listing, Offset(page, size)), f), Offset(page - 1, size), Offset(page, size))
  }

  lemma {:induction false} PositionsExtend(listing: seq<Workflow>, k: nat, m: nat, f: Filter)
    requires k <= m <= |listing|
    ensures Positions(listing, k, f) <= Positions(listing, m, f)
  {
    if k < m { PositionsExtend(listing, k, m - 1, f); }
  }

  lemma {:induction false} PositionsMatch(listing: seq<Workflow>, k: nat, f: Filter, j: nat)
    requires k <= |listing| && j < |Positions(listing, k, f)|
    ensures Matches(listing[Positions(listing, k, f)[j]], f)
    ensures j == |Positions(listing, Positions(listing, k, f)[j], f)|
  {
    if j < |Positions(listing, k - 1, f)| { PositionsMatch(listing, k - 1, f, j); }
  }

  /** They are the places of the matches, and no others. */
  lemma {:induction false} PositionsExactly(listing: seq<Workflow>, k: nat, f: Filter, i: nat)
    requires k <= |listing|
    ensures i in Positions(listing, k, f) <==> i < k && Matches(listing[i], f)
  {
    if k > 0 { PositionsExactly(listing, k - 1, f, i); }
  }

  lemma {:induction false} PositionsAscend(listing: seq<Workflow>, k: nat, f: Filter, a: nat, b: nat)
    requires k <= |listing| && a < b < |Positions(listing, k, f)|
    ensures Positions(listing, k, f)[a] < Positions(listing, k, f)[b]
  {
    var before := Positions(listing, k - 1, f);
    if b < |before| { PositionsAscend(listing, k - 1, f, a, b); }
  }

  /** A page is a stretch of the list of all matches, starting where it should and possibly cut short. */
  lemma PageIsStretch(listing: seq<Workflow>, f: Filter, page: nat, size: nat, j: nat)
    requires page >= 1 && j < |PagePositions(listing, f, page, size)|
    ensures var all, at := Positions(listing, |listing|, f), Offset(page - 1, size) + j;
            at < |all| && j < size && PagePositions(listing, f, page, size)[j] == all[at] && all[at] < Offset(page, size)
  {
    var rows, at := Positions(listing, Fetched(listing, Offset(page, size)), f), Offset(page - 1, size) + j;
    PositionsExtend(listing, Fetched(listing, Offset(page, size)), |listing|, f);
    assert at < |rows| && PagePositions(listing, f, page, size)[j] == rows[at];
  }

  lemma RanksAscend(p: nat, q: nat, size: nat, i: nat, j: nat)
    requires 1 <= p <= q && i < size && (p < q || i < j)
    ensures Offset(p - 1, size) + i < Offset(q - 1, size) + j
  {
    OffsetGrows(p - 1, q - 1, size);
  }

  /** No entry of the listing is on two pages, and pages follow the order of the listing. */
  lemma PagesAreOrdered(listing: seq<Workflow>, f: Filter, p: nat, q: nat, size: nat, i: nat, j: nat)
    requires 1 <= p <= q && (p < q || i < j)
    requires i < |PagePositions(listing, f, p, size)| && j < |PagePositions(listing, f, q, size)|
    ensures PagePositions(listing, f, p, size)[i] < PagePositions(listing, f, q, size)[j]
  {
    PageIsStretch(listing, f, p, size, i);
    PageIsStretch(listing, f, q, size, j);
    RanksAscend(p, q, size, i, j);
    PositionsAscend(listing, |listing|, f, Offset(p - 1, size) + i, Offset(q - 1, size) + j);
  }

  // ---- exactly which matches are ever shown ----------------------------------------------------

  /** Entry `i` of the listing is on this page. */
  ghost predicate ShownOn(listing: seq<Workflow>, f: Filter, page: nat, size: nat, i: nat)
    requires page >= 1
  {
    i in PagePositions(listing, f, page, size)
  }

  /**
   Because the fetch limit applies before the filter, a match can fall between the pages. A match with `r`
   matches before it belongs to the page whose range holds `r`; it is shown there if it lies within the entries
   that page fetches, and on no page at all otherwise.
   */
  lemma ShownExactly(listing: seq<Workflow>, f: Filter, size: nat, i: nat, page: nat)
    requires page >= 1 && i < |listing| && Matches(listing[i], f)
    ensures var r := |Positions(listing, i, f)|;
            ShownOn(listing, f, page, size, i) <==> Offset(page - 1, size) <= r < Offset(page, size) && i < Offset(page, size)
  {
    if ShownOn(listing, f, page, size, i) {
      ShownIsInRange(listing, f, size, i, page);
    } else if Offset(page - 1, size) <= |Positions(listing, i, f)| < Offset(page, size) && i < Offset(page, size) {
      InRangeIsShown(listing, f, size, i, page);
    }
  }

  lemma ShownIsInRange(listing: seq<Workflow>, f: Filter, size: nat, i: nat, page: nat)
    requires page >= 1 && ShownOn(listing, f, page, size, i)
    ensures i < |listing| && i < Offset(page, size) && Offset(page - 1, size) <= |Positions(listing, i, f)| < Offset(page, size)
  {
    var shown := PagePositions(listing, f, page, size);
    var j :| 0 <= j < |shown| && shown[j] == i;
    PageIsStretch(listing, f, page, size, j);
    PositionsMatch(listing, |listing|, f, Offset(page - 1, size) + j);
  }

  lemma InRangeIsShown(listing: seq<Workflow>, f: Filter, size: nat, i: nat, page: nat)
    requires page >= 1 && i < |listing| && Matches(listing[i], f) && i < Offset(page, size)
    requires Offset(page - 1, size) <= |Positions(listing, i, f)| < Offset(page, size)
    ensures ShownOn(listing, f, page, size, i)
  {
    var r, k := |Positions(listing, i, f)|, Fetched(listing, Offset(page, size));
    var rows := Positions(listing, k, f);
    assert Positions(listing, i + 1, f)[r] == i;
    PositionsExtend(listing, i + 1, k, f);
    assert rows[r] == i;
    assert PagePositions(listing, f, page, size)[r - Offset(page - 1, size)] == rows[r];
  }

  /** The page a match with `r` matches before it belongs to. */
  lemma HomePage(r: nat, size: nat) returns (page: nat)
    requires size >= 1
    ensures page == r / size + 1 && Offset(page - 1, size) <= r < Offset(page, size)
  {
    page := r / size + 1;
    OffsetIsProduct(page - 1, size);
    OffsetIsProduct(page, size);
    assert page * size == (page - 1) * size + size;
  }

  /** A match is on no page at all exactly when its own page stops fetching before it. */
  lemma NeverShownExactly(listing: seq<Workflow>, f: Filter, size: nat, i: nat)
    requires size >= 1 && i < |listing| && Matches(listing[i], f)
    ensures NeverShown(listing, f, size, i) <==> i >= Offset(|Positions(listing, i, f)| / size + 1, size)
  {
    var r := |Positions(listing, i, f)|;
    var home := HomePage(r, size);
    ShownExactly(listing, f, size, i, home);
    forall page: nat | page >= 1 && page != home ensures !ShownOn(listing, f, page, size, i) {
      ShownExactly(listing, f, size, i, page);
      if page < home { OffsetGrows(page, home - 1, size); } else { OffsetGrows(home, page - 1, size); }
    }
  }

  /** With a filter a match may be on no page: page 1 fetches only the other entry, page 2 starts behind it. */
  lemma FilteredMatchIsLost()
    ensures exists listing: seq<Workflow>, f, i: nat :: i < |listing| && Matches(listing[i], f) && NeverShown(listing, f, 1, i)
  {
    var other, wanted := Workflow("a", "running", Some("ops")), Workflow("b", "running", Some("qa"));
    var listing, f := [other, wanted], Filter(Some("qa"), None);
    assert Matches(listing[1], f) && !Matches(listing[0], f);
    assert Positions(listing, 1, f) == [];
    NeverShownExactly(listing, f, 1, 1);
    OffsetIsProduct(1, 1);
    assert NeverShown(listing, f, 1, 1);
  }

  ghost predicate NeverShown(listing: seq<Workflow>, f: Filter, size: nat, i: nat) {
    forall page: nat :: page >= 1 ==> !ShownOn(listing, f, page, size, i)
  }

  /** Without a filter every entry is a match. */
  lemma {:induction false} UnfilteredPositions(listing: seq<Workflow>, k: nat, f: Filter)
    requires k <= |listing| && forall i :: 0 <= i < |listing| ==> Matches(listing[i], f)
    ensures |Positions(listing, k, f)| == k && forall i :: 0 <= i < k ==> Positions(listing, k, f)[i] == i
  {
    if k > 0 { UnfilteredPositions(listing, k - 1, f); }
  }

  /** Pages 1 to `pages`, one after the other. */
  ghost function Pages(listing: seq<Workflow>, f: Filter, pages: nat, size: nat): seq<nat> {
    if pages == 0 then [] else Pages(listing, f, pages - 1, size) + PagePositions(listing, f, pages, size)
  }

  /** Unfiltered pages put together are the listing from the top, with nothing missing or repeated. */
  lemma {:induction false} PagesMakeAPrefix(listing: seq<Workflow>, f: Filter, pages: nat, size: nat)
    requires forall i :: 0 <= i < |listing| ==> Matches(listing[i], f)
    ensures var n := Min(Offset(pages, size), |listing|);
            |Pages(listing, f, pages, size)| == n && forall i :: 0 <= i < n ==> Pages(listing, f, pages, size)[i] == i
  {
    if pages > 0 {
      PagesMakeAPrefix(listing, f, pages - 1, size);
      UnfilteredPositions(listing, Fetched(listing, Offset(pages, size)), f);
    }
  }

  // ---- pages reached by tokens ---------------------------------------------------------------

  /** Where the entries from place `from` on, up to place `k`, match; a token stands for such a place. */
  ghost function PositionsFrom(listing: seq<Workflow>, from: nat, k: nat, f: Filter): (r: seq<nat>)
    requires k <= |listing|
    ensures forall j :: 0 <= j < |r| ==> from <= r[j] < k
  {
    if k <= from then []
    else PositionsFrom(listing, from, k - 1, f) + if Matches(listing[k - 1], f) then [k - 1] else []
  }

  /** The place behind what a call at place `from` fetches, for which the client's next token stands. */
  ghost function Behind(listing: seq<Workflow>, from: nat, page: nat, size: nat): nat {
    Min(from + Offset(page, size), |listing|)
  }

  /** The positions a call with a token shows: the first `size` matches of the stretch it fetches. */
  ghost function TokenPage(listing: seq<Workflow>, f: Filter, from: nat, page: nat, size: nat): seq<nat> {
    Cut(PositionsFrom(listing, from, Behind(listing, from, page, size), f), 0, size)
  }

  lemma {:induction false} PositionsSplit(listing: seq<Workflow>, from: nat, k: nat, f: Filter)
    requires from <= k <= |listing|
    ensures Positions(listing, k, f) == Positions(listing, from, f) + PositionsFrom(listing, from, k, f)
  {
    if from < k { PositionsSplit(listing, from, k - 1, f); }
  }

  lemma {:induction false} PositionsFromAscend(listing: seq<Workflow>, from: nat, k: nat, f: Filter, a: nat, b: nat)
    requires k <= |listing| && a < b < |PositionsFrom(listing, from, k, f)|
    ensures PositionsFrom(listing, from, k, f)[a] < PositionsFrom(listing, from, k, f)[b]
  {
    if b < |PositionsFrom(listing, from, k - 1, f)| { PositionsFromAscend(listing, from, k - 1, f, a, b); }
  }

  /** A page reached by a token shows no entry twice, and keeps the order of the listing. */
  lemma TokenPageAscends(listing: seq<Workflow>, f: Filter, from: nat, page: nat, size: nat, a: nat, b: nat)
    requires a < b < |TokenPage(listing, f, from, page, size)|
    ensures TokenPage(listing, f, from, page, size)[a] < TokenPage(listing, f, from, page, size)[b]
  {
    PositionsFromAscend(listing, from, Behind(listing, from, page, size), f, a, b);
  }

  lemma {:induction false} PositionsFromExtend(listing: seq<Workflow>, from: nat, k: nat, m: nat, f: Filter)
    requires k <= m <= |listing|
    ensures PositionsFrom(listing, from, k, f) <= PositionsFrom(listing, from, m, f)
  {
    if k < m { PositionsFromExtend(listing, from, k, m - 1, f); }
  }

  lemma {:induction false} PositionsFromRank(listing: seq<Workflow>, from: nat, k: nat, f: Filter, j: nat)
    requires k <= |listing| && j < |PositionsFrom(listing, from, k, f)|
    ensures var i := PositionsFrom(listing, from, k, f)[j]; Matches(listing[i], f) && j == |PositionsFrom(listing, from, i, f)|
  {
    if j < |PositionsFrom(listing, from, k - 1, f)| { PositionsFromRank(listing, from, k - 1, f, j); }
  }

  /** A call with a token shows an entry exactly when it is a match it fetches with fewer than `size` fetched matches before it. */
  lemma TokenShowsExactly(listing: seq<Workflow>, f: Filter, from: nat, page: nat, size: nat, i: nat)
    ensures i in TokenPage(listing, f, from, page, size) <==>
              && from <= i < Behind(listing, from, page, size) && Matches(listing[i], f)
              && |PositionsFrom(listing, from, i, f)| < size
  {
    var k := Behind(listing, from, page, size);
    var all := PositionsFrom(listing, from, k, f);
    if i in TokenPage(listing, f, from, page, size) {
      var j :| 0 <= j < |all| && j < size && all[j] == i;
      PositionsFromRank(listing, from, k, f, j);
    }
    if from <= i < k && Matches(listing[i], f) && |PositionsFrom(listing, from, i, f)| < size {
      var r := |PositionsFrom(listing, from, i, f)|;
      assert PositionsFrom(listing, from, i + 1, f)[r] == i;
      PositionsFromExtend(listing, from, i + 1, k, f);
      assert Cut(all, 0, size)[r] == all[r];
    }
  }

  /** Nothing a call with a token fetches is dropped exactly when no more than `size` of it matches, as on page 1 always. */
  lemma TokenDropsNothingExactly(listing: seq<Workflow>, f: Filter, from: nat, page: nat, size: nat)
    ensures var all := PositionsFrom(listing, from, Behind(listing, from, page, size), f);
            TokenPage(listing, f, from, page, size) == all <==> |all| <= size
    ensures page == 1 ==> TokenPage(listing, f, from, page, size) == PositionsFrom(listing, from, Behind(listing, from, 1, size), f)
  {
    var k := Behind(listing, from, page, size);
    StretchLength(listing, from, k, f);
    assert Offset(1, size) == Offset(0, size) + size == size;
    var all := PositionsFrom(listing, from, k, f);
    assert |all| <= size ==> Cut(all, 0, size) == all;
  }

  lemma {:induction false} StretchLength(listing: seq<Workflow>, from: nat, k: nat, f: Filter)
    requires k <= |listing|
    ensures |PositionsFrom(listing, from, k, f)| <= if from < k then k - from else 0
  {
    if from < k { StretchLength(listing, from, k - 1, f); }
  }

  /** How far `calls` calls for page 1 get, each with the token of the one before. */
  ghost function Reach(listing: seq<Workflow>, calls: nat, size: nat): nat {
    Min(Offset(calls, size), |listing|)
  }

  /** What they show. */
  ghost function Walk(listing: seq<Workflow>, f: Filter, calls: nat, size: nat): seq<nat> {
    if calls == 0 then []
    else Walk(listing, f, calls - 1, size) + TokenPage(listing, f, Reach(listing, calls - 1, size), 1, size)
  }

  lemma OneMoreCall(listing: seq<Workflow>, f: Filter, calls: nat, size: nat)
    requires calls > 0
    ensures var from, to := Reach(listing, calls - 1, size), Reach(listing, calls, size);
            from <= to && TokenPage(listing, f, from, 1, size) == PositionsFrom(listing, from, to, f)
  {
    assert Offset(1, size) == Offset(0, size) + size == size;
    TokenDropsNothingExactly(listing, f, Reach(listing, calls - 1, size), 1, size);
  }

  ghost predicate Complete(listing: seq<Workflow>, f: Filter, calls: nat, size: nat) {
    Walk(listing, f, calls, size) == Positions(listing, Reach(listing, calls, size), f)
  }

  /** One call more shows the matches of one stretch more. */
  lemma WalkOn(listing: seq<Workflow>, f: Filter, calls: nat, size: nat)
    requires calls > 0 && Complete(listing, f, calls - 1, size)
    ensures Complete(listing, f, calls, size)
  {
    OneMoreCall(listing, f, calls, size);
    PositionsSplit(listing, Reach(listing, calls - 1, size), Reach(listing, calls, size), f);
  }

  lemma WalkStarts(listing: seq<Workflow>, f: Filter, size: nat)
    ensures Complete(listing, f, 0, size)
  {
  }

  /** Following tokens on page 1 shows every match of the entries passed exactly once and in order, filter or not. */
  lemma {:induction false} WalkShowsEveryMatch(listing: seq<Workflow>, f: Filter, calls: nat, size: nat)
    ensures Complete(listing, f, calls, size)
  {
    if calls == 0 {
      WalkStarts(listing, f, size);
    } else {
      WalkShowsEveryMatch(listing, f, calls - 1, size);
      WalkOn(listing, f, calls, size);
    }
  }

  /** With page 2 and a token, one of two fetched matches is dropped, and the next token stands behind both. */
  lemma TokenWithPageTwoDrops(listing: seq<Workflow>, f: Filter)
    requires |listing| == 2 && Matches(listing[0], f) && Matches(listing[1], f)
    ensures TokenPage(listing, f, 0, 2, 1) == [0] && Behind(listing, 0, 2, 1) == 2
  {
    OffsetIsProduct(2, 1);
    assert Behind(listing, 0, 2, 1) == 2;
    assert PositionsFrom(listing, 0, 0, f) == [];
    assert PositionsFrom(listing, 0, 1, f) == [0];
    assert PositionsFrom(listing, 0, 2, f) == [0, 1];
    assert Cut([0, 1], 0, 1) == [0];
  }

  // ---- the adapter -------------------------------------------------------------------------

  ghost function Entries(listing: seq<Workflow>, positions: seq<nat>): seq<Workflow>
    requires forall j :: 0 <= j < |positions| ==> positions[j] < |listing|
  {
    seq(|positions|, j requires 0 <= j < |positions| => listing[positions[j]])
  }

  lemma EntriesOfCut(listing: seq<Workflow>, positions: seq<nat>, start: nat, stop: nat)
    requires start <= stop && forall j :: 0 <= j < |positions| ==> positions[j] < |listing|
    ensures Entries(listing, Cut(positions, start, stop)) == Cut(Entries(listing, positions), start, stop)
  {
  }

  /** The async loop over the client's iterator: matching entries of the first `limit`, stopping at `limit` rows. */
  method CollectRows(listing: seq<Workflow>, f: Filter, limit: nat) returns (rows: seq<Workflow>)
    ensures rows == Entries(listing, Positions(listing, Fetched(listing, limit), f))
  {
    rows := [];
    ghost var positions: seq<nat> := [];
    var n := Min(limit, |listing|);
    var i := 0;
    while i < n
      invariant 0 <= i <= n
      invariant positions == Positions(listing, i, f) && rows == Entries(listing, positions)
    {
      if Matches(listing[i], f) {
        rows, positions := rows + [listing[i]], positions + [i];
        if |rows| >= limit {
          i := i + 1;
          break;
        }
      }
      i := i + 1;
    }
  }

  /** The matches behind a token, in the client's numbering and in that of the listing. */
  lemma {:induction false} PositionsShift(listing: seq<Workflow>, from: nat, n: nat, f: Filter)
    requires from + n <= |listing|
    ensures var a, b := Positions(listing[from..], n, f), PositionsFrom(listing, from, from + n, f);
            |a| == |b| && forall j :: 0 <= j < |a| ==> b[j] == from + a[j]
  {
    if n > 0 {
      PositionsShift(listing, from, n - 1, f);
      assert listing[from..][n - 1] == listing[from + n - 1];
    }
  }

  lemma TokenItems(listing: seq<Workflow>, f: Filter, from: nat, page: nat, size: nat)
    requires from <= |listing|
    ensures var tail := listing[from..];
            Cut(Entries(tail, Positions(tail, Fetched(tail, Offset(page, size)), f)), 0, size)
            == Entries(listing, TokenPage(listing, f, from, page, size))
  {
    var tail, n := listing[from..], Fetched(listing[from..], Offset(page, size));
    assert from + n == Behind(listing, from, page, size);
    PositionsShift(listing, from, n, f);
    EntriesOfCut(tail, Positions(tail, n, f), 0, size);
    EntriesOfCut(listing, PositionsFrom(listing, from, from + n, f), 0, size);
    assert Entries(tail, Positions(tail, n, f)) == Entries(listing, PositionsFrom(listing, from, from + n, f));
  }

  /**
   `list_workflows`: `listing` is all the client could yield, and a token stands for a place in it. Without a token
   the page is counted from the top, with one the rows start the page. `next` is the place the returned token stands for.
   */
  method ListWorkflows(listing: seq<Workflow>, f: Filter, page: nat, size: nat, token: Option<nat>)
    returns (items: seq<Workflow>, next: nat)
    requires page >= 1 && size >= 1 && (token.Some? ==> token.value <= |listing|)
    ensures token.None? ==> items == Entries(listing, PagePositions(listing, f, page, size))
    ensures token.Some? ==> items == Entries(listing, TokenPage(listing, f, token.value, page, size))
    ensures var shown := if token.None? then PagePositions(listing, f, page, size) else TokenPage(listing, f, token.value, page, size);
            |items| == |shown| && forall j :: 0 <= j < |items| ==> items[j] == listing[shown[j]]
    ensures next == Behind(listing, if token.Some? then token.value else 0, page, size)
    ensures var reached := (if token.Some? then token.value else 0) + page * size;
            next == if reached < |listing| then reached else |listing|
  {
    OffsetIsProduct(page, size);
    OffsetGrows(1, page, size);
    var from := if token.Some? then token.value else 0;
    var fetchLimit := if page * size > size then page * size else size;
    assert fetchLimit == Offset(page, size);
    var rows := CollectRows(listing[from..], f, fetchLimit);
    next := Min(from + fetchLimit, |listing|);
    if token.Some? {
      TokenItems(listing, f, from, page, size);
      items := Cut(rows, 0, size);
    } else {
      assert listing[from..] == listing;
      items := CountedPage(listing, f, rows, page, size);
    }
  }

  /** Without a token: the page's stretch of the rows. */
  method CountedPage(listing: seq<Workflow>, f: Filter, rows: seq<Workflow>, page: nat, size: nat) returns (items: seq<Workflow>)
    requires page >= 1 && rows == Entries(listing, Positions(listing, Fetched(listing, Offset(page, size)), f))
    ensures items == Entries(listing, PagePositions(listing, f, page, size))
  {
    OffsetIsProduct(page, size);
    OffsetIsProduct(page - 1, size);
    var start := (page - 1) * size;
    items := Cut(rows, start, start + size);
    EntriesOfCut(listing, Positions(listing, Fetched(listing, Offset(page, size)), f), start, start + size);
  }
}
