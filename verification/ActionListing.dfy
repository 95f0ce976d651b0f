// Listing actions page by page (internal/db/db.go, ListActionsFiltered;
// internal/handlers/actions.go, the cursor and limit of ListActions).
module ActionListing {
  import opened Sql
  import opened Tables
  import opened Keyset
  import opened WhereClauses

  datatype Filter = Filter(
    actionType: Option<string>, creator: Option<string>, state: Option<string>, supernode: Option<string>,
    fromHeight: Option<int>, toHeight: Option<int>, limit: int, cursorID: Option<nat>)

  datatype Stored = Stored(id: nat, row: Action)

  // What the caller asks for, apart from the cursor.
  predicate Matches(f: Filter, row: Action) {
    && (f.actionType.Some? ==> row.actionType == f.actionType.value)
    && (f.creator.Some? ==> row.creator == f.creator.value)
    && (f.state.Some? ==> row.state == f.state.value)
    && (f.supernode.Some? ==> row.superNodes.Some? && f.supernode.value in row.superNodes.value)
    && (f.fromHeight.Some? ==> f.fromHeight.value <= row.blockHeight)
    && (f.toHeight.Some? ==> row.blockHeight <= f.toHeight.value)
  }

  // ---- The query text ----

  datatype Column = TypeEq | CreatorEq | StateEq | HasSupernode | HeightFrom | HeightTo | IdBelow

  function Eval(test: Column, value: Option<Arg>, x: Stored): Tri {
    match (test, value)
    case (TypeEq, Some(Text(s))) => FromBool(x.row.actionType == s)
    case (CreatorEq, Some(Text(s))) => FromBool(x.row.creator == s)
    case (StateEq, Some(Text(s))) => FromBool(x.row.state == s)
    case (HasSupernode, Some(Text(s))) =>
      if x.row.superNodes.None? then Unknown else FromBool(s in x.row.superNodes.value)
    case (HeightFrom, Some(Num(n))) => FromBool(x.row.blockHeight >= n)
    case (HeightTo, Some(Num(n))) => FromBool(x.row.blockHeight <= n)
    case (IdBelow, Some(Num(n))) => FromBool(x.id < n)
    case _ => Unknown
  }

  function NumArg(v: Option<int>): Option<Arg> {
    if v.Some? then Some(Num(v.value)) else None
  }

  function IdArg(v: Option<nat>): Option<Arg> {
    if v.Some? then Some(Num(v.value)) else None
  }

  // The tests that a filter stands for.
  function TextTests(f: Filter): seq<Test<Column>> {
    Optional(TypeEq, TextArg(f.actionType)) + Optional(CreatorEq, TextArg(f.creator))
    + Optional(StateEq, TextArg(f.state)) + Optional(HasSupernode, TextArg(f.supernode))
  }

  function Tests(f: Filter): seq<Test<Column>> {
    TextTests(f) + Optional(HeightFrom, NumArg(f.fromHeight)) + Optional(HeightTo, NumArg(f.toHeight))
    + Optional(IdBelow, IdArg(f.cursorID))
  }

  method BuildWhere(f: Filter) returns (conditions: seq<Cond<Column>>, args: seq<Arg>)
    ensures Bound(conditions, args) == Tests(f)
  {
    conditions, args := [], [];
    var argPos := 1;
    conditions, args, argPos := AppendOptional(conditions, args, argPos, TypeEq, TextArg(f.actionType));
    conditions, args, argPos := AppendOptional(conditions, args, argPos, CreatorEq, TextArg(f.creator));
    conditions, args, argPos := AppendOptional(conditions, args, argPos, StateEq, TextArg(f.state));
    conditions, args, argPos := AppendOptional(conditions, args, argPos, HasSupernode, TextArg(f.supernode));
    assert Bound(conditions, args) == TextTests(f);
    conditions, args, argPos := AppendOptional(conditions, args, argPos, HeightFrom, NumArg(f.fromHeight));
    conditions, args, argPos := AppendOptional(conditions, args, argPos, HeightTo, NumArg(f.toHeight));
    conditions, args, argPos := AppendOptional(conditions, args, argPos, IdBelow, IdArg(f.cursorID));
  }

  lemma TextTestsMean(f: Filter, x: Stored)
    ensures Selects(Eval, TextTests(f), x) <==>
              && (f.actionType.Some? ==> x.row.actionType == f.actionType.value)
              && (f.creator.Some? ==> x.row.creator == f.creator.value)
              && (f.state.Some? ==> x.row.state == f.state.value)
              && (f.supernode.Some? ==> x.row.superNodes.Some? && f.supernode.value in x.row.superNodes.value)
  {
    SelectsFour(Eval, Optional(TypeEq, TextArg(f.actionType)), Optional(CreatorEq, TextArg(f.creator)),
                Optional(StateEq, TextArg(f.state)), Optional(HasSupernode, TextArg(f.supernode)), x);
    SelectsOptional(Eval, TypeEq, TextArg(f.actionType), x);
    SelectsOptional(Eval, CreatorEq, TextArg(f.creator), x);
    SelectsOptional(Eval, StateEq, TextArg(f.state), x);
    SelectsOptional(Eval, HasSupernode, TextArg(f.supernode), x);
  }

  // The assembled clause selects the rows the filter describes, beyond the
  // cursor.
  lemma TestsMeanFilter(f: Filter, x: Stored)
    ensures Selects(Eval, Tests(f), x) <==> Matches(f, x.row) && (f.cursorID.Some? ==> x.id < f.cursorID.value)
    ensures Selects(Eval, Tests(f), x) <==>
              && (f.actionType.Some? ==> x.row.actionType == f.actionType.value)
              && (f.creator.Some? ==> x.row.creator == f.creator.value)
              && (f.state.Some? ==> x.row.state == f.state.value)
              && (f.supernode.Some? ==> x.row.superNodes.Some? && f.supernode.value in x.row.superNodes.value)
              && (f.fromHeight.Some? ==> f.fromHeight.value <= x.row.blockHeight)
              && (f.toHeight.Some? ==> x.row.blockHeight <= f.toHeight.value)
              && (f.cursorID.Some? ==> x.id < f.cursorID.value)
  {
    SelectsFour(Eval, TextTests(f), Optional(HeightFrom, NumArg(f.fromHeight)),
                Optional(HeightTo, NumArg(f.toHeight)), Optional(IdBelow, IdArg(f.cursorID)), x);
    TextTestsMean(f, x);
    SelectsOptional(Eval, HeightFrom, NumArg(f.fromHeight), x);
    SelectsOptional(Eval, HeightTo, NumArg(f.toHeight), x);
    SelectsOptional(Eval, IdBelow, IdArg(f.cursorID), x);
  }

  // ---- One page ----

  // ORDER BY "actionID" DESC
  function DescRank(id: nat): real {
    -(id as real)
  }

  lemma DescRankInjective()
    ensures Injective(DescRank)
  {
    forall a ensures InjectiveAt(DescRank, a) {
    }
  }

  ghost function Selected(t: ActionTable, tests: seq<Test<Column>>): set<nat> {
    set id | id in t && Selects(Eval, tests, Stored(id, t[id]))
  }

  ghost function MatchingIds(t: ActionTable, f: Filter): set<nat> {
    set id | id in t && Matches(f, t[id])
  }

  function IdsOf(rows: seq<Stored>): (ids: seq<nat>)
    ensures |ids| == |rows| && forall i :: 0 <= i < |ids| ==> ids[i] == rows[i].id
  {
    seq(|rows|, i requires 0 <= i < |rows| => rows[i].id)
  }

  // What SELECT ... WHERE tests ORDER BY "actionID" DESC LIMIT n returns.
  ghost predicate IsAnswer(t: ActionTable, tests: seq<Test<Column>>, n: nat, rows: seq<Stored>) {
    && IdsOf(rows) == FirstOf(Listing(DescRank, Selected(t, tests)), n)
    && forall i :: 0 <= i < |rows| ==> rows[i].id in t && rows[i].row == t[rows[i].id]
  }

  // The database may fail, for instance on a cursor that is no BIGINT;
  // otherwise it answers the query.
  ghost predicate FaithfulQuery(t: ActionTable, query: (seq<Cond<Column>>, seq<Arg>, nat) -> Result<seq<Stored>>) {
    forall conds, args, n: nat :: query(conds, args, n).Ok? ==>
      IsAnswer(t, Bound(conds, args), n, query(conds, args, n).value)
  }

  // One of the rows that are fetched, the extra one included, has a NULL
  // mimeType.
  ghost predicate FetchesNull(t: ActionTable, f: Filter) {
    var left := Listing(DescRank, After(DescRank, MatchingIds(t, f), f.cursorID));
    exists id :: id in FirstOf(left, EffectiveLimit(f.limit) + 1) && id in t && t[id].mimeType.None?
  }

  // A page is the first `limit` matching rows after the cursor, newest id
  // first, and the flag says whether more follow.  Unless the query itself
  // fails, the call fails exactly when a fetched row has a NULL mimeType, even
  // if that is only the extra row.
  method ListActionsFiltered(ghost t: ActionTable, f: Filter,
                             query: (seq<Cond<Column>>, seq<Arg>, nat) -> Result<seq<Stored>>)
    returns (r: Result<Page<Stored>>)
    requires FaithfulQuery(t, query)
    ensures r.Ok? ==>
              && Page(IdsOf(r.value.items), r.value.hasMore)
                   == FetchPage(DescRank, MatchingIds(t, f), f.cursorID, EffectiveLimit(f.limit))
              && (forall x :: x in r.value.items ==> x.id in t && x.row == t[x.id] && x.row.mimeType.Some?)
              && |r.value.items| <= (if f.limit <= 0 then 1 else f.limit)
    ensures r.Ok? ==> !FetchesNull(t, f)
    ensures (forall conds, args, n: nat :: query(conds, args, n).Ok?) ==> (r.Err? <==> FetchesNull(t, f))
  {
    var limit := f.limit;
    if limit <= 0 {
      limit := 1;
    }
    var conditions, args := BuildWhere(f);
    var answer := query(conditions, args, limit + 1);
    if answer.Err? {
      return Err;
    }
    var rows := answer.value;
    assert IsAnswer(t, Tests(f), limit + 1, rows);
    SelectedIsAfter(t, f);
    TrimmedIsPage(DescRank, MatchingIds(t, f), f.cursorID, limit, IdsOf(rows));
    var scanned := ScanRows(rows);
    FetchesNullIff(t, f, rows);
    if !scanned {
      return Err;
    }
    if |rows| > limit {
      assert IdsOf(rows[..limit]) == IdsOf(rows)[..limit];
      return Ok(Page(rows[..limit], true));
    }
    return Ok(Page(rows, false));
  }

  // Scanning the rows into Go strings fails on a NULL.
  method ScanRows(rows: seq<Stored>) returns (ok: bool)
    ensures ok <==> forall i :: 0 <= i < |rows| ==> rows[i].row.mimeType.Some?
  {
    for i := 0 to |rows|
      invariant forall j :: 0 <= j < i ==> rows[j].row.mimeType.Some?
    {
      if rows[i].row.mimeType.None? {
        return false;
      }
    }
    return true;
  }

  lemma FetchesNullIff(t: ActionTable, f: Filter, rows: seq<Stored>)
    requires IsAnswer(t, Tests(f), EffectiveLimit(f.limit) + 1, rows)
    ensures FetchesNull(t, f) <==> exists i :: 0 <= i < |rows| && rows[i].row.mimeType.None?
  {
    SelectedIsAfter(t, f);
    var ids := IdsOf(rows);
    forall i | 0 <= i < |rows| && rows[i].row.mimeType.None? ensures FetchesNull(t, f) {
      assert ids[i] in ids && rows[i].row == t[ids[i]];
    }
    if FetchesNull(t, f) {
      var id :| id in ids && id in t && t[id].mimeType.None?;
      var i :| 0 <= i < |ids| && ids[i] == id;
      assert rows[i].row.mimeType.None?;
    }
  }

  lemma SelectedIsAfter(t: ActionTable, f: Filter)
    ensures Selected(t, Tests(f)) == After(DescRank, MatchingIds(t, f), f.cursorID)
  {
    forall id | id in t
      ensures Selects(Eval, Tests(f), Stored(id, t[id])) <==>
                Matches(f, t[id]) && (f.cursorID.Some? ==> id < f.cursorID.value)
    {
      TestsMeanFilter(f, Stored(id, t[id]));
    }
  }

  // ---- Limits and cursors of the handler ----

  // The limit parameter: absent, unparseable, or a number.
  datatype LimitParam = Absent | Invalid | Given(n: int)

  // Default 50, clamped to 1..200; a non-number is a client error.
  method ParseLimit(p: LimitParam) returns (limit: Result<nat>)
    ensures limit.Err? <==> p == Invalid
    ensures limit.Ok? ==> 1 <= limit.value <= 200
    ensures p.Given? && 1 <= p.n <= 200 ==> limit == Ok(p.n)
    ensures p.Given? && p.n < 1 ==> limit == Ok(1)
    ensures p.Given? && p.n > 200 ==> limit == Ok(200)
    ensures p == Absent ==> limit == Ok(50)
  {
    if p.Invalid? {
      return Err;
    }
    if p.Absent? {
      return Ok(50);
    }
    if p.n < 1 {
      return Ok(1);
    } else if p.n > 200 {
      return Ok(200);
    }
    return Ok(p.n);
  }

  // The cursor the handler issues: the id of the last row of a page that has
  // a successor.  (The timestamp in the cursor is never read by the query.)
  method IssueCursor(page: Page<Stored>) returns (cursor: Option<nat>)
    ensures cursor == NextCursor(Page(IdsOf(page.items), page.hasMore))
    ensures cursor == if page.hasMore && page.items != [] then Some(page.items[|page.items| - 1].id) else None
  {
    if page.hasMore && |page.items| > 0 {
      var last := page.items[|page.items| - 1];
      return Some(last.id);
    }
    return None;
  }

  // ---- Whole walks ----

  // The ids that match when each page is fetched.
  ghost function Snapshots(tables: seq<ActionTable>, f: Filter): (s: seq<set<nat>>)
    ensures |s| == |tables| && forall i :: 0 <= i < |s| ==> s[i] == MatchingIds(tables[i], f)
  {
    seq(|tables|, i requires 0 <= i < |tables| => MatchingIds(tables[i], f))
  }

  // Following cursors while the table changes: ids strictly decrease, so none
  // repeats; every row of a page matched when that page was fetched; and every
  // row present and matching throughout is returned.
  lemma {:induction false} WalkUnderUpserts(tables: seq<ActionTable>, f: Filter, limit: nat)
    requires 1 <= limit
    ensures var pages := Walk(DescRank, Snapshots(tables, f), None, limit);
            && (forall i, j :: 0 <= i < j < |Items(pages)| ==> Items(pages)[j] < Items(pages)[i])
            && |pages| <= |tables|
            && (forall i, id :: 0 <= i < |pages| && id in pages[i].items ==> id in MatchingIds(tables[i], f))
            && (forall id :: id in Items(pages) ==> exists i :: 0 <= i < |tables| && id in MatchingIds(tables[i], f))
            && (Finished(pages) ==>
                  forall id :: (forall i :: 0 <= i < |tables| ==> id in MatchingIds(tables[i], f)) ==>
                    id in Items(pages))
  {
    var snapshots := Snapshots(tables, f);
    var pages := Walk(DescRank, snapshots, None, limit);
    DescRankInjective();
    WalkAscends(DescRank, snapshots, None, limit);
    forall i, j | 0 <= i < j < |Items(pages)| ensures Items(pages)[j] < Items(pages)[i] {
      assert DescRank(Items(pages)[i]) < DescRank(Items(pages)[j]);
    }
    if pages != [] {
      WalkSound(DescRank, snapshots, None, limit, |pages| - 1);
    }
    forall i, id | 0 <= i < |pages| && id in pages[i].items ensures id in MatchingIds(tables[i], f) {
      WalkSound(DescRank, snapshots, None, limit, i);
    }
    forall id | id in Items(pages) ensures exists i :: 0 <= i < |tables| && id in MatchingIds(tables[i], f) {
      ItemsOfPages(pages, id);
      var i :| 0 <= i < |pages| && id in pages[i].items;
      assert id in MatchingIds(tables[i], f);
    }
    if Finished(pages) {
      forall id | forall i :: 0 <= i < |tables| ==> id in MatchingIds(tables[i], f) ensures id in Items(pages) {
        WalkComplete(DescRank, snapshots, None, limit, id);
      }
    }
  }

  // On a fixed table the pages concatenate to the full listing.
  lemma {:induction false} WalkOfFixedTable(t: ActionTable, f: Filter, limit: nat, tables: seq<ActionTable>)
    requires 1 <= limit && tables != []
    requires forall i :: 0 <= i < |tables| ==> tables[i] == t
    requires |MatchingIds(t, f)| <= |tables| * limit
    ensures var pages := Walk(DescRank, Snapshots(tables, f), None, limit);
            Finished(pages) && Items(pages) == Listing(DescRank, MatchingIds(t, f))
  {
    DescRankInjective();
    assert After(DescRank, MatchingIds(t, f), None) == MatchingIds(t, f);
    WalkFixed(DescRank, MatchingIds(t, f), Snapshots(tables, f), None, limit);
  }

  // However the table changes, a walk from a cursor ends: ids only go down.
  lemma {:induction false} WalkTerminates(snapshots: seq<set<nat>>, cursor: nat, limit: nat)
    requires 1 <= limit && cursor < |snapshots|
    ensures Finished(Walk(DescRank, snapshots, Some(cursor), limit))
    decreases |snapshots|
  {
    DescRankInjective();
    var p := FetchPage(DescRank, snapshots[0], Some(cursor), limit);
    if NextCursor(p).None? {
      WalkEnds(DescRank, snapshots, Some(cursor), limit, p);
    } else {
      var c := NextCursor(p).value;
      CursorAdvances(DescRank, snapshots[0], cursor, limit);
      WalkTerminates(snapshots[1..], c, limit);
      WalkContinues(DescRank, snapshots, Some(cursor), limit, p);
    }
  }
}
