// Action statistics (internal/db/db.go, GetActionStatsExtended).
module ActionStats {
  import opened Sql
  import opened Tables
  import opened Collections

  datatype Filter = Filter(actionType: Option<string>, from: Option<int>, to: Option<int>)

  predicate NeedsJoin(f: Filter) {
    f.from.Some? || f.to.Some?
  }

  predicate TypeMatches(f: Filter, a: Action) {
    f.actionType.Some? && f.actionType.value != "" ==> a.actionType == f.actionType.value
  }

  predicate InRange(f: Filter, blockTime: int) {
    && (f.from.Some? ==> f.from.value <= blockTime)
    && (f.to.Some? ==> blockTime <= f.to.value)
  }

  // FROM actions a INNER JOIN action_transactions at ON the same action and
  // txType 'register', with the WHERE conditions: every matching pair of rows.
  ghost function Joined(actions: ActionTable, txs: TxTable, f: Filter): set<(nat, TxKey)> {
    set id, k | id in actions && k in txs
             && txs[k].actionID == id && txs[k].txType == "register"
             && TypeMatches(f, actions[id]) && InRange(f, txs[k].blockTime) :: (id, k)
  }

  ghost function Unjoined(actions: ActionTable, f: Filter): set<nat> {
    set id | id in actions && TypeMatches(f, actions[id])
  }

  // The actions the statistics are meant to be about.
  ghost function Matching(actions: ActionTable, txs: TxTable, f: Filter): set<nat> {
    set id | id in actions && TypeMatches(f, actions[id])
          && (NeedsJoin(f) ==> Registered(txs, id) && InRange(f, txs[TxKey(id, "register")].blockTime))
  }

  ghost function FirstOf(): ((nat, TxKey)) -> nat {
    (p: (nat, TxKey)) => p.0
  }

  // The join repeats no action: (actionID, txType) is unique.
  lemma JoinCountsEachActionOnce(actions: ActionTable, txs: TxTable, f: Filter)
    requires WellKeyed(txs) && NeedsJoin(f)
    ensures |Joined(actions, txs, f)| == |Matching(actions, txs, f)|
  {
    var pairs, ids := Joined(actions, txs, f), Matching(actions, txs, f);
    forall p | p in pairs ensures p.1 == TxKey(p.0, "register") {
      assert KeyOf(txs[p.1]) == p.1;
    }
    forall id | id in ids ensures exists p :: p in pairs && FirstOf()(p) == id {
      assert KeyOf(txs[TxKey(id, "register")]) == TxKey(id, "register");
      assert (id, TxKey(id, "register")) in pairs;
    }
    SizeOfImage(pairs, FirstOf(), ids);
  }

  // ---- Groups ----

  datatype StateCount = StateCount(state: string, count: int)
  datatype MimeCount = MimeCount(mimeType: string, count: int)

  function Counts(rows: seq<StateCount>): (cs: seq<int>)
    ensures |cs| == |rows| && forall i :: 0 <= i < |cs| ==> cs[i] == rows[i].count
  {
    seq(|rows|, i requires 0 <= i < |rows| => rows[i].count)
  }

  // GROUP BY a."state" over the selected rows.
  ghost predicate IsStateCounts<X>(rows: set<X>, state: X -> string, groups: seq<string>, out: seq<StateCount>) {
    && NoDuplicates(groups) && |out| == |groups|
    && (forall x :: x in rows ==> state(x) in groups)
    && (forall i :: 0 <= i < |out| ==> out[i] == StateCount(groups[i], |Group(rows, state, groups[i])|))
  }

  // GROUP BY a."mimeType", reported as COALESCE(a."mimeType", '').
  ghost predicate IsMimeCounts<X>(rows: set<X>, mime: X -> Option<string>, groups: seq<Option<string>>,
        out: seq<MimeCount>) {
    && NoDuplicates(groups) && |out| == |groups|
    && (forall x :: x in rows ==> mime(x) in groups)
    && (forall i :: 0 <= i < |out| ==> out[i] == MimeCount(CoalesceTo(groups[i], ""), |Group(rows, mime, groups[i])|))
  }

  // ---- What the Go code makes of the groups ----

  function WithMime(rows: seq<MimeCount>): seq<MimeCount> {
    if rows == [] then []
    else
      var last := rows[|rows| - 1];
      WithMime(rows[..|rows| - 1]) + if last.mimeType != "" then [last] else []
  }

  method GetActionStatsExtended(stateRows: seq<StateCount>, mimeRows: seq<MimeCount>)
    returns (total: int, stateCounts: seq<StateCount>, mimeStats: seq<MimeCount>)
    ensures stateCounts == stateRows
    ensures total == SumInts(Counts(stateRows))
    ensures mimeStats == WithMime(mimeRows)
  {
    total, stateCounts := 0, [];
    for i := 0 to |stateRows|
      invariant stateCounts == stateRows[..i]
      invariant total == SumInts(Counts(stateRows)[..i])
    {
      total := total + stateRows[i].count;
      stateCounts := stateCounts + [stateRows[i]];
      SumIntsSnoc(Counts(stateRows)[..i], stateRows[i].count);
      assert Counts(stateRows)[..i + 1] == Counts(stateRows)[..i] + [stateRows[i].count];
    }
    assert Counts(stateRows)[..|stateRows|] == Counts(stateRows);
    mimeStats := [];
    for i := 0 to |mimeRows|
      invariant mimeStats == WithMime(mimeRows[..i])
    {
      assert mimeRows[..i + 1][..i] == mimeRows[..i];
      if mimeRows[i].mimeType != "" {
        mimeStats := mimeStats + [mimeRows[i]];
      }
    }
    assert mimeRows[..|mimeRows|] == mimeRows;
  }

  lemma {:induction false} SumIntsSnoc(xs: seq<int>, x: int)
    ensures SumInts(xs + [x]) == SumInts(xs) + x
  {
    if xs != [] {
      assert (xs + [x])[1..] == xs[1..] + [x];
      SumIntsSnoc(xs[1..], x);
    }
  }

  function MimeTotal(rows: seq<MimeCount>): int {
    if rows == [] then 0 else MimeTotal(rows[..|rows| - 1]) + rows[|rows| - 1].count
  }

  // Zero for the groups the handler drops.
  function KeptCounts(rows: seq<MimeCount>): (cs: seq<int>)
    ensures |cs| == |rows|
    ensures forall i :: 0 <= i < |cs| ==> cs[i] == if rows[i].mimeType != "" then rows[i].count else 0
  {
    seq(|rows|, i requires 0 <= i < |rows| => if rows[i].mimeType != "" then rows[i].count else 0)
  }

  lemma {:induction false} KeptTotal(rows: seq<MimeCount>)
    ensures MimeTotal(WithMime(rows)) == SumInts(KeptCounts(rows))
  {
    if rows != [] {
      var init, last := rows[..|rows| - 1], rows[|rows| - 1];
      KeptTotal(init);
      var kept := if last.mimeType != "" then last.count else 0;
      assert KeptCounts(rows) == KeptCounts(init) + [kept];
      SumIntsSnoc(KeptCounts(init), kept);
      if last.mimeType != "" {
        assert (WithMime(init) + [last])[..|WithMime(init)|] == WithMime(init);
      } else {
        assert WithMime(rows) == WithMime(init);
      }
    }
  }

  // The state counts add up to the number of selected rows.
  lemma StatesAddUp<X>(rows: set<X>, state: X -> string, groups: seq<string>, out: seq<StateCount>)
    requires IsStateCounts(rows, state, groups, out)
    ensures SumInts(Counts(out)) == |rows|
  {
    CountByGroup(rows, state, groups, Counts(out));
  }

  ghost function WithoutMime<X>(rows: set<X>, mime: X -> Option<string>): set<X> {
    set x | x in rows && CoalesceTo(mime(x), "") == ""
  }

  // The reported MIME counts miss exactly the rows without a MIME type.
  lemma MimesAddUp<X>(rows: set<X>, mime: X -> Option<string>, groups: seq<Option<string>>, out: seq<MimeCount>)
    requires IsMimeCounts(rows, mime, groups, out)
    ensures MimeTotal(WithMime(out)) + |WithoutMime(rows, mime)| == |rows|
  {
    var without := WithoutMime(rows, mime);
    var kept := rows - without;
    var counts := KeptCounts(out);
    forall i | 0 <= i < |groups| ensures counts[i] == |Group(kept, mime, groups[i])| {
      if CoalesceTo(groups[i], "") == "" {
        assert Group(kept, mime, groups[i]) == {};
      } else {
        assert Group(kept, mime, groups[i]) == Group(rows, mime, groups[i]);
      }
    }
    CountByGroup(kept, mime, groups, counts);
    KeptTotal(out);
    assert rows == kept + without;
  }

  ghost function StateAt(actions: ActionTable): nat -> string {
    id => if id in actions then actions[id].state else ""
  }

  ghost function MimeAt(actions: ActionTable): nat -> Option<string> {
    id => if id in actions then actions[id].mimeType else None
  }

  ghost function JoinedState(actions: ActionTable): ((nat, TxKey)) -> string {
    (p: (nat, TxKey)) => StateAt(actions)(p.0)
  }

  ghost function JoinedMime(actions: ActionTable): ((nat, TxKey)) -> Option<string> {
    (p: (nat, TxKey)) => MimeAt(actions)(p.0)
  }

  // Date-filtered statistics count each matching action exactly once, in the
  // total, over the states, and over the MIME types plus the actions without
  // one.  A placeholder register row counts like any other.
  lemma DateFilteredStats(actions: ActionTable, txs: TxTable, f: Filter,
                          states: seq<string>, stateRows: seq<StateCount>,
                          mimes: seq<Option<string>>, mimeRows: seq<MimeCount>)
    requires WellKeyed(txs) && NeedsJoin(f)
    requires IsStateCounts(Joined(actions, txs, f), JoinedState(actions), states, stateRows)
    requires IsMimeCounts(Joined(actions, txs, f), JoinedMime(actions), mimes, mimeRows)
    ensures SumInts(Counts(stateRows)) == |Matching(actions, txs, f)|
    ensures MimeTotal(WithMime(mimeRows)) + |WithoutMime(Matching(actions, txs, f), MimeAt(actions))|
         == |Matching(actions, txs, f)|
  {
    var pairs, ids := Joined(actions, txs, f), Matching(actions, txs, f);
    JoinCountsEachActionOnce(actions, txs, f);
    StatesAddUp(pairs, JoinedState(actions), states, stateRows);
    MimesAddUp(pairs, JoinedMime(actions), mimes, mimeRows);
    WithoutMimeJoined(actions, txs, f);
  }

  lemma WithoutMimeJoined(actions: ActionTable, txs: TxTable, f: Filter)
    requires WellKeyed(txs) && NeedsJoin(f)
    ensures |WithoutMime(Joined(actions, txs, f), JoinedMime(actions))|
         == |WithoutMime(Matching(actions, txs, f), MimeAt(actions))|
  {
    var pairs := WithoutMime(Joined(actions, txs, f), JoinedMime(actions));
    var ids := WithoutMime(Matching(actions, txs, f), MimeAt(actions));
    forall p | p in pairs ensures p.1 == TxKey(p.0, "register") {
      assert KeyOf(txs[p.1]) == p.1;
    }
    forall id | id in ids ensures exists p :: p in pairs && FirstOf()(p) == id {
      assert KeyOf(txs[TxKey(id, "register")]) == TxKey(id, "register");
      assert (id, TxKey(id, "register")) in pairs;
    }
    SizeOfImage(pairs, FirstOf(), ids);
  }

  // Without a date filter every action of the type counts, enriched or not.
  lemma UnfilteredStats(actions: ActionTable, txs: TxTable, f: Filter,
                        states: seq<string>, stateRows: seq<StateCount>,
                        mimes: seq<Option<string>>, mimeRows: seq<MimeCount>)
    requires !NeedsJoin(f)
    requires IsStateCounts(Unjoined(actions, f), StateAt(actions), states, stateRows)
    requires IsMimeCounts(Unjoined(actions, f), MimeAt(actions), mimes, mimeRows)
    ensures SumInts(Counts(stateRows)) == |Matching(actions, txs, f)|
    ensures MimeTotal(WithMime(mimeRows)) + |WithoutMime(Matching(actions, txs, f), MimeAt(actions))|
         == |Matching(actions, txs, f)|
  {
    assert Matching(actions, txs, f) == Unjoined(actions, f);
    StatesAddUp(Unjoined(actions, f), StateAt(actions), states, stateRows);
    MimesAddUp(Unjoined(actions, f), MimeAt(actions), mimes, mimeRows);
  }

  // ---- What the reported numbers are about ----

  // The counts per state are those of these actions, one row per state.
  ghost predicate CountsStates(actions: ActionTable, ids: set<nat>, rows: seq<StateCount>) {
    && (forall i, j :: 0 <= i < j < |rows| ==> rows[i].state != rows[j].state)
    && (forall i :: 0 <= i < |rows| ==>
          rows[i].count == |set id | id in ids && id in actions && actions[id].state == rows[i].state|)
    && (forall id :: id in ids && id in actions ==> exists i :: 0 <= i < |rows| && rows[i].state == actions[id].state)
  }

  // The counts per non-empty MIME type are those of these actions.
  ghost predicate CountsMimes(actions: ActionTable, ids: set<nat>, rows: seq<MimeCount>) {
    && (forall i, j :: 0 <= i < j < |rows| ==> rows[i].mimeType != rows[j].mimeType)
    && (forall i :: 0 <= i < |rows| ==>
          && rows[i].mimeType != ""
          && rows[i].count == |set id | id in ids && id in actions && actions[id].mimeType == Some(rows[i].mimeType)|)
    && (forall id :: id in ids && id in actions && actions[id].mimeType.Some? && actions[id].mimeType.value != "" ==>
          exists i :: 0 <= i < |rows| && rows[i].mimeType == actions[id].mimeType.value)
  }

  // Grouping the joined pairs is grouping their actions.
  lemma {:induction false} GroupOfActions<X(!new), G>(rows: set<X>, action: X -> nat, ids: set<nat>, at: nat -> G,
        group: X -> G, k: G)
    requires forall x :: x in rows ==> action(x) in ids && group(x) == at(action(x))
    requires forall id :: id in ids ==> exists x :: x in rows && action(x) == id
    requires forall x, y :: x in rows && y in rows && action(x) == action(y) ==> x == y
    ensures |Group(rows, group, k)| == |Group(ids, at, k)|
  {
    forall id | id in Group(ids, at, k) ensures exists x :: x in Group(rows, group, k) && action(x) == id {
      var x :| x in rows && action(x) == id;
      assert x in Group(rows, group, k);
    }
    SizeOfImage(Group(rows, group, k), action, Group(ids, at, k));
  }

  lemma {:induction false} StatesOfActions<X(!new)>(actions: ActionTable, rows: set<X>, action: X -> nat,
        ids: set<nat>, group: X -> string, groups: seq<string>, out: seq<StateCount>)
    requires IsStateCounts(rows, group, groups, out)
    requires forall id :: id in ids ==> id in actions
    requires forall x :: x in rows ==> action(x) in ids && group(x) == StateAt(actions)(action(x))
    requires forall id :: id in ids ==> exists x :: x in rows && action(x) == id
    requires forall x, y :: x in rows && y in rows && action(x) == action(y) ==> x == y
    ensures CountsStates(actions, ids, out)
  {
    forall i | 0 <= i < |out|
      ensures out[i].count == |set id | id in ids && id in actions && actions[id].state == out[i].state|
    {
      GroupOfActions(rows, action, ids, StateAt(actions), group, groups[i]);
      assert Group(ids, StateAt(actions), groups[i])
          == set id | id in ids && id in actions && actions[id].state == out[i].state;
    }
    forall id | id in ids ensures exists i :: 0 <= i < |out| && out[i].state == actions[id].state {
      var x :| x in rows && action(x) == id;
      assert group(x) in groups;
      var i :| 0 <= i < |groups| && groups[i] == group(x);
      assert out[i].state == actions[id].state;
    }
  }

  lemma {:induction false} WithMimeMembers(rows: seq<MimeCount>, r: MimeCount)
    ensures r in WithMime(rows) <==> r in rows && r.mimeType != ""
  {
    if rows != [] {
      var init, last := rows[..|rows| - 1], rows[|rows| - 1];
      WithMimeMembers(init, r);
      assert rows == init + [last];
    }
  }

  // Groups of different MIME types stay apart when NULL, shown as the empty
  // text, is dropped.
  lemma {:induction false} WithMimeDistinct(groups: seq<Option<string>>, rows: seq<MimeCount>)
    requires NoDuplicates(groups) && |rows| == |groups|
    requires forall i :: 0 <= i < |rows| ==> rows[i].mimeType == CoalesceTo(groups[i], "")
    ensures forall i, j :: 0 <= i < j < |WithMime(rows)| ==> WithMime(rows)[i].mimeType != WithMime(rows)[j].mimeType
  {
    if rows != [] {
      var n := |rows| - 1;
      var init, last := rows[..n], rows[n];
      WithMimeDistinct(groups[..n], init);
      forall i | 0 <= i < |WithMime(init)| && last.mimeType != "" ensures WithMime(init)[i].mimeType != last.mimeType {
        WithMimeMembers(init, WithMime(init)[i]);
        var j :| 0 <= j < |init| && init[j] == WithMime(init)[i];
        assert groups[j] != groups[n];
      }
    }
  }

  lemma {:induction false} MimesOfActions<X(!new)>(actions: ActionTable, rows: set<X>, action: X -> nat, ids: set<nat>,
        group: X -> Option<string>, groups: seq<Option<string>>, out: seq<MimeCount>)
    requires IsMimeCounts(rows, group, groups, out)
    requires forall id :: id in ids ==> id in actions
    requires forall x :: x in rows ==> action(x) in ids && group(x) == MimeAt(actions)(action(x))
    requires forall id :: id in ids ==> exists x :: x in rows && action(x) == id
    requires forall x, y :: x in rows && y in rows && action(x) == action(y) ==> x == y
    ensures CountsMimes(actions, ids, WithMime(out))
  {
    var kept := WithMime(out);
    WithMimeDistinct(groups, out);
    forall i | 0 <= i < |kept|
      ensures kept[i].mimeType != ""
      ensures kept[i].count == |set id | id in ids && id in actions && actions[id].mimeType == Some(kept[i].mimeType)|
    {
      WithMimeMembers(out, kept[i]);
      var j :| 0 <= j < |out| && out[j] == kept[i];
      GroupOfActions(rows, action, ids, MimeAt(actions), group, groups[j]);
      assert Group(ids, MimeAt(actions), groups[j])
          == set id | id in ids && id in actions && actions[id].mimeType == Some(kept[i].mimeType);
    }
    forall id | id in ids && actions[id].mimeType.Some? && actions[id].mimeType.value != ""
      ensures exists i :: 0 <= i < |kept| && kept[i].mimeType == actions[id].mimeType.value
    {
      var x :| x in rows && action(x) == id;
      assert group(x) in groups;
      var j :| 0 <= j < |groups| && groups[j] == group(x);
      WithMimeMembers(out, out[j]);
    }
  }

  // With a date bound: the total, the states and the MIME types are about the
  // actions of the type whose register row, placeholder or not, lies in range,
  // both ends included.
  lemma {:induction false} DateFilteredNumbers(actions: ActionTable, txs: TxTable, f: Filter,
                          states: seq<string>, stateRows: seq<StateCount>,
                          mimes: seq<Option<string>>, mimeRows: seq<MimeCount>, ids: set<nat>)
    requires WellKeyed(txs) && (f.from.Some? || f.to.Some?)
    requires IsStateCounts(Joined(actions, txs, f), JoinedState(actions), states, stateRows)
    requires IsMimeCounts(Joined(actions, txs, f), JoinedMime(actions), mimes, mimeRows)
    requires forall id :: id in ids <==>
               && id in actions && TxKey(id, "register") in txs
               && (f.actionType.Some? && f.actionType.value != "" ==> actions[id].actionType == f.actionType.value)
               && (f.from.Some? ==> f.from.value <= txs[TxKey(id, "register")].blockTime)
               && (f.to.Some? ==> txs[TxKey(id, "register")].blockTime <= f.to.value)
    ensures SumInts(Counts(stateRows)) == |ids|
    ensures CountsStates(actions, ids, stateRows) && CountsMimes(actions, ids, WithMime(mimeRows))
  {
    var pairs := Joined(actions, txs, f);
    assert ids == Matching(actions, txs, f);
    DateFilteredStats(actions, txs, f, states, stateRows, mimes, mimeRows);
    JoinedIsMatching(actions, txs, f);
    StatesOfActions(actions, pairs, FirstOf(), ids, JoinedState(actions), states, stateRows);
    MimesOfActions(actions, pairs, FirstOf(), ids, JoinedMime(actions), mimes, mimeRows);
  }

  lemma JoinedIsMatching(actions: ActionTable, txs: TxTable, f: Filter)
    requires WellKeyed(txs) && NeedsJoin(f)
    ensures forall p :: p in Joined(actions, txs, f) ==>
              p.1 == TxKey(p.0, "register") && FirstOf()(p) in Matching(actions, txs, f)
    ensures forall id :: id in Matching(actions, txs, f) ==>
              exists p :: p in Joined(actions, txs, f) && FirstOf()(p) == id
  {
    forall p | p in Joined(actions, txs, f) ensures p.1 == TxKey(p.0, "register") {
      assert KeyOf(txs[p.1]) == p.1;
    }
    forall id | id in Matching(actions, txs, f) ensures exists p :: p in Joined(actions, txs, f) && FirstOf()(p) == id {
      assert KeyOf(txs[TxKey(id, "register")]) == TxKey(id, "register");
      assert (id, TxKey(id, "register")) in Joined(actions, txs, f);
    }
  }

  // Without a date bound: about all actions of the type.
  lemma {:induction false} UnfilteredNumbers(actions: ActionTable, txs: TxTable, f: Filter,
                        states: seq<string>, stateRows: seq<StateCount>,
                        mimes: seq<Option<string>>, mimeRows: seq<MimeCount>, ids: set<nat>)
    requires f.from.None? && f.to.None?
    requires IsStateCounts(Unjoined(actions, f), StateAt(actions), states, stateRows)
    requires IsMimeCounts(Unjoined(actions, f), MimeAt(actions), mimes, mimeRows)
    requires forall id :: id in ids <==>
               id in actions
               && (f.actionType.Some? && f.actionType.value != "" ==> actions[id].actionType == f.actionType.value)
    ensures SumInts(Counts(stateRows)) == |ids|
    ensures CountsStates(actions, ids, stateRows) && CountsMimes(actions, ids, WithMime(mimeRows))
  {
    assert ids == Unjoined(actions, f) == Matching(actions, txs, f);
    UnfilteredStats(actions, txs, f, states, stateRows, mimes, mimeRows);
    var self := (id: nat) => id;
    forall id | id in ids ensures exists x :: x in ids && self(x) == id {
      assert self(id) == id;
    }
    StatesOfActions(actions, ids, self, ids, StateAt(actions), states, stateRows);
    MimesOfActions(actions, ids, self, ids, MimeAt(actions), mimes, mimeRows);
  }
}
