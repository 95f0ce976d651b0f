// Reading transactions for one action and for many (internal/db/db.go,
// GetActionTransactions and GetActionTransactionsByActionIDs), and the
// flattened fields of the list and detail responses
// (internal/handlers/actions.go, ListActions and GetAction).
module TxLookup {
  import opened Sql
  import opened Tables
  import opened Collections

  // ---- The two queries ----

  ghost predicate ByHeight(rows: seq<ActionTx>) {
    forall i, j :: 0 <= i < j < |rows| ==> rows[i].height <= rows[j].height
  }

  // WHERE "actionID" = id ORDER BY "height": each row of the action once, in
  // height order; rows of equal height come in any order.
  ghost predicate IsSingleAnswer(t: TxTable, id: nat, rows: seq<ActionTx>) {
    && NoDuplicates(rows)
    && (forall r :: r in rows <==> r.actionID == id && KeyOf(r) in t && t[KeyOf(r)] == r)
    && ByHeight(rows)
  }

  ghost predicate ByIdThenHeight(rows: seq<ActionTx>) {
    forall i, j :: 0 <= i < j < |rows| ==>
      rows[i].actionID < rows[j].actionID || (rows[i].actionID == rows[j].actionID && rows[i].height <= rows[j].height)
  }

  // WHERE "actionID" = ANY(ids) ORDER BY "actionID", "height"
  ghost predicate IsBulkAnswer(t: TxTable, ids: seq<nat>, rows: seq<ActionTx>) {
    && NoDuplicates(rows)
    && (forall r :: r in rows <==> r.actionID in ids && KeyOf(r) in t && t[KeyOf(r)] == r)
    && ByIdThenHeight(rows)
  }

  // The rows of one action, in the order they came.
  function OfAction(rows: seq<ActionTx>, id: nat): seq<ActionTx> {
    if rows == [] then []
    else
      var last := rows[|rows| - 1];
      OfAction(rows[..|rows| - 1], id) + if last.actionID == id then [last] else []
  }

  type TxMap = map<nat, seq<ActionTx>>

  function Lookup(m: TxMap, id: nat): seq<ActionTx> {
    if id in m then m[id] else []
  }

  // query stands for the database's answer.
  method GetActionTransactionsByActionIDs(actionIDs: seq<nat>, query: seq<ActionTx>) returns (result: TxMap)
    ensures actionIDs == [] ==> result == map[]
    ensures actionIDs != [] ==> forall id :: Lookup(result, id) == OfAction(query, id)
    ensures forall id :: id in result ==> result[id] != []
  {
    result := map[];
    if |actionIDs| == 0 {
      return;
    }
    for i := 0 to |query|
      invariant forall id :: Lookup(result, id) == OfAction(query[..i], id)
      invariant forall id :: id in result ==> result[id] != []
    {
      assert query[..i + 1][..i] == query[..i];
      var tx := query[i];
      result := result[tx.actionID := (if tx.actionID in result then result[tx.actionID] else []) + [tx]];
    }
    assert query[..|query|] == query;
  }

  lemma {:induction false} OfActionMembers(rows: seq<ActionTx>, id: nat, r: ActionTx)
    ensures r in OfAction(rows, id) <==> r in rows && r.actionID == id
  {
    if rows != [] {
      var init, last := rows[..|rows| - 1], rows[|rows| - 1];
      OfActionMembers(init, id, r);
      assert rows == init + [last];
    }
  }

  lemma {:induction false} OfActionOrder(rows: seq<ActionTx>, id: nat)
    requires NoDuplicates(rows) && ByIdThenHeight(rows)
    ensures NoDuplicates(OfAction(rows, id)) && ByHeight(OfAction(rows, id))
  {
    if rows != [] {
      var init, last := rows[..|rows| - 1], rows[|rows| - 1];
      OfActionOrder(init, id);
      var mine := OfAction(init, id);
      forall i | 0 <= i < |mine| && last.actionID == id ensures mine[i] != last && mine[i].height <= last.height {
        OfActionMembers(init, id, mine[i]);
        var j :| 0 <= j < |init| && init[j] == mine[i];
        assert rows[j] == init[j];
      }
    }
  }

  // The bulk map gives, for every requested id, an answer the single query may
  // give: the same rows, heights ascending.
  lemma {:induction false} BulkAgreesWithSingle(t: TxTable, ids: seq<nat>, rows: seq<ActionTx>, id: nat)
    requires IsBulkAnswer(t, ids, rows) && id in ids
    ensures IsSingleAnswer(t, id, OfAction(rows, id))
  {
    OfActionOrder(rows, id);
    forall r ensures r in OfAction(rows, id) <==> r.actionID == id && KeyOf(r) in t && t[KeyOf(r)] == r {
      OfActionMembers(rows, id, r);
    }
  }

  // ---- Flattened fields ----

  datatype Flat = Flat(
    registerTxID: Option<string>, registerTxTime: Option<int>,
    finalizeTxID: Option<string>, finalizeTxTime: Option<int>,
    approveTxID: Option<string>, approveTxTime: Option<int>)

  const EMPTY_FLAT := Flat(None, None, None, None, None, None)

  // What one row does to the fields.
  function Step(flat: Flat, tx: ActionTx): Flat {
    if IsPlaceholder(tx) then flat
    else if tx.txType == "register" then flat.(registerTxID := Some(tx.txHash), registerTxTime := Some(tx.blockTime))
    else if tx.txType == "finalize" then flat.(finalizeTxID := Some(tx.txHash), finalizeTxTime := Some(tx.blockTime))
    else if tx.txType == "approve" then flat.(approveTxID := Some(tx.txHash), approveTxTime := Some(tx.blockTime))
    else flat
  }

  function Flattened(txs: seq<ActionTx>): Flat {
    if txs == [] then EMPTY_FLAT else Step(Flattened(txs[..|txs| - 1]), txs[|txs| - 1])
  }

  function Shown(txs: seq<ActionTx>): seq<ActionTx> {
    if txs == [] then []
    else Shown(txs[..|txs| - 1]) + if IsPlaceholder(txs[|txs| - 1]) then [] else [txs[|txs| - 1]]
  }

  // One item of the list response.
  method ListItem(txMap: TxMap, id: nat, includeTransactions: bool) returns (item: Flat, transactions: seq<ActionTx>)
    ensures item == Flattened(Lookup(txMap, id))
    ensures transactions == if includeTransactions then Shown(Lookup(txMap, id)) else []
  {
    item, transactions := EMPTY_FLAT, [];
    if id in txMap && |txMap[id]| > 0 {
      var txs := txMap[id];
      for i := 0 to |txs|
        invariant item == Flattened(txs[..i])
        invariant transactions == if includeTransactions then Shown(txs[..i]) else []
      {
        assert txs[..i + 1][..i] == txs[..i];
        var tx := txs[i];
        if IsPlaceholder(tx) {
          continue;
        }
        if includeTransactions {
          transactions := transactions + [tx];
        }
        match tx.txType {
          case "register" =>
            item := item.(registerTxID := Some(tx.txHash), registerTxTime := Some(tx.blockTime));
          case "finalize" =>
            item := item.(finalizeTxID := Some(tx.txHash), finalizeTxTime := Some(tx.blockTime));
          case "approve" =>
            item := item.(approveTxID := Some(tx.txHash), approveTxTime := Some(tx.blockTime));
          case _ =>
        }
      }
      assert txs[..|txs|] == txs;
    }
  }

  // The detail response.
  method DetailFields(transactions: seq<ActionTx>) returns (flat: Flat, shown: seq<ActionTx>)
    ensures flat == Flattened(transactions) && shown == Shown(transactions)
  {
    var registerTxID, finalizeTxID, approveTxID: Option<string> := None, None, None;
    var registerTxTime, finalizeTxTime, approveTxTime: Option<int> := None, None, None;
    shown := [];
    for i := 0 to |transactions|
      invariant Flat(registerTxID, registerTxTime, finalizeTxID, finalizeTxTime, approveTxID, approveTxTime)
             == Flattened(transactions[..i])
      invariant shown == Shown(transactions[..i])
    {
      assert transactions[..i + 1][..i] == transactions[..i];
      var tx := transactions[i];
      if IsPlaceholder(tx) {
        continue;
      }
      shown := shown + [tx];
      match tx.txType {
        case "register" =>
          registerTxID, registerTxTime := Some(tx.txHash), Some(tx.blockTime);
        case "finalize" =>
          finalizeTxID, finalizeTxTime := Some(tx.txHash), Some(tx.blockTime);
        case "approve" =>
          approveTxID, approveTxTime := Some(tx.txHash), Some(tx.blockTime);
        case _ =>
      }
    }
    assert transactions[..|transactions|] == transactions;
    flat := Flat(registerTxID, registerTxTime, finalizeTxID, finalizeTxTime, approveTxID, approveTxTime);
  }

  // The stored row of a type, unless it is a placeholder.
  function RealRow(t: TxTable, id: nat, txType: string): Option<ActionTx> {
    var k := TxKey(id, txType);
    if k in t && !IsPlaceholder(t[k]) then Some(t[k]) else None
  }

  function HashOf(tx: Option<ActionTx>): Option<string> {
    if tx.Some? then Some(tx.value.txHash) else None
  }

  function TimeOf(tx: Option<ActionTx>): Option<int> {
    if tx.Some? then Some(tx.value.blockTime) else None
  }

  // The fields read straight off the table.
  function FlatOfTable(t: TxTable, id: nat): Flat {
    var r, f, a := RealRow(t, id, "register"), RealRow(t, id, "finalize"), RealRow(t, id, "approve");
    Flat(HashOf(r), TimeOf(r), HashOf(f), TimeOf(f), HashOf(a), TimeOf(a))
  }

  // The last row of a type that is not a placeholder.
  function LastOfType(txs: seq<ActionTx>, txType: string): Option<ActionTx> {
    if txs == [] then None
    else
      var last := txs[|txs| - 1];
      if last.txType == txType && !IsPlaceholder(last) then Some(last) else LastOfType(txs[..|txs| - 1], txType)
  }

  lemma {:induction false} FlattenedIsLast(txs: seq<ActionTx>)
    ensures var r, f, a := LastOfType(txs, "register"), LastOfType(txs, "finalize"), LastOfType(txs, "approve");
            Flattened(txs) == Flat(HashOf(r), TimeOf(r), HashOf(f), TimeOf(f), HashOf(a), TimeOf(a))
  {
    if txs != [] {
      FlattenedIsLast(txs[..|txs| - 1]);
    }
  }

  lemma {:induction false} LastOfTypeFacts(txs: seq<ActionTx>, txType: string)
    ensures var l := LastOfType(txs, txType);
            && (l.Some? ==> l.value in txs && l.value.txType == txType && !IsPlaceholder(l.value))
            && (l.None? ==> forall r :: r in txs && r.txType == txType ==> IsPlaceholder(r))
  {
    if txs != [] {
      var init, last := txs[..|txs| - 1], txs[|txs| - 1];
      LastOfTypeFacts(init, txType);
      assert txs == init + [last];
    }
  }

  lemma {:induction false} LastIsStored(t: TxTable, id: nat, rows: seq<ActionTx>, txType: string)
    requires WellKeyed(t) && IsSingleAnswer(t, id, rows)
    ensures LastOfType(rows, txType) == RealRow(t, id, txType)
  {
    LastOfTypeFacts(rows, txType);
    var k := TxKey(id, txType);
    if k in t {
      assert KeyOf(t[k]) == k;
      assert t[k] in rows;
    }
  }

  // Whatever order rows of equal height come in, the flattened fields are those
  // stored in the table, and no placeholder shows.
  lemma {:induction false} FlattenedIsTable(t: TxTable, id: nat, rows: seq<ActionTx>)
    requires WellKeyed(t) && IsSingleAnswer(t, id, rows)
    ensures Flattened(rows) == FlatOfTable(t, id)
    ensures FlatOfTable(t, id).registerTxID != Some(PLACEHOLDER_HASH)
    ensures forall r :: r in Shown(rows) <==> r in rows && !IsPlaceholder(r)
  {
    FlattenedIsLast(rows);
    LastIsStored(t, id, rows, "register");
    LastIsStored(t, id, rows, "finalize");
    LastIsStored(t, id, rows, "approve");
    forall r ensures r in Shown(rows) <==> r in rows && !IsPlaceholder(r) {
      ShownMembers(rows, r);
    }
  }

  // Hash and time of the row stored under the key, unless its hash is the
  // placeholder marker.
  ghost predicate IsField(t: TxTable, k: TxKey, hash: Option<string>, time: Option<int>) {
    if k in t && t[k].txHash != "_NO_TX_FOUND_" then hash == Some(t[k].txHash) && time == Some(t[k].blockTime)
    else hash == None && time == None
  }

  // The fields are those of the stored rows whose hash is not the placeholder
  // marker, whatever order rows of equal height come in.
  lemma {:induction false} FieldsAreStoredRows(t: TxTable, id: nat, rows: seq<ActionTx>)
    requires WellKeyed(t) && IsSingleAnswer(t, id, rows)
    ensures IsField(t, TxKey(id, "register"), Flattened(rows).registerTxID, Flattened(rows).registerTxTime)
    ensures IsField(t, TxKey(id, "finalize"), Flattened(rows).finalizeTxID, Flattened(rows).finalizeTxTime)
    ensures IsField(t, TxKey(id, "approve"), Flattened(rows).approveTxID, Flattened(rows).approveTxTime)
  {
    FlattenedIsTable(t, id, rows);
  }

  // The shown transactions are the stored ones whose hash is not the
  // placeholder marker, each once, in height order.
  lemma {:induction false} ShownInOrder(t: TxTable, id: nat, rows: seq<ActionTx>)
    requires IsSingleAnswer(t, id, rows)
    ensures forall r :: r in Shown(rows) <==>
              r.actionID == id && KeyOf(r) in t && t[KeyOf(r)] == r && r.txHash != "_NO_TX_FOUND_"
    ensures NoDuplicates(Shown(rows)) && ByHeight(Shown(rows))
  {
    forall r ensures r in Shown(rows) <==> r in rows && r.txHash != "_NO_TX_FOUND_" {
      ShownMembers(rows, r);
    }
    ShownKeepsOrder(rows);
  }

  lemma {:induction false} ShownKeepsOrder(rows: seq<ActionTx>)
    requires NoDuplicates(rows) && ByHeight(rows)
    ensures NoDuplicates(Shown(rows)) && ByHeight(Shown(rows))
  {
    if rows != [] {
      var init, last := rows[..|rows| - 1], rows[|rows| - 1];
      ShownKeepsOrder(init);
      var shown := Shown(init);
      forall i | 0 <= i < |shown| ensures shown[i] != last && shown[i].height <= last.height {
        ShownMembers(init, shown[i]);
        var j :| 0 <= j < |init| && init[j] == shown[i];
        assert rows[j] == init[j];
      }
    }
  }

  lemma {:induction false} ShownMembers(txs: seq<ActionTx>, r: ActionTx)
    ensures r in Shown(txs) <==> r in txs && !IsPlaceholder(r)
  {
    if txs != [] {
      var init, last := txs[..|txs| - 1], txs[|txs| - 1];
      ShownMembers(init, r);
      assert txs == init + [last];
    }
  }

  // The list and the detail response agree on every action of the page.
  lemma {:induction false} ListAgreesWithDetail(t: TxTable, ids: seq<nat>, bulk: seq<ActionTx>,
        single: seq<ActionTx>, id: nat)
    requires WellKeyed(t) && IsBulkAnswer(t, ids, bulk) && id in ids && IsSingleAnswer(t, id, single)
    ensures Flattened(OfAction(bulk, id)) == Flattened(single) == FlatOfTable(t, id)
  {
    BulkAgreesWithSingle(t, ids, bulk, id);
    FlattenedIsTable(t, id, OfAction(bulk, id));
    FlattenedIsTable(t, id, single);
  }
}
