// The actions and action_transactions tables (internal/db/db.go).
module Tables {
  import opened Sql

  // A row of actions; its key is the action id, a BIGINT.
  datatype Action = Action(
    creator: string,
    actionType: string,
    state: string,
    blockHeight: int,
    superNodes: Option<seq<string>>,
    mimeType: Option<string>,
    createdAt: int)

  type ActionTable = map<nat, Action>

  // Ids arrive as uint64 but are stored as BIGINT.
  ghost predicate StorableIds(t: ActionTable) {
    forall id :: id in t ==> id <= MAX_BIGINT
  }

  // UpsertAction: an update keeps createdAt.
  function UpsertedAction(t: ActionTable, id: nat, row: Action): ActionTable {
    if id > MAX_BIGINT then t
    else if id in t then t[id := row.(createdAt := t[id].createdAt)]
    else t[id := row]
  }

  // The stored row is the new one, but the creation time of an existing row
  // stays; no other action is touched.
  lemma UpsertedActionStores(t: ActionTable, id: nat, row: Action)
    requires id <= MAX_BIGINT
    ensures var t' := UpsertedAction(t, id, row);
            && t'.Keys == t.Keys + {id}
            && t'[id] == Action(row.creator, row.actionType, row.state, row.blockHeight, row.superNodes, row.mimeType,
                                if id in t then t[id].createdAt else row.createdAt)
            && forall other :: other in t && other != id ==> t'[other] == t[other]
  {
  }

  // A row of action_transactions.
  datatype ActionTx = ActionTx(
    actionID: nat,
    txType: string,
    txHash: string,
    height: int,
    blockTime: int,
    gasWanted: Option<int>,
    gasUsed: Option<int>,
    actionPrice: Option<string>,
    actionPriceDenom: Option<string>,
    flowPayer: Option<string>,
    flowPayee: Option<string>,
    txFee: Option<string>,
    txFeeDenom: Option<string>)

  // UNIQUE("actionID", "txType")
  datatype TxKey = TxKey(actionID: nat, txType: string)

  type TxTable = map<TxKey, ActionTx>

  function KeyOf(tx: ActionTx): TxKey {
    TxKey(tx.actionID, tx.txType)
  }

  // Every row is stored under its own key, so no two rows share one.
  ghost predicate WellKeyed(t: TxTable) {
    forall k :: k in t ==> KeyOf(t[k]) == k
  }

  predicate Registered(t: TxTable, id: nat) {
    TxKey(id, "register") in t
  }

  const PLACEHOLDER_HASH := "_NO_TX_FOUND_"

  predicate IsPlaceholder(tx: ActionTx) {
    tx.txHash == PLACEHOLDER_HASH
  }

  // The row that marks an action as checked without a transaction.
  function Placeholder(id: nat, createdAt: int): ActionTx {
    ActionTx(id, "register", PLACEHOLDER_HASH, 0, createdAt, None, None, None, None, None, None, None, None)
  }

  // INSERT ... ON CONFLICT DO UPDATE overwrites every column of the row.
  function Upserted(t: TxTable, tx: ActionTx): TxTable {
    t[KeyOf(tx) := tx]
  }

  // Two tables agree on all rows of one action.
  ghost predicate SameRows(t: TxTable, t': TxTable, id: nat) {
    forall typ :: (TxKey(id, typ) in t <==> TxKey(id, typ) in t')
               && (TxKey(id, typ) in t ==> t[TxKey(id, typ)] == t'[TxKey(id, typ)])
  }

  class TransactionStore {
    var rows: TxTable

    constructor ()
      ensures rows == map[]
    {
      rows := map[];
    }

    // reachable says whether the database executes the statement.
    method UpsertActionTransaction(tx: ActionTx, reachable: bool) returns (ok: bool)
      modifies this
      ensures ok == (reachable && tx.actionID <= MAX_BIGINT)
      ensures rows == if ok then Upserted(old(rows), tx) else old(rows)
      ensures ok ==> rows.Keys == old(rows).Keys + {TxKey(tx.actionID, tx.txType)}
      ensures ok ==> rows[TxKey(tx.actionID, tx.txType)] == tx
      ensures forall k :: k in old(rows) && k != TxKey(tx.actionID, tx.txType) ==> k in rows && rows[k] == old(rows)[k]
    {
      if !reachable || tx.actionID > MAX_BIGINT {
        return false;
      }
      rows := rows[TxKey(tx.actionID, tx.txType) := tx];
      return true;
    }
  }
}
