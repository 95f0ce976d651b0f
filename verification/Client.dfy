// The chain client's view of an action's transactions (internal/lumera/client.go,
// GetActionModuleAccount, GetActionTransactions, parseTxResult, extractTxSigner).
module Client {
  import opened Sql
  import opened GoText
  import opened Tables
  import opened Transfers

  // db.Action: what the enricher knows about an action.
  datatype EnrichAction = EnrichAction(id: nat, creator: string, supernode: string, createdAt: int)

  datatype Coin = Coin(denom: string, amount: string)

  // A transaction body: its fees and the string fields of its first message,
  // if there is one that decodes to an object.
  datatype TxBody = TxBody(fee: seq<Coin>, message: Option<map<string, string>>)

  datatype TxResult = TxResult(
    txHash: string, height: string, timestamp: string, gasWanted: string, gasUsed: string,
    events: seq<Event>, logs: seq<seq<Event>>)

  datatype SearchResponse = SearchResponse(txs: seq<TxBody>, txResponses: seq<TxResult>)

  const SIGNER_FIELDS: seq<string> := ["creator", "sender", "from_address", "signer"]

  // The first of the fields that is present and not empty.
  function FirstField(msg: map<string, string>, fields: seq<string>): string {
    if fields == [] then ""
    else if fields[0] in msg && msg[fields[0]] != "" then msg[fields[0]]
    else FirstField(msg, fields[1..])
  }

  function SignerOf(tx: Option<TxBody>): string {
    if tx.None? || tx.value.message.None? then "" else FirstField(tx.value.message.value, SIGNER_FIELDS)
  }

  // The first message has a non-empty field of this name.
  predicate Names(tx: Option<TxBody>, field: string) {
    && tx.Some? && tx.value.message.Some?
    && field in tx.value.message.value && tx.value.message.value[field] != ""
  }

  lemma FieldStep(msg: map<string, string>, field: string, rest: seq<string>)
    ensures FirstField(msg, [field] + rest) ==
              if field in msg && msg[field] != "" then msg[field] else FirstField(msg, rest)
  {
    assert ([field] + rest)[1..] == rest;
  }

  lemma SignerIs(tx: Option<TxBody>)
    ensures SignerOf(tx) == if Names(tx, "creator") then tx.value.message.value["creator"]
                            else if Names(tx, "sender") then tx.value.message.value["sender"]
                            else if Names(tx, "from_address") then tx.value.message.value["from_address"]
                            else if Names(tx, "signer") then tx.value.message.value["signer"]
                            else ""
  {
    if tx.Some? && tx.value.message.Some? {
      var msg := tx.value.message.value;
      FieldStep(msg, "creator", ["sender", "from_address", "signer"]);
      FieldStep(msg, "sender", ["from_address", "signer"]);
      FieldStep(msg, "from_address", ["signer"]);
      FieldStep(msg, "signer", []);
      assert SIGNER_FIELDS == ["creator"] + ["sender", "from_address", "signer"];
      assert ["sender", "from_address", "signer"] == ["sender"] + ["from_address", "signer"];
      assert ["from_address", "signer"] == ["from_address"] + ["signer"];
      assert ["signer"] == ["signer"] + [];
    }
  }

  method ExtractTxSigner(tx: Option<TxBody>) returns (signer: string)
    ensures signer == SignerOf(tx)
    ensures signer == if Names(tx, "creator") then tx.value.message.value["creator"]
                      else if Names(tx, "sender") then tx.value.message.value["sender"]
                      else if Names(tx, "from_address") then tx.value.message.value["from_address"]
                      else if Names(tx, "signer") then tx.value.message.value["signer"]
                      else ""
  {
    SignerIs(tx);
    if tx.None? || tx.value.message.None? {
      return "";
    }
    var msg := tx.value.message.value;
    for i := 0 to |SIGNER_FIELDS|
      invariant SignerOf(tx) == FirstField(msg, SIGNER_FIELDS[i..])
    {
      var field := SIGNER_FIELDS[i];
      assert SIGNER_FIELDS[i..][1..] == SIGNER_FIELDS[i + 1..];
      if field in msg && msg[field] != "" {
        return msg[field];
      }
    }
    return "";
  }

  function PartiesOf(action: EnrichAction, txType: string, tx: Option<TxBody>, moduleAddr: string): Parties {
    Parties(txType, action.creator, action.supernode, moduleAddr, SignerOf(tx))
  }

  ghost function FlowOf(action: EnrichAction, txType: string, res: TxResult, tx: Option<TxBody>,
        moduleAddr: string): Option<TransferFlow> {
    Selected(PartiesOf(action, txType, tx, moduleAddr), AllTransfers(ReadEvent, res.events, res.logs))
  }

  // The row built from one transaction.  clock stands for time.Parse.
  ghost function RowOf(action: EnrichAction, txType: string, res: TxResult, tx: Option<TxBody>, moduleAddr: string,
                       clock: string -> int): ActionTx {
    var flow := FlowOf(action, txType, res, tx, moduleAddr);
    var fee := if tx.Some? && tx.value.fee != [] then Some(tx.value.fee[0]) else None;
    ActionTx(
      action.id, txType, res.txHash,
      ParseInt64(res.height).value, clock(res.timestamp),
      Some(ParseInt64(res.gasWanted).value), Some(ParseInt64(res.gasUsed).value),
      if flow.Some? then flow.value.amount else None,
      if flow.Some? then flow.value.denom else None,
      if flow.Some? then flow.value.payer else None,
      if flow.Some? then flow.value.payee else None,
      if fee.Some? then Some(fee.value.amount) else None,
      if fee.Some? then Some(fee.value.denom) else None)
  }

  method ParseTxResult(action: EnrichAction, txType: string, res: TxResult, tx: Option<TxBody>, moduleAddr: string,
                       clock: string -> int)
    returns (row: ActionTx)
    ensures row == RowOf(action, txType, res, tx, moduleAddr, clock)
    ensures row.actionID == action.id && row.txType == txType && row.txHash == res.txHash
    ensures row.blockTime == clock(res.timestamp)
    ensures tx.Some? && tx.value.fee != [] ==>
              row.txFee == Some(tx.value.fee[0].amount) && row.txFeeDenom == Some(tx.value.fee[0].denom)
    ensures tx.None? || tx.value.fee == [] ==> row.txFee == None && row.txFeeDenom == None
  {
    row := ActionTx(
      action.id, txType, res.txHash,
      ParseInt64(res.height).value, clock(res.timestamp),
      Some(ParseInt64(res.gasWanted).value), Some(ParseInt64(res.gasUsed).value),
      None, None, None, None, None, None);
    if tx.Some? && |tx.value.fee| > 0 {
      var fee := tx.value.fee[0];
      row := row.(txFee := Some(fee.amount), txFeeDenom := Some(fee.denom));
    }
    var txSigner := ExtractTxSigner(tx);
    var p := Parties(txType, action.creator, action.supernode, moduleAddr, txSigner);
    var flow := ExtractTransferFlow(p, res.events, res.logs);
    if flow.Some? {
      row := row.(actionPrice := flow.value.amount, actionPriceDenom := flow.value.denom,
                  flowPayer := flow.value.payer, flowPayee := flow.value.payee);
    }
  }

  function BodyAt(resp: SearchResponse, i: nat): Option<TxBody> {
    if i < |resp.txs| then Some(resp.txs[i]) else None
  }

  // The rows built from the first n transactions of an answer.
  ghost function FirstRows(build: (TxResult, Option<TxBody>) -> ActionTx, resp: SearchResponse,
        n: nat): (rows: seq<ActionTx>)
    requires n <= |resp.txResponses|
    ensures |rows| == n
  {
    if n == 0 then []
    else FirstRows(build, resp, n - 1) + [build(resp.txResponses[n - 1], BodyAt(resp, n - 1))]
  }

  ghost function Builder(action: EnrichAction, txType: string, moduleAddr: string, clock: string -> int):
    (TxResult, Option<TxBody>) -> ActionTx
  {
    (res, tx) => RowOf(action, txType, res, tx, moduleAddr, clock)
  }

  // The rows one query contributes; a failed query contributes none.
  ghost function QueryRows(action: EnrichAction, txType: string, resp: Option<SearchResponse>, moduleAddr: string,
                           clock: string -> int): seq<ActionTx> {
    if resp.None? then []
    else FirstRows(Builder(action, txType, moduleAddr, clock), resp.value, |resp.value.txResponses|)
  }

  // All rows for an action, in the order of the three queries.  search gives
  // the answer of the node per event type.
  ghost function ActionRows(action: EnrichAction, search: string -> Option<SearchResponse>, moduleAddr: string,
                            clock: string -> int): seq<ActionTx> {
    QueryRows(action, "register", search("action_registered.action_id"), moduleAddr, clock)
    + QueryRows(action, "finalize", search("action_finalized.action_id"), moduleAddr, clock)
    + QueryRows(action, "approve", search("action_approved.action_id"), moduleAddr, clock)
  }

  class LumeraClient {
    var actionModuleAddr: string
    var moduleAddrFetched: bool

    constructor ()
      ensures actionModuleAddr == "" && !moduleAddrFetched
    {
      actionModuleAddr, moduleAddrFetched := "", false;
    }

    ghost predicate Cached()
      reads this
    {
      moduleAddrFetched && actionModuleAddr != ""
    }

    // fetched is what the node would answer; None is a failed request.
    method GetActionModuleAccount(fetched: Option<string>) returns (addr: Option<string>)
      modifies this
      ensures old(Cached()) ==> addr == Some(old(actionModuleAddr)) && unchanged(this)
      ensures !old(Cached()) && (fetched == None || fetched == Some("")) ==> addr == None && unchanged(this)
      ensures !old(Cached()) && fetched.Some? && fetched.value != "" ==> addr == fetched
      ensures addr.Some? ==> Cached() && addr.value == actionModuleAddr
      ensures addr.None? ==> !Cached()
    {
      if moduleAddrFetched && actionModuleAddr != "" {
        return Some(actionModuleAddr);
      }
      if fetched.None? || fetched.value == "" {
        return None;
      }
      actionModuleAddr := fetched.value;
      moduleAddrFetched := true;
      return Some(actionModuleAddr);
    }

    // Never reports an error: failed queries are skipped.
    method GetActionTransactions(action: EnrichAction, fetched: Option<string>,
                                 search: string -> Option<SearchResponse>, clock: string -> int)
      returns (results: seq<ActionTx>)
      modifies this
      ensures results == ActionRows(action, search, if Cached() then actionModuleAddr else "", clock)
      ensures old(Cached()) ==> unchanged(this)
    {
      var addr := GetActionModuleAccount(fetched);
      var moduleAddr := if addr.Some? then addr.value else "";
      var registers := RunQuery(action, "register", search("action_registered.action_id"), moduleAddr, clock);
      var finalizes := RunQuery(action, "finalize", search("action_finalized.action_id"), moduleAddr, clock);
      var approves := RunQuery(action, "approve", search("action_approved.action_id"), moduleAddr, clock);
      return registers + finalizes + approves;
    }

    // One round of the loop over the three queries.
    static method RunQuery(action: EnrichAction, txType: string, resp: Option<SearchResponse>, moduleAddr: string,
                           clock: string -> int)
      returns (rows: seq<ActionTx>)
      ensures rows == QueryRows(action, txType, resp, moduleAddr, clock)
    {
      rows := [];
      if resp.None? {
        return;
      }
      var txs := resp.value;
      ghost var build := Builder(action, txType, moduleAddr, clock);
      for i := 0 to |txs.txResponses|
        invariant rows == FirstRows(build, txs, i)
      {
        var tx := None;
        if i < |txs.txs| {
          tx := Some(txs.txs[i]);
        }
        var row := ParseTxResult(action, txType, txs.txResponses[i], tx, moduleAddr, clock);
        rows := rows + [row];
      }
    }
  }

  // What every row that reaches the table from the chain looks like.
  ghost predicate ChainRow(tx: ActionTx, id: nat) {
    && tx.actionID == id
    && KnownType(tx.txType)
    && PriceShape(tx.actionPrice, tx.actionPriceDenom)
  }

  lemma RowIsChainRow(action: EnrichAction, txType: string, res: TxResult, tx: Option<TxBody>, moduleAddr: string,
                      clock: string -> int)
    requires KnownType(txType)
    ensures ChainRow(RowOf(action, txType, res, tx, moduleAddr, clock), action.id)
  {
    SelectedHasPriceShape(PartiesOf(action, txType, tx, moduleAddr), res.events, res.logs);
  }

  lemma {:induction false} FirstRowsMembers(build: (TxResult, Option<TxBody>) -> ActionTx, resp: SearchResponse, n: nat,
                                            row: ActionTx)
    requires n <= |resp.txResponses| && row in FirstRows(build, resp, n)
    ensures exists res, tx :: row == build(res, tx)
  {
    if row in FirstRows(build, resp, n - 1) {
      FirstRowsMembers(build, resp, n - 1, row);
    }
  }

  lemma QueryRowsAreChainRows(action: EnrichAction, txType: string, resp: Option<SearchResponse>, moduleAddr: string,
                              clock: string -> int, row: ActionTx)
    requires KnownType(txType)
    requires row in QueryRows(action, txType, resp, moduleAddr, clock)
    ensures ChainRow(row, action.id) && row.txType == txType
  {
    var build := Builder(action, txType, moduleAddr, clock);
    FirstRowsMembers(build, resp.value, |resp.value.txResponses|, row);
    var res, tx :| row == build(res, tx);
    RowIsChainRow(action, txType, res, tx, moduleAddr, clock);
  }

  lemma ActionRowsAreChainRows(action: EnrichAction, search: string -> Option<SearchResponse>, moduleAddr: string,
                               clock: string -> int, row: ActionTx)
    requires row in ActionRows(action, search, moduleAddr, clock)
    ensures ChainRow(row, action.id)
  {
    if row in QueryRows(action, "register", search("action_registered.action_id"), moduleAddr, clock) {
      QueryRowsAreChainRows(action, "register", search("action_registered.action_id"), moduleAddr, clock, row);
    } else if row in QueryRows(action, "finalize", search("action_finalized.action_id"), moduleAddr, clock) {
      QueryRowsAreChainRows(action, "finalize", search("action_finalized.action_id"), moduleAddr, clock, row);
    } else {
      QueryRowsAreChainRows(action, "approve", search("action_approved.action_id"), moduleAddr, clock, row);
    }
  }

  predicate FindsNothing(resp: Option<SearchResponse>) {
    resp.None? || resp.value.txResponses == []
  }

  // An empty answer means that no query returned a transaction: each one
  // failed or found nothing.  It does not mean that the chain has none.
  lemma {:induction false} NoRowsIff(action: EnrichAction, search: string -> Option<SearchResponse>,
        moduleAddr: string, clock: string -> int)
    ensures ActionRows(action, search, moduleAddr, clock) == [] <==>
              && FindsNothing(search("action_registered.action_id"))
              && FindsNothing(search("action_finalized.action_id"))
              && FindsNothing(search("action_approved.action_id"))
  {
    assert |ActionRows(action, search, moduleAddr, clock)|
        == |QueryRows(action, "register", search("action_registered.action_id"), moduleAddr, clock)|
         + |QueryRows(action, "finalize", search("action_finalized.action_id"), moduleAddr, clock)|
         + |QueryRows(action, "approve", search("action_approved.action_id"), moduleAddr, clock)|;
  }

  // A register row comes from a non-empty answer to the register query alone,
  // so a failed register query beside a successful finalize query leaves the
  // action without one.
  lemma RegisterRowIff(action: EnrichAction, search: string -> Option<SearchResponse>, moduleAddr: string,
        clock: string -> int)
    ensures (exists row :: row in ActionRows(action, search, moduleAddr, clock) && row.txType == "register") <==>
              !FindsNothing(search("action_registered.action_id"))
  {
    var resp := search("action_registered.action_id");
    var first := QueryRows(action, "register", resp, moduleAddr, clock);
    var second := QueryRows(action, "finalize", search("action_finalized.action_id"), moduleAddr, clock);
    var third := QueryRows(action, "approve", search("action_approved.action_id"), moduleAddr, clock);
    if !FindsNothing(resp) {
      assert first[0] in ActionRows(action, search, moduleAddr, clock);
    }
    forall row | row in ActionRows(action, search, moduleAddr, clock) && row.txType == "register"
      ensures row in first
    {
      if row in second {
        QueryRowsAreChainRows(action, "finalize", search("action_finalized.action_id"), moduleAddr, clock, row);
      } else if row in third {
        QueryRowsAreChainRows(action, "approve", search("action_approved.action_id"), moduleAddr, clock, row);
      }
    }
  }
}
