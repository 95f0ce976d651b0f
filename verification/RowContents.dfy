// What a stored transaction row contains, in terms of what the node reported.
module RowContents {
  import opened Sql
  import opened GoText
  import opened Tables
  import opened Transfers
  import opened Client
  import opened Enricher
  import opened EnricherGuarantees
  import opened EnrichedRows

  // ---- The numbers and the fee ----

  predicate Fits64(n: int) {
    -0x8000_0000_0000_0000 <= n <= 0x7fff_ffff_ffff_ffff
  }

  // Numbers the node writes come back as they are; text that is no number
  // becomes 0.
  lemma NumbersAreKept(action: EnrichAction, txType: string, res: TxResult, tx: Option<TxBody>, moduleAddr: string,
        clock: string -> int, n: int)
    requires Fits64(n)
    ensures var row := RowOf(action, txType, res, tx, moduleAddr, clock);
            && (res.height == FormatInt(n) ==> row.height == n)
            && (res.gasWanted == FormatInt(n) ==> row.gasWanted == Some(n))
            && (res.gasUsed == FormatInt(n) ==> row.gasUsed == Some(n))
            && (!IsNumberText(res.height) ==> row.height == 0)
            && (!IsNumberText(res.gasWanted) ==> row.gasWanted == Some(0))
            && (!IsNumberText(res.gasUsed) ==> row.gasUsed == Some(0))
  {
    ParseOfFormat(n);
    SyntaxErrorIff(res.height);
    SyntaxErrorIff(res.gasWanted);
    SyntaxErrorIff(res.gasUsed);
  }

  // ---- The flow ----

  // The row reports this flow.
  ghost predicate Reports(row: ActionTx, tf: TransferFlow) {
    && row.actionPrice == tf.amount && row.actionPriceDenom == tf.denom
    && row.flowPayer == tf.payer && row.flowPayee == tf.payee
  }

  // If the only transfer, however often it is repeated, goes from s to r with
  // the coin d + u, the row says so.
  lemma OneTransferRow(action: EnrichAction, txType: string, res: TxResult, tx: Option<TxBody>, moduleAddr: string,
        clock: string -> int, e: Event, s: string, r: string, d: string, u: string)
    requires txType == "register" || txType == "finalize" || txType == "approve"
    requires Occurs(e, res.events, res.logs) && e.typ == "transfer"
    requires forall x :: Occurs(x, res.events, res.logs) && x.typ == "transfer" ==> x == e
    requires HasKey(e.attributes, "sender") && OnlyValue(e.attributes, "sender", s)
    requires HasKey(e.attributes, "recipient") && OnlyValue(e.attributes, "recipient", r)
    requires HasKey(e.attributes, "amount") && OnlyValue(e.attributes, "amount", d + u)
    requires AllDigits(d) && d != "" && u != "" && !IsDigit(u[0])
    ensures var row := RowOf(action, txType, res, tx, moduleAddr, clock);
            && row.flowPayer == Some(s) && row.flowPayee == Some(r)
            && row.actionPrice == Some(d) && row.actionPriceDenom == Some(u)
  {
    OneTransferIsRead(e.attributes, s, r, d, u);
    var ts := AllTransfers(ReadEvent, res.events, res.logs);
    var tf := TransferFlow(Some(d), Some(u), Some(s), Some(r));
    AllTransfersMembers(ReadEvent, res.events, res.logs, tf);
    assert ReadEvent(e) == Some(tf);
    var p := PartiesOf(action, txType, tx, moduleAddr);
    var best := ts[BestIndex(p, ts)];
    AllTransfersMembers(ReadEvent, res.events, res.logs, best);
    var x :| Occurs(x, res.events, res.logs) && ReadEvent(x) == Some(best);
  }

  // The row has no flow exactly when no transfer event names a sender or a
  // recipient.
  lemma NoFlowRowIff(action: EnrichAction, txType: string, res: TxResult, tx: Option<TxBody>, moduleAddr: string,
        clock: string -> int)
    requires txType == "register" || txType == "finalize" || txType == "approve"
    ensures var row := RowOf(action, txType, res, tx, moduleAddr, clock);
            row.flowPayer.None? && row.flowPayee.None? <==>
              forall e :: Occurs(e, res.events, res.logs) && e.typ == "transfer" ==>
                !HasKey(e.attributes, "sender") && !HasKey(e.attributes, "recipient")
    ensures var row := RowOf(action, txType, res, tx, moduleAddr, clock);
            row.flowPayer.None? && row.flowPayee.None? ==> row.actionPrice.None? && row.actionPriceDenom.None?
  {
    var p := PartiesOf(action, txType, tx, moduleAddr);
    NoFlowIff(p, ReadEvent, res.events, res.logs);
    forall e ensures ReadEvent(e).Some? <==>
                       e.typ == "transfer" && (HasKey(e.attributes, "sender") || HasKey(e.attributes, "recipient"))
    {
      ReadIff(e);
    }
    FlowHasParty(p, res);
  }

  lemma ReadIff(e: Event)
    ensures ReadEvent(e).Some? <==>
              e.typ == "transfer" && (HasKey(e.attributes, "sender") || HasKey(e.attributes, "recipient"))
  {
    TransferIff(e.attributes);
  }

  lemma FlowHasParty(p: Parties, res: TxResult)
    ensures var flow := Selected(p, AllTransfers(ReadEvent, res.events, res.logs));
            flow.Some? ==> flow.value.payer.Some? || flow.value.payee.Some?
  {
    var ts := AllTransfers(ReadEvent, res.events, res.logs);
    if Selected(p, ts).Some? {
      AllTransfersMembers(ReadEvent, res.events, res.logs, ts[BestIndex(p, ts)]);
    }
  }

  // Some transfer event names a sender or a recipient.
  ghost predicate HasTransfer(res: TxResult) {
    exists e :: Occurs(e, res.events, res.logs) && ReadEvent(e).Some?
  }

  // The flow of a register row is read from the first event, top level before
  // logs, that pays the known module account; else from the first that the
  // action's creator pays; else from the first.
  lemma RegisterRowFlow(action: EnrichAction, res: TxResult, tx: Option<TxBody>, moduleAddr: string,
        clock: string -> int, wishes: seq<TransferFlow -> bool>)
    requires HasTransfer(res) && |wishes| == 3
    requires forall tf :: wishes[0](tf) <==> moduleAddr != "" && tf.payee == Some(moduleAddr)
    requires forall tf :: wishes[1](tf) <==> tf.payer == Some(action.creator)
    requires forall tf :: wishes[2](tf)
    ensures exists tf :: IsEventChoice(ReadEvent, res.events + Concat(res.logs), wishes, tf)
                      && Reports(RowOf(action, "register", res, tx, moduleAddr, clock), tf)
  {
    var p := PartiesOf(action, "register", tx, moduleAddr);
    NoFlowIff(p, ReadEvent, res.events, res.logs);
    var ts := AllTransfers(ReadEvent, res.events, res.logs);
    RegisterChoice(p, ts, wishes);
    ChoiceIsEventChoice(ReadEvent, res.events, res.logs, wishes, Selected(p, ts).value);
    assert Reports(RowOf(action, "register", res, tx, moduleAddr, clock), Selected(p, ts).value);
  }

  // The flow of a finalize or approve row, with the signer of its own
  // transaction and the action's supernode.
  lemma PayoutRowFlow(action: EnrichAction, txType: string, res: TxResult, tx: Option<TxBody>, moduleAddr: string,
        clock: string -> int, signer: string, wishes: seq<TransferFlow -> bool>)
    requires txType == "finalize" || txType == "approve"
    requires HasTransfer(res) && signer == SignerOf(tx) && |wishes| == 7
    requires forall tf :: wishes[0](tf) <==> (&& moduleAddr != "" && tf.payer == Some(moduleAddr)
                                              && signer != "" && tf.payee == Some(signer))
    requires forall tf :: wishes[1](tf) <==> (&& moduleAddr != "" && tf.payer == Some(moduleAddr)
                                              && action.supernode != "" && tf.payee == Some(action.supernode))
    requires forall tf :: wishes[2](tf) <==> moduleAddr != "" && tf.payer == Some(moduleAddr)
    requires forall tf :: wishes[3](tf) <==> signer != "" && tf.payee == Some(signer)
    requires forall tf :: wishes[4](tf) <==> action.supernode != "" && tf.payee == Some(action.supernode)
    requires forall tf :: wishes[5](tf) <==> tf.payer.Some? && tf.payer != Some(action.creator)
    requires forall tf :: wishes[6](tf)
    ensures exists tf :: IsEventChoice(ReadEvent, res.events + Concat(res.logs), wishes, tf)
                      && Reports(RowOf(action, txType, res, tx, moduleAddr, clock), tf)
  {
    var p := PartiesOf(action, txType, tx, moduleAddr);
    NoFlowIff(p, ReadEvent, res.events, res.logs);
    var ts := AllTransfers(ReadEvent, res.events, res.logs);
    PayoutChoice(p, ts, wishes);
    ChoiceIsEventChoice(ReadEvent, res.events, res.logs, wishes, Selected(p, ts).value);
    assert Reports(RowOf(action, txType, res, tx, moduleAddr, clock), Selected(p, ts).value);
  }

  // ---- Which response a row comes from ----

  function Found(resp: Option<SearchResponse>): nat {
    if resp.None? then 0 else |resp.value.txResponses|
  }

  // Response k of a query together with body k, if there is one.
  ghost function RowAt(action: EnrichAction, txType: string, resp: SearchResponse, k: nat, moduleAddr: string,
                       clock: string -> int): ActionTx
    requires k < |resp.txResponses|
  {
    RowOf(action, txType, resp.txResponses[k], if k < |resp.txs| then Some(resp.txs[k]) else None, moduleAddr, clock)
  }

  lemma {:induction false} FirstRowsAt(build: (TxResult, Option<TxBody>) -> ActionTx, resp: SearchResponse, n: nat,
        k: nat)
    requires k < n <= |resp.txResponses|
    ensures FirstRows(build, resp, n)[k] ==
              build(resp.txResponses[k], if k < |resp.txs| then Some(resp.txs[k]) else None)
  {
    if k < n - 1 {
      FirstRowsAt(build, resp, n - 1, k);
    }
  }

  // A query contributes one row per response; row k comes from response k and
  // body k.
  lemma RowOfResponse(action: EnrichAction, txType: string, resp: Option<SearchResponse>, moduleAddr: string,
        clock: string -> int, k: nat)
    requires k < Found(resp)
    ensures |QueryRows(action, txType, resp, moduleAddr, clock)| == Found(resp)
    ensures QueryRows(action, txType, resp, moduleAddr, clock)[k]
         == RowAt(action, txType, resp.value, k, moduleAddr, clock)
  {
    FirstRowsAt(Builder(action, txType, moduleAddr, clock), resp.value, |resp.value.txResponses|, k);
  }

  // The answer is the register rows, all from the register query, then the
  // finalize rows, all from the finalize query, then the approve rows, all from
  // the approve query.
  lemma AnswerParts(action: EnrichAction, search: string -> Option<SearchResponse>, moduleAddr: string,
        clock: string -> int) returns (a: seq<ActionTx>, b: seq<ActionTx>, c: seq<ActionTx>)
    ensures ActionRows(action, search, moduleAddr, clock) == a + b + c
    ensures a == QueryRows(action, "register", search("action_registered.action_id"), moduleAddr, clock)
    ensures b == QueryRows(action, "finalize", search("action_finalized.action_id"), moduleAddr, clock)
    ensures c == QueryRows(action, "approve", search("action_approved.action_id"), moduleAddr, clock)
    ensures forall row :: row in a ==> row.txType == "register"
    ensures forall row :: row in b ==> row.txType == "finalize"
    ensures forall row :: row in c ==> row.txType == "approve"
  {
    a := QueryRows(action, "register", search("action_registered.action_id"), moduleAddr, clock);
    b := QueryRows(action, "finalize", search("action_finalized.action_id"), moduleAddr, clock);
    c := QueryRows(action, "approve", search("action_approved.action_id"), moduleAddr, clock);
    forall row | row in a ensures row.txType == "register" {
      QueryRowsAreChainRows(action, "register", search("action_registered.action_id"), moduleAddr, clock, row);
    }
    forall row | row in b ensures row.txType == "finalize" {
      QueryRowsAreChainRows(action, "finalize", search("action_finalized.action_id"), moduleAddr, clock, row);
    }
    forall row | row in c ensures row.txType == "approve" {
      QueryRowsAreChainRows(action, "approve", search("action_approved.action_id"), moduleAddr, clock, row);
    }
  }

  // ---- From the node to the table ----

  // The rows of one type are those at positions from..to.
  ghost predicate TypeIsAt(rows: seq<ActionTx>, txType: string, from: nat, to: nat) {
    && from <= to <= |rows|
    && forall i :: 0 <= i < |rows| ==> (rows[i].txType == txType <==> from <= i < to)
  }

  lemma PartTypes(a: seq<ActionTx>, b: seq<ActionTx>, c: seq<ActionTx>)
    requires forall row :: row in a ==> row.txType == "register"
    requires forall row :: row in b ==> row.txType == "finalize"
    requires forall row :: row in c ==> row.txType == "approve"
    ensures TypeIsAt(a + b + c, "register", 0, |a|)
    ensures TypeIsAt(a + b + c, "finalize", |a|, |a| + |b|)
    ensures TypeIsAt(a + b + c, "approve", |a| + |b|, |a| + |b| + |c|)
  {
    forall i | 0 <= i < |a + b + c|
      ensures (a + b + c)[i].txType == if i < |a| then "register" else if i < |a| + |b| then "finalize" else "approve"
    {
      if i < |a| {
        assert a[i] in a;
      } else if i < |a| + |b| {
        assert b[i - |a|] in b;
      } else {
        assert c[i - |a| - |b|] in c;
      }
    }
  }

  lemma LastOfPart(env: Env, b: nat, t: TxTable, minID: nat, a: EnrichAction, x: seq<ActionTx>, y: seq<ActionTx>,
        z: seq<ActionTx>, txType: string, last: ActionTx)
    requires Faithful(env) && a in RunFrom(env, b, t, minID).visited
    requires env.chain(a) == Some(x + y + z) && forall i: nat :: env.writes(a.id, i)
    requires forall row :: row in x ==> row.txType == "register"
    requires forall row :: row in y ==> row.txType == "finalize"
    requires forall row :: row in z ==> row.txType == "approve"
    requires || (txType == "register" && x != [] && last == x[|x| - 1])
             || (txType == "finalize" && y != [] && last == y[|y| - 1])
             || (txType == "approve" && z != [] && last == z[|z| - 1])
    ensures TxKey(a.id, txType) in RunFrom(env, b, t, minID).txs
    ensures RunFrom(env, b, t, minID).txs[TxKey(a.id, txType)] == last
  {
    PartTypes(x, y, z);
    var to := if txType == "register" then |x| else if txType == "finalize" then |x| + |y| else |x| + |y| + |z|;
    LastAnswerIsStored(env, b, t, minID, a, txType, to - 1);
  }

  // When the writes for a visited action land, the table ends with the last row
  // of the query for each type, which by RowOfResponse comes from the last
  // response and its own body.
  lemma LastResponseIsStored(env: Env, b: nat, t: TxTable, minID: nat, a: EnrichAction,
        search: string -> Option<SearchResponse>, moduleAddr: string, clock: string -> int,
        txType: string, query: string, rows: seq<ActionTx>)
    requires Faithful(env) && a in RunFrom(env, b, t, minID).visited
    requires env.chain(a) == Some(ActionRows(a, search, moduleAddr, clock))
    requires forall i: nat :: env.writes(a.id, i)
    requires || (txType == "register" && query == "action_registered.action_id")
             || (txType == "finalize" && query == "action_finalized.action_id")
             || (txType == "approve" && query == "action_approved.action_id")
    requires rows == QueryRows(a, txType, search(query), moduleAddr, clock) && rows != []
    ensures TxKey(a.id, txType) in RunFrom(env, b, t, minID).txs
    ensures RunFrom(env, b, t, minID).txs[TxKey(a.id, txType)] == rows[|rows| - 1]
  {
    var x, y, z := AnswerParts(a, search, moduleAddr, clock);
    LastOfPart(env, b, t, minID, a, x, y, z, txType, rows[|rows| - 1]);
  }
}
