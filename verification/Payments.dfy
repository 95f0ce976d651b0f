// Payment statistics of a supernode (internal/db/db.go, GetSupernodePaymentStats).
module Payments {
  import opened Sql
  import opened GoText
  import opened Tables
  import opened Collections
  import opened EnricherRuns

  // A text-to-numeric cast; None is a cast error.  Only its meaning on digit
  // strings is fixed.
  ghost predicate CastsDigits(cast: string -> Option<real>) {
    forall s :: s != "" && AllDigits(s) ==> cast(s) == Some(DigitsValue(s) as real)
  }

  // WHERE "txType" = 'finalize' AND "flowPayee" = $1
  ghost function PayeeRows(t: TxTable, payee: string): set<TxKey> {
    set k | k in t && t[k].txType == "finalize" && t[k].flowPayee == Some(payee)
  }

  function Casts(cast: string -> Option<real>, column: Option<string>): bool {
    column.Some? ==> cast(column.value).Some?
  }

  // What SUM adds for one row: NULL contributes nothing.
  function Summand(cast: string -> Option<real>, column: Option<string>): real {
    if column.Some? && cast(column.value).Some? then cast(column.value).value else 0.0
  }

  ghost function PriceAt(t: TxTable, cast: string -> Option<real>): TxKey -> real {
    k => if k in t then Summand(cast, t[k].actionPrice) else 0.0
  }

  ghost function FeeAt(t: TxTable, cast: string -> Option<real>): TxKey -> real {
    k => if k in t then Summand(cast, t[k].txFee) else 0.0
  }

  ghost function DenomAt(t: TxTable): TxKey -> Option<string> {
    k => if k in t then t[k].actionPriceDenom else None
  }

  ghost function PayeeAt(t: TxTable): TxKey -> Option<string> {
    k => if k in t then t[k].flowPayee else None
  }

  datatype PaymentStat = PaymentStat(denom: string, totalActionPrice: real, totalTxFee: real)

  // The query fails as a whole if any cast fails.
  ghost predicate QueryFails(t: TxTable, payee: string, cast: string -> Option<real>) {
    exists k :: k in PayeeRows(t, payee) && (!Casts(cast, t[k].actionPrice) || !Casts(cast, t[k].txFee))
  }

  // GROUP BY "actionPriceDenom": one row per group, in any order.
  ghost predicate IsPaymentStats(t: TxTable, payee: string, cast: string -> Option<real>,
                                 groups: seq<Option<string>>, stats: seq<PaymentStat>) {
    var rows := PayeeRows(t, payee);
    && NoDuplicates(groups) && |stats| == |groups|
    && (forall k :: k in rows ==> DenomAt(t)(k) in groups)
    && (forall i :: 0 <= i < |groups| ==> Group(rows, DenomAt(t), groups[i]) != {})
    && (forall i :: 0 <= i < |stats| ==>
          stats[i] == PaymentStat(CoalesceTo(groups[i], ""),
                                  SumSet(Group(rows, DenomAt(t), groups[i]), PriceAt(t, cast)),
                                  SumSet(Group(rows, DenomAt(t), groups[i]), FeeAt(t, cast))))
  }

  // The price cast never fails on rows the program stored.
  lemma PriceCastNeverFails(t: TxTable, cast: string -> Option<real>, k: TxKey)
    requires GoodTable(t) && CastsDigits(cast) && k in t
    ensures Casts(cast, t[k].actionPrice)
    ensures t[k].actionPrice.Some? ==>
              AllDigits(t[k].actionPrice.value) && PriceAt(t, cast)(k) == DigitsValue(t[k].actionPrice.value) as real
  {
    assert GoodRow(t[k]);
  }

  // With any number of enrichers, in every state of every run.
  lemma PricesCastInEveryRun(n: nat, states: seq<State>, steps: seq<Step>, i: nat,
        cast: string -> Option<real>, k: TxKey)
    requires IsRun(n, states, steps) && i < |states| && CastsDigits(cast) && k in states[i].txs
    ensures Casts(cast, states[i].txs[k].actionPrice)
    ensures states[i].txs[k].actionPriceDenom != Some("")
  {
    TableAlwaysGood(n, states, steps, i);
    PriceCastNeverFails(states[i].txs, cast, k);
    assert GoodRow(states[i].txs[k]);
  }

  // So the query fails exactly when a stored fee, which is kept as the chain
  // sent it, is not numeric.
  lemma QueryFailsIff(t: TxTable, payee: string, cast: string -> Option<real>)
    requires GoodTable(t) && CastsDigits(cast)
    ensures QueryFails(t, payee, cast) <==> exists k :: k in PayeeRows(t, payee) && !Casts(cast, t[k].txFee)
  {
    forall k | k in PayeeRows(t, payee) ensures Casts(cast, t[k].actionPrice) {
      PriceCastNeverFails(t, cast, k);
    }
  }

  // Any fee text the chain reports is stored by some run of one enricher, and
  // one that does not cast then breaks the query.
  lemma FeeCanBreakQuery(fee: string, payee: string, cast: string -> Option<real>)
    returns (states: seq<State>, steps: seq<Step>)
    ensures IsRun(1, states, steps)
    ensures QueryFails(states[|steps|].txs, payee, cast) <==> cast(fee).None?
    ensures GoodTable(states[|steps|].txs)
  {
    var tx := ActionTx(1, "finalize", "A", 7, 0, None, None, None, None, None, Some(payee), Some(fee), None);
    states, steps := AnyRowIsStored(tx);
    TableAlwaysGood(1, states, steps, |steps|);
    assert TxKey(1, "finalize") in PayeeRows(states[|steps|].txs, payee);
  }

  // No two output rows share a denomination: NULL is reported as the empty
  // string, but no stored denomination is empty.
  lemma {:induction false} DenomsDistinct(t: TxTable, payee: string, cast: string -> Option<real>,
                       groups: seq<Option<string>>, stats: seq<PaymentStat>, i: nat, j: nat)
    requires GoodTable(t) && IsPaymentStats(t, payee, cast, groups, stats)
    requires i < j < |stats|
    ensures stats[i].denom != stats[j].denom
  {
    forall g | 0 <= g < |groups| ensures groups[g] != Some("") {
      var members := Group(PayeeRows(t, payee), DenomAt(t), groups[g]);
      assert members != {};
      var k :| k in members;
      assert GoodRow(t[k]);
    }
  }

  // ---- The totals ----

  // What a text column adds to a sum: the number it is written as, and nothing
  // when it is NULL.
  lemma SummandOfNumber(cast: string -> Option<real>, n: nat)
    requires CastsDigits(cast)
    ensures Summand(cast, Some(Decimal(n))) == n as real && Summand(cast, None) == 0.0
  {
    DecimalRoundTrip(n);
  }

  function Prices(stats: seq<PaymentStat>): (ps: seq<real>)
    ensures |ps| == |stats| && forall i :: 0 <= i < |ps| ==> ps[i] == stats[i].totalActionPrice
  {
    seq(|stats|, i requires 0 <= i < |stats| => stats[i].totalActionPrice)
  }

  function Fees(stats: seq<PaymentStat>): (fs: seq<real>)
    ensures |fs| == |stats| && forall i :: 0 <= i < |fs| ==> fs[i] == stats[i].totalTxFee
  {
    seq(|stats|, i requires 0 <= i < |stats| => stats[i].totalTxFee)
  }

  // The denominations of one payee account for the prices and the fees of all
  // its finalize rows.
  lemma {:induction false} PayeeConserved(t: TxTable, payee: string, cast: string -> Option<real>,
        groups: seq<Option<string>>, stats: seq<PaymentStat>,
        rows: set<TxKey>, price: TxKey -> real, fee: TxKey -> real)
    requires IsPaymentStats(t, payee, cast, groups, stats)
    requires forall k :: k in rows <==> k in t && t[k].txType == "finalize" && t[k].flowPayee == Some(payee)
    requires forall k :: k in rows ==>
               price(k) == Summand(cast, t[k].actionPrice) && fee(k) == Summand(cast, t[k].txFee)
    ensures SumReals(Prices(stats)) == SumSet(rows, price)
    ensures SumReals(Fees(stats)) == SumSet(rows, fee)
  {
    assert rows == PayeeRows(t, payee);
    SumByGroup(rows, PriceAt(t, cast), DenomAt(t), groups, Prices(stats));
    SumByGroup(rows, FeeAt(t, cast), DenomAt(t), groups, Fees(stats));
    SumSetSame(rows, PriceAt(t, cast), price);
    SumSetSame(rows, FeeAt(t, cast), fee);
  }

  // The finalize rows with a payee, and what each contributes.
  ghost predicate IsPaid(t: TxTable, cast: string -> Option<real>, rows: set<TxKey>, price: TxKey -> real,
                         fee: TxKey -> real) {
    && (forall k :: k in rows <==> k in t && t[k].txType == "finalize" && t[k].flowPayee.Some?)
    && (forall k :: k in rows ==>
          price(k) == Summand(cast, t[k].actionPrice) && fee(k) == Summand(cast, t[k].txFee))
  }

  // The query has been run for every payee.
  ghost predicate ForAllPayees(t: TxTable, cast: string -> Option<real>, payees: seq<Option<string>>,
                               groups: seq<seq<Option<string>>>, stats: seq<seq<PaymentStat>>) {
    && NoDuplicates(payees) && |groups| == |stats| == |payees|
    && (forall i :: 0 <= i < |payees| ==>
          payees[i].Some? && IsPaymentStats(t, payees[i].value, cast, groups[i], stats[i]))
    && (forall k :: k in t && t[k].txType == "finalize" && t[k].flowPayee.Some? ==> t[k].flowPayee in payees)
  }

  // Summed over all payees, the reported prices and fees equal the sums over
  // every finalize row that has a payee: nothing is counted twice or lost.
  lemma {:induction false} AllPayeesConserved(t: TxTable, cast: string -> Option<real>, payees: seq<Option<string>>,
        groups: seq<seq<Option<string>>>, stats: seq<seq<PaymentStat>>,
        rows: set<TxKey>, price: TxKey -> real, fee: TxKey -> real, prices: seq<real>, fees: seq<real>)
    requires ForAllPayees(t, cast, payees, groups, stats) && IsPaid(t, cast, rows, price, fee)
    requires |prices| == |fees| == |payees|
    requires forall i :: 0 <= i < |payees| ==>
               prices[i] == SumReals(Prices(stats[i])) && fees[i] == SumReals(Fees(stats[i]))
    ensures SumReals(prices) == SumSet(rows, price)
    ensures SumReals(fees) == SumSet(rows, fee)
  {
    forall i | 0 <= i < |payees|
      ensures prices[i] == SumSet(Group(rows, PayeeAt(t), payees[i]), price)
      ensures fees[i] == SumSet(Group(rows, PayeeAt(t), payees[i]), fee)
    {
      PayeeConserved(t, payees[i].value, cast, groups[i], stats[i], Group(rows, PayeeAt(t), payees[i]), price, fee);
    }
    SumByGroup(rows, price, PayeeAt(t), payees, prices);
    SumByGroup(rows, fee, PayeeAt(t), payees, fees);
  }

  // ---- One denomination ----

  // The prices and the fees reported under one denomination.
  function PricesIn(stats: seq<PaymentStat>, name: string): (ps: seq<real>)
    ensures |ps| == |stats|
    ensures forall i :: 0 <= i < |ps| ==> ps[i] == if stats[i].denom == name then stats[i].totalActionPrice else 0.0
  {
    seq(|stats|, i requires 0 <= i < |stats| => if stats[i].denom == name then stats[i].totalActionPrice else 0.0)
  }

  function FeesIn(stats: seq<PaymentStat>, name: string): (fs: seq<real>)
    ensures |fs| == |stats|
    ensures forall i :: 0 <= i < |fs| ==> fs[i] == if stats[i].denom == name then stats[i].totalTxFee else 0.0
  {
    seq(|stats|, i requires 0 <= i < |stats| => if stats[i].denom == name then stats[i].totalTxFee else 0.0)
  }

  // The row's denomination is reported under this name; NULL as the empty name.
  predicate Named(tx: ActionTx, name: string) {
    tx.actionPriceDenom == Some(name) || (tx.actionPriceDenom == None && name == "")
  }

  // Group totals, restricted to one name, add up to the rows with that name.
  lemma {:induction false} NamedTotals(t: TxTable, payee: string, cast: string -> Option<real>,
        groups: seq<Option<string>>, stats: seq<PaymentStat>, name: string, named: set<TxKey>, at: TxKey -> real,
        totals: seq<real>)
    requires IsPaymentStats(t, payee, cast, groups, stats) && |totals| == |groups|
    requires forall k :: k in named <==> k in PayeeRows(t, payee) && Named(t[k], name)
    requires forall i :: 0 <= i < |totals| ==>
               totals[i] == if stats[i].denom == name then SumSet(Group(PayeeRows(t, payee), DenomAt(t), groups[i]), at)
                            else 0.0
    ensures SumReals(totals) == SumSet(named, at)
  {
    forall i | 0 <= i < |groups| ensures totals[i] == SumSet(Group(named, DenomAt(t), groups[i]), at) {
      if CoalesceTo(groups[i], "") == name {
        assert Group(named, DenomAt(t), groups[i]) == Group(PayeeRows(t, payee), DenomAt(t), groups[i]);
      } else {
        assert Group(named, DenomAt(t), groups[i]) == {};
      }
    }
    SumByGroup(named, at, DenomAt(t), groups, totals);
  }

  // What a payee is reported to have received, and the fees, in a denomination
  // are the sums over the payee's finalize rows in it.
  lemma {:induction false} DenomConserved(t: TxTable, payee: string, cast: string -> Option<real>,
        groups: seq<Option<string>>, stats: seq<PaymentStat>, name: string,
        rows: set<TxKey>, price: TxKey -> real, fee: TxKey -> real)
    requires IsPaymentStats(t, payee, cast, groups, stats)
    requires forall k :: k in rows <==>
               k in t && t[k].txType == "finalize" && t[k].flowPayee == Some(payee) && Named(t[k], name)
    requires forall k :: k in rows ==>
               price(k) == Summand(cast, t[k].actionPrice) && fee(k) == Summand(cast, t[k].txFee)
    ensures SumReals(PricesIn(stats, name)) == SumSet(rows, price)
    ensures SumReals(FeesIn(stats, name)) == SumSet(rows, fee)
  {
    NamedTotals(t, payee, cast, groups, stats, name, rows, PriceAt(t, cast), PricesIn(stats, name));
    NamedTotals(t, payee, cast, groups, stats, name, rows, FeeAt(t, cast), FeesIn(stats, name));
    SumSetSame(rows, PriceAt(t, cast), price);
    SumSetSame(rows, FeeAt(t, cast), fee);
  }

  // Summed over all payees, what is reported in a denomination equals the sums
  // over every finalize row in it that has a payee.
  lemma {:induction false} AllPayeesDenomConserved(t: TxTable, cast: string -> Option<real>,
        payees: seq<Option<string>>, groups: seq<seq<Option<string>>>, stats: seq<seq<PaymentStat>>, name: string,
        rows: set<TxKey>, price: TxKey -> real, fee: TxKey -> real, prices: seq<real>, fees: seq<real>)
    requires ForAllPayees(t, cast, payees, groups, stats)
    requires forall k :: k in rows <==>
               k in t && t[k].txType == "finalize" && t[k].flowPayee.Some? && Named(t[k], name)
    requires forall k :: k in rows ==>
               price(k) == Summand(cast, t[k].actionPrice) && fee(k) == Summand(cast, t[k].txFee)
    requires |prices| == |fees| == |payees|
    requires forall i :: 0 <= i < |payees| ==>
               prices[i] == SumReals(PricesIn(stats[i], name)) && fees[i] == SumReals(FeesIn(stats[i], name))
    ensures SumReals(prices) == SumSet(rows, price)
    ensures SumReals(fees) == SumSet(rows, fee)
  {
    forall i | 0 <= i < |payees|
      ensures prices[i] == SumSet(Group(rows, PayeeAt(t), payees[i]), price)
      ensures fees[i] == SumSet(Group(rows, PayeeAt(t), payees[i]), fee)
    {
      DenomConserved(t, payees[i].value, cast, groups[i], stats[i], name, Group(rows, PayeeAt(t), payees[i]),
                     price, fee);
    }
    SumByGroup(rows, price, PayeeAt(t), payees, prices);
    SumByGroup(rows, fee, PayeeAt(t), payees, fees);
  }
}
