// Reading the token flow of a transaction from its transfer events
// (internal/lumera/client.go, parseCoinString, parseTransferEvent and
// extractTransferFlow).
module Transfers {
  import opened Sql
  import opened GoText

  // ---- Coins: "10090ulume" ----

  // The number of leading digits of s.
  function DigitPrefix(s: string): (n: nat)
    ensures n <= |s|
  {
    if s != "" && IsDigit(s[0]) then 1 + DigitPrefix(s[1..]) else 0
  }

  function Amount(s: string): string {
    s[..DigitPrefix(s)]
  }

  function Denom(s: string): string {
    s[DigitPrefix(s)..]
  }

  // A split into digits and a rest that does not start with a digit.
  ghost predicate IsCoinSplit(s: string, amount: string, denom: string) {
    && s == amount + denom
    && AllDigits(amount)
    && (denom != "" ==> !IsDigit(denom[0]))
  }

  lemma {:induction false} PrefixIsSplit(s: string)
    ensures IsCoinSplit(s, Amount(s), Denom(s))
  {
    if s != "" && IsDigit(s[0]) {
      PrefixIsSplit(s[1..]);
      assert Amount(s) == [s[0]] + Amount(s[1..]);
      assert Denom(s) == Denom(s[1..]);
    }
  }

  // There is exactly one such split.
  lemma CoinSplitUnique(s: string, a: string, d: string, a': string, d': string)
    requires IsCoinSplit(s, a, d) && IsCoinSplit(s, a', d')
    ensures a == a' && d == d'
  {
    assert forall i :: 0 <= i < |a| ==> IsDigit(s[i]);
    assert forall i :: 0 <= i < |a'| ==> IsDigit(s[i]);
    assert d != "" ==> s[|a|] == d[0];
    assert d' != "" ==> s[|a'|] == d'[0];
    assert a == s[..|a|] && a' == s[..|a'|];
  }

  method ParseCoinString(s: string) returns (amount: string, denom: string)
    ensures IsCoinSplit(s, amount, denom)
    ensures amount == Amount(s) && denom == Denom(s)
  {
    if s == "" {
      PrefixIsSplit(s);
      return "", "";
    }
    var i := 0;
    while i < |s| && '0' <= s[i] <= '9'
      invariant 0 <= i <= |s|
      invariant AllDigits(s[..i])
    {
      i := i + 1;
    }
    assert s == s[..i] + s[i..];
    PrefixIsSplit(s);
    CoinSplitUnique(s, s[..i], s[i..], Amount(s), Denom(s));
    return s[..i], s[i..];
  }

  // ---- Transfer events ----

  datatype Attribute = Attribute(key: string, value: string)

  datatype Event = Event(typ: string, attributes: seq<Attribute>)

  datatype TransferFlow = TransferFlow(
    amount: Option<string>, denom: Option<string>, payer: Option<string>, payee: Option<string>)

  function NonEmpty(s: string): Option<string> {
    if s == "" then None else Some(s)
  }

  // What one attribute contributes.
  function Step(tf: TransferFlow, attr: Attribute): TransferFlow {
    if attr.key == "sender" then tf.(payer := Some(attr.value))
    else if attr.key == "recipient" then tf.(payee := Some(attr.value))
    else if attr.key == "amount" then
      tf.(amount := Coalesce(NonEmpty(Amount(attr.value)), tf.amount),
          denom := Coalesce(NonEmpty(Denom(attr.value)), tf.denom))
    else tf
  }

  function FieldsOf(attrs: seq<Attribute>): TransferFlow {
    if attrs == [] then TransferFlow(None, None, None, None)
    else Step(FieldsOf(attrs[..|attrs| - 1]), attrs[|attrs| - 1])
  }

  function TransferOf(attrs: seq<Attribute>): Option<TransferFlow> {
    var tf := FieldsOf(attrs);
    if tf.payer.None? && tf.payee.None? then None else Some(tf)
  }

  method ParseTransferEvent(attrs: seq<Attribute>) returns (flow: Option<TransferFlow>)
    ensures flow == TransferOf(attrs)
  {
    var tf := TransferFlow(None, None, None, None);
    for i := 0 to |attrs|
      invariant tf == FieldsOf(attrs[..i])
    {
      var attr := attrs[i];
      assert attrs[..i + 1][..i] == attrs[..i];
      match attr.key {
        case "sender" =>
          tf := tf.(payer := Some(attr.value));
        case "recipient" =>
          tf := tf.(payee := Some(attr.value));
        case "amount" =>
          var amount, denom := ParseCoinString(attr.value);
          if amount != "" {
            tf := tf.(amount := Some(amount));
          }
          if denom != "" {
            tf := tf.(denom := Some(denom));
          }
        case _ =>
      }
    }
    assert attrs[..|attrs|] == attrs;
    if tf.payer.None? && tf.payee.None? {
      return None;
    }
    return Some(tf);
  }

  // r is what the last attribute that supplies a value for this key supplies.
  ghost predicate IsLastSupplied(attrs: seq<Attribute>, key: string, value: string -> Option<string>,
        r: Option<string>) {
    if r.None? then forall i :: 0 <= i < |attrs| && attrs[i].key == key ==> value(attrs[i].value).None?
    else exists i :: 0 <= i < |attrs| && attrs[i].key == key && value(attrs[i].value) == r
              && forall j :: i < j < |attrs| && attrs[j].key == key ==> value(attrs[j].value).None?
  }

  lemma LastSuppliedStep(attrs: seq<Attribute>, attr: Attribute, key: string, value: string -> Option<string>,
        r: Option<string>)
    requires IsLastSupplied(attrs, key, value, r)
    ensures IsLastSupplied(attrs + [attr], key, value,
                           if attr.key == key && value(attr.value).Some? then value(attr.value) else r)
  {
    var all := attrs + [attr];
    if attr.key == key && value(attr.value).Some? {
      assert all[|attrs|] == attr;
    } else if r.Some? {
      var i :| 0 <= i < |attrs| && attrs[i].key == key && value(attrs[i].value) == r
               && forall j :: i < j < |attrs| && attrs[j].key == key ==> value(attrs[j].value).None?;
      assert all[i] == attrs[i];
    }
  }

  lemma {:induction false} PayerIsLast(attrs: seq<Attribute>, whole: string -> Option<string>)
    requires forall s :: whole(s) == Some(s)
    ensures IsLastSupplied(attrs, "sender", whole, FieldsOf(attrs).payer)
  {
    if attrs != [] {
      var init, last := attrs[..|attrs| - 1], attrs[|attrs| - 1];
      PayerIsLast(init, whole);
      LastSuppliedStep(init, last, "sender", whole, FieldsOf(init).payer);
      assert attrs == init + [last];
    }
  }

  lemma {:induction false} PayeeIsLast(attrs: seq<Attribute>, whole: string -> Option<string>)
    requires forall s :: whole(s) == Some(s)
    ensures IsLastSupplied(attrs, "recipient", whole, FieldsOf(attrs).payee)
  {
    if attrs != [] {
      var init, last := attrs[..|attrs| - 1], attrs[|attrs| - 1];
      PayeeIsLast(init, whole);
      LastSuppliedStep(init, last, "recipient", whole, FieldsOf(init).payee);
      assert attrs == init + [last];
    }
  }

  lemma {:induction false} AmountIsLast(attrs: seq<Attribute>, part: string -> Option<string>)
    requires forall s :: part(s) == NonEmpty(Amount(s))
    ensures IsLastSupplied(attrs, "amount", part, FieldsOf(attrs).amount)
  {
    if attrs != [] {
      var init, last := attrs[..|attrs| - 1], attrs[|attrs| - 1];
      AmountIsLast(init, part);
      LastSuppliedStep(init, last, "amount", part, FieldsOf(init).amount);
      assert attrs == init + [last];
    }
  }

  lemma {:induction false} DenomIsLast(attrs: seq<Attribute>, part: string -> Option<string>)
    requires forall s :: part(s) == NonEmpty(Denom(s))
    ensures IsLastSupplied(attrs, "amount", part, FieldsOf(attrs).denom)
  {
    if attrs != [] {
      var init, last := attrs[..|attrs| - 1], attrs[|attrs| - 1];
      DenomIsLast(init, part);
      LastSuppliedStep(init, last, "amount", part, FieldsOf(init).denom);
      assert attrs == init + [last];
    }
  }

  // Each field is read independently of the others, from the last attribute
  // that supplies it.
  lemma FieldsAreLast(attrs: seq<Attribute>, amountPart: string -> Option<string>,
                      denomPart: string -> Option<string>, whole: string -> Option<string>)
    requires forall s :: amountPart(s) == NonEmpty(Amount(s))
    requires forall s :: denomPart(s) == NonEmpty(Denom(s))
    requires forall s :: whole(s) == Some(s)
    ensures var tf := FieldsOf(attrs);
            && IsLastSupplied(attrs, "sender", whole, tf.payer)
            && IsLastSupplied(attrs, "recipient", whole, tf.payee)
            && IsLastSupplied(attrs, "amount", amountPart, tf.amount)
            && IsLastSupplied(attrs, "amount", denomPart, tf.denom)
  {
    PayerIsLast(attrs, whole);
    PayeeIsLast(attrs, whole);
    AmountIsLast(attrs, amountPart);
    DenomIsLast(attrs, denomPart);
  }

  // An event describes a transfer exactly when it names a sender or a
  // recipient.
  lemma {:induction false} TransferIff(attrs: seq<Attribute>)
    ensures TransferOf(attrs).Some? <==>
              exists i :: 0 <= i < |attrs| && (attrs[i].key == "sender" || attrs[i].key == "recipient")
    ensures TransferOf(attrs).Some? ==> TransferOf(attrs).value == FieldsOf(attrs)
  {
    if attrs != [] {
      var init, last := attrs[..|attrs| - 1], attrs[|attrs| - 1];
      TransferIff(init);
      assert attrs == init + [last];
      if i :| 0 <= i < |init| && (init[i].key == "sender" || init[i].key == "recipient") {
        assert attrs[i] == init[i];
      }
    }
  }

  // Every attribute with this key has this value.
  ghost predicate OnlyValue(attrs: seq<Attribute>, key: string, value: string) {
    forall i :: 0 <= i < |attrs| && attrs[i].key == key ==> attrs[i].value == value
  }

  ghost predicate HasKey(attrs: seq<Attribute>, key: string) {
    exists i :: 0 <= i < |attrs| && attrs[i].key == key
  }

  lemma HasKeySnoc(attrs: seq<Attribute>, attr: Attribute, key: string)
    ensures HasKey(attrs + [attr], key) <==> HasKey(attrs, key) || attr.key == key
  {
    var all := attrs + [attr];
    assert all[|attrs|] == attr;
    if i :| 0 <= i < |attrs| && attrs[i].key == key {
      assert all[i] == attrs[i];
    }
  }

  lemma {:induction false} FieldsOfOneTransfer(attrs: seq<Attribute>, s: string, r: string, coin: string)
    requires OnlyValue(attrs, "sender", s) && OnlyValue(attrs, "recipient", r) && OnlyValue(attrs, "amount", coin)
    ensures FieldsOf(attrs).payer == if HasKey(attrs, "sender") then Some(s) else None
    ensures FieldsOf(attrs).payee == if HasKey(attrs, "recipient") then Some(r) else None
    ensures FieldsOf(attrs).amount == if HasKey(attrs, "amount") then NonEmpty(Amount(coin)) else None
    ensures FieldsOf(attrs).denom == if HasKey(attrs, "amount") then NonEmpty(Denom(coin)) else None
  {
    if attrs != [] {
      var init, last := attrs[..|attrs| - 1], attrs[|attrs| - 1];
      FieldsOfOneTransfer(init, s, r, coin);
      assert attrs == init + [last];
      HasKeySnoc(init, last, "sender");
      HasKeySnoc(init, last, "recipient");
      HasKeySnoc(init, last, "amount");
    }
  }

  // An event that names one sender, one recipient and one coin, digits d and a
  // rest u that does not start with a digit, is read as exactly that transfer.
  lemma {:induction false} OneTransferIsRead(attrs: seq<Attribute>, s: string, r: string, d: string, u: string)
    requires OnlyValue(attrs, "sender", s) && OnlyValue(attrs, "recipient", r) && OnlyValue(attrs, "amount", d + u)
    requires HasKey(attrs, "sender") && HasKey(attrs, "recipient") && HasKey(attrs, "amount")
    requires AllDigits(d) && d != "" && u != "" && !IsDigit(u[0])
    ensures TransferOf(attrs) == Some(TransferFlow(Some(d), Some(u), Some(s), Some(r)))
  {
    FieldsOfOneTransfer(attrs, s, r, d + u);
    PrefixIsSplit(d + u);
    CoinSplitUnique(d + u, d, u, Amount(d + u), Denom(d + u));
  }

  // A price is absent or a non-empty digit string, a denom absent or
  // non-empty.
  predicate PriceShape(price: Option<string>, denom: Option<string>) {
    && (price.Some? ==> price.value != "" && AllDigits(price.value))
    && (denom.Some? ==> denom.value != "")
  }

  lemma {:induction false} FieldsHavePriceShape(attrs: seq<Attribute>)
    ensures PriceShape(FieldsOf(attrs).amount, FieldsOf(attrs).denom)
  {
    if attrs != [] {
      FieldsHavePriceShape(attrs[..|attrs| - 1]);
      PrefixIsSplit(attrs[|attrs| - 1].value);
    }
  }

  predicate HasAmount(coin: string) {
    Amount(coin) != ""
  }

  predicate HasDenom(coin: string) {
    Denom(coin) != ""
  }

  predicate HasEither(coin: string) {
    HasAmount(coin) || HasDenom(coin)
  }

  // Attribute i is the last amount attribute whose value has the part.
  ghost predicate IsLastWith(attrs: seq<Attribute>, has: string -> bool, i: nat) {
    && i < |attrs| && attrs[i].key == "amount" && has(attrs[i].value)
    && forall j :: i < j < |attrs| && attrs[j].key == "amount" ==> !has(attrs[j].value)
  }

  lemma {:induction false} LastWithExists(attrs: seq<Attribute>, has: string -> bool, i: nat) returns (l: nat)
    requires i < |attrs| && attrs[i].key == "amount" && has(attrs[i].value)
    ensures i <= l && IsLastWith(attrs, has, l)
    decreases |attrs| - i
  {
    if j: nat :| i < j < |attrs| && attrs[j].key == "amount" && has(attrs[j].value) {
      l := LastWithExists(attrs, has, j);
    } else {
      l := i;
    }
  }

  lemma LastWithStep(attrs: seq<Attribute>, attr: Attribute, has: string -> bool, i: nat)
    requires IsLastWith(attrs, has, i) && !(attr.key == "amount" && has(attr.value))
    ensures IsLastWith(attrs + [attr], has, i)
  {
  }

  // A reported price comes from the last attribute that has one.
  lemma {:induction false} PriceSource(attrs: seq<Attribute>) returns (i: nat)
    requires FieldsOf(attrs).amount.Some?
    ensures IsLastWith(attrs, HasAmount, i) && FieldsOf(attrs).amount == Some(Amount(attrs[i].value))
  {
    var init, last := attrs[..|attrs| - 1], attrs[|attrs| - 1];
    if last.key == "amount" && HasAmount(last.value) {
      i := |attrs| - 1;
    } else {
      i := PriceSource(init);
      LastWithStep(init, last, HasAmount, i);
      assert attrs == init + [last];
    }
  }

  // A reported denomination comes from the last attribute that has one.
  lemma {:induction false} DenomSource(attrs: seq<Attribute>) returns (j: nat)
    requires FieldsOf(attrs).denom.Some?
    ensures IsLastWith(attrs, HasDenom, j) && FieldsOf(attrs).denom == Some(Denom(attrs[j].value))
  {
    var init, last := attrs[..|attrs| - 1], attrs[|attrs| - 1];
    if last.key == "amount" && HasDenom(last.value) {
      j := |attrs| - 1;
    } else {
      j := DenomSource(init);
      LastWithStep(init, last, HasDenom, j);
      assert attrs == init + [last];
    }
  }

  lemma OneLast(attrs: seq<Attribute>, has: string -> bool, i: nat, j: nat)
    requires IsLastWith(attrs, has, i) && IsLastWith(attrs, has, j)
    ensures i == j
  {
  }

  // When both parts are reported, each comes from the last attribute that has
  // it, and these two are one and the same attribute exactly when the last one
  // that has either part has both.
  lemma OneSourceIff(attrs: seq<Attribute>, i: nat, j: nat, l: nat)
    requires FieldsOf(attrs).amount.Some? && FieldsOf(attrs).denom.Some?
    requires IsLastWith(attrs, HasAmount, i) && IsLastWith(attrs, HasDenom, j) && IsLastWith(attrs, HasEither, l)
    ensures FieldsOf(attrs).amount == Some(Amount(attrs[i].value))
    ensures FieldsOf(attrs).denom == Some(Denom(attrs[j].value))
    ensures i == j <==> HasAmount(attrs[l].value) && HasDenom(attrs[l].value)
  {
    var i' := PriceSource(attrs);
    OneLast(attrs, HasAmount, i, i');
    var j' := DenomSource(attrs);
    OneLast(attrs, HasDenom, j, j');
    assert HasEither(attrs[i].value) && HasEither(attrs[j].value);
  }

  lemma SourcesExist(attrs: seq<Attribute>) returns (i: nat, j: nat, l: nat)
    requires FieldsOf(attrs).amount.Some? && FieldsOf(attrs).denom.Some?
    ensures IsLastWith(attrs, HasAmount, i) && IsLastWith(attrs, HasDenom, j) && IsLastWith(attrs, HasEither, l)
  {
    i := PriceSource(attrs);
    j := DenomSource(attrs);
    l := LastWithExists(attrs, HasEither, i);
  }

  // With several amount attributes, price and denomination may come from
  // different ones.
  lemma PriceAndDenomMayDisagree()
    ensures exists attrs :: TransferOf(attrs) == Some(TransferFlow(Some("7"), Some("a"), Some("s"), None))
  {
    var sender, both, price := Attribute("sender", "s"), Attribute("amount", "5a"), Attribute("amount", "7");
    assert [sender][..0] == [];
    assert [sender, both][..1] == [sender];
    assert [sender, both, price][..2] == [sender, both];
    assert FieldsOf([sender]) == TransferFlow(None, None, Some("s"), None);
    PrefixIsSplit("5a");
    CoinSplitUnique("5a", "5", "a", Amount("5a"), Denom("5a"));
    assert FieldsOf([sender, both]) == TransferFlow(Some("5"), Some("a"), Some("s"), None);
    PrefixIsSplit("7");
    CoinSplitUnique("7", "7", "", Amount("7"), Denom("7"));
    assert TransferOf([sender, both, price]) == Some(TransferFlow(Some("7"), Some("a"), Some("s"), None));
  }

  // ---- All transfers of a transaction ----

  // The transfer an event describes, if any.
  function ReadEvent(e: Event): Option<TransferFlow> {
    if e.typ == "transfer" then TransferOf(e.attributes) else None
  }

  function Collect(read: Event -> Option<TransferFlow>, events: seq<Event>): seq<TransferFlow> {
    if events == [] then []
    else
      var before := Collect(read, events[..|events| - 1]);
      var tf := read(events[|events| - 1]);
      if tf.Some? then before + [tf.value] else before
  }

  function CollectLogs(read: Event -> Option<TransferFlow>, logs: seq<seq<Event>>): seq<TransferFlow> {
    if logs == [] then []
    else CollectLogs(read, logs[..|logs| - 1]) + Collect(read, logs[|logs| - 1])
  }

  function AllTransfers(read: Event -> Option<TransferFlow>, events: seq<Event>,
        logs: seq<seq<Event>>): seq<TransferFlow> {
    Collect(read, events) + CollectLogs(read, logs)
  }

  // The events of all logs, one after the other.
  function Concat(logs: seq<seq<Event>>): seq<Event> {
    if logs == [] then [] else Concat(logs[..|logs| - 1]) + logs[|logs| - 1]
  }

  lemma {:induction false} CollectAppend(read: Event -> Option<TransferFlow>, a: seq<Event>, b: seq<Event>)
    ensures Collect(read, a + b) == Collect(read, a) + Collect(read, b)
    decreases |b|
  {
    if b == [] {
      assert a + b == a;
    } else {
      assert (a + b)[..|a + b| - 1] == a + b[..|b| - 1];
      CollectAppend(read, a, b[..|b| - 1]);
    }
  }

  lemma {:induction false} CollectLogsIsConcat(read: Event -> Option<TransferFlow>, logs: seq<seq<Event>>)
    ensures CollectLogs(read, logs) == Collect(read, Concat(logs))
  {
    if logs != [] {
      CollectLogsIsConcat(read, logs[..|logs| - 1]);
      CollectAppend(read, Concat(logs[..|logs| - 1]), logs[|logs| - 1]);
    }
  }

  // The event occurs at the top level or in a log.
  ghost predicate Occurs(e: Event, events: seq<Event>, logs: seq<seq<Event>>) {
    e in events || exists l :: l in logs && e in l
  }

  lemma {:induction false} CollectMembers(read: Event -> Option<TransferFlow>, events: seq<Event>, tf: TransferFlow)
    ensures tf in Collect(read, events) <==> exists e :: e in events && read(e) == Some(tf)
  {
    if events != [] {
      var init, e := events[..|events| - 1], events[|events| - 1];
      CollectMembers(read, init, tf);
      assert events == init + [e];
    }
  }

  lemma {:induction false} CollectLogsMembers(read: Event -> Option<TransferFlow>, logs: seq<seq<Event>>,
        tf: TransferFlow)
    ensures tf in CollectLogs(read, logs) <==> exists l, e :: l in logs && e in l && read(e) == Some(tf)
  {
    if logs != [] {
      var init, l := logs[..|logs| - 1], logs[|logs| - 1];
      CollectLogsMembers(read, init, tf);
      CollectMembers(read, l, tf);
      assert logs == init + [l];
    }
  }

  // Whom the flow is about.
  datatype Parties = Parties(
    txType: string, creator: string, supernode: string, moduleAddr: string, txSigner: string)

  predicate KnownType(txType: string) {
    txType == "register" || txType == "finalize" || txType == "approve"
  }

  // How well a transfer fits; smaller is better.
  function Tier(p: Parties, tf: TransferFlow): nat {
    if p.txType == "register" then
      if p.moduleAddr != "" && tf.payee == Some(p.moduleAddr) then 0
      else if tf.payer == Some(p.creator) then 1
      else 2
    else
      var fromModule := p.moduleAddr != "" && tf.payer == Some(p.moduleAddr);
      var toSigner := p.txSigner != "" && tf.payee == Some(p.txSigner);
      var toSupernode := p.supernode != "" && tf.payee == Some(p.supernode);
      if fromModule && toSigner then 0
      else if fromModule && toSupernode then 1
      else if fromModule then 2
      else if toSigner then 3
      else if toSupernode then 4
      else if tf.payer.Some? && tf.payer != Some(p.creator) then 5
      else 6
  }

  // Position i is the lexicographic minimum of (tier, position).
  ghost predicate IsBest(p: Parties, ts: seq<TransferFlow>, i: int) {
    && 0 <= i < |ts|
    && (forall j :: 0 <= j < |ts| ==> Tier(p, ts[i]) <= Tier(p, ts[j]))
    && (forall j :: 0 <= j < i ==> Tier(p, ts[i]) < Tier(p, ts[j]))
  }

  lemma BestUnique(p: Parties, ts: seq<TransferFlow>, i: int, j: int)
    requires IsBest(p, ts, i) && IsBest(p, ts, j)
    ensures i == j
  {
    assert Tier(p, ts[i]) == Tier(p, ts[j]);
  }

  lemma {:induction false} BestExists(p: Parties, ts: seq<TransferFlow>) returns (i: int)
    requires ts != []
    ensures IsBest(p, ts, i)
  {
    if |ts| == 1 {
      i := 0;
    } else {
      var init := ts[..|ts| - 1];
      i := BestExists(p, init);
      assert forall j :: 0 <= j < |init| ==> init[j] == ts[j];
      if Tier(p, ts[|ts| - 1]) < Tier(p, ts[i]) {
        i := |ts| - 1;
      }
    }
  }

  ghost function BestIndex(p: Parties, ts: seq<TransferFlow>): (i: int)
    requires ts != []
    ensures IsBest(p, ts, i)
  {
    assert exists i :: IsBest(p, ts, i) by {
      var i := BestExists(p, ts);
    }
    var i :| IsBest(p, ts, i);
    i
  }

  // The transfer the program reports: the best one, if there is any.
  ghost function Selected(p: Parties, ts: seq<TransferFlow>): Option<TransferFlow> {
    if ts == [] || !KnownType(p.txType) then None else Some(ts[BestIndex(p, ts)])
  }

  method FirstMatch(ts: seq<TransferFlow>, matches: TransferFlow -> bool) returns (i: int)
    ensures 0 <= i <= |ts|
    ensures forall j :: 0 <= j < i ==> !matches(ts[j])
    ensures i < |ts| ==> matches(ts[i])
  {
    for k := 0 to |ts|
      invariant forall j :: 0 <= j < k ==> !matches(ts[j])
    {
      if matches(ts[k]) {
        return k;
      }
    }
    return |ts|;
  }

  method SelectForRegister(p: Parties, transfers: seq<TransferFlow>) returns (flow: TransferFlow)
    requires transfers != [] && p.txType == "register"
    ensures Selected(p, transfers) == Some(flow)
  {
    var i := |transfers|;
    if p.moduleAddr != "" {
      i := FirstMatch(transfers, (tf: TransferFlow) => tf.payee == Some(p.moduleAddr));
      if i < |transfers| {
        BestUnique(p, transfers, i, BestIndex(p, transfers));
        return transfers[i];
      }
    }
    i := FirstMatch(transfers, (tf: TransferFlow) => tf.payer == Some(p.creator));
    if i < |transfers| {
      BestUnique(p, transfers, i, BestIndex(p, transfers));
      return transfers[i];
    }
    BestUnique(p, transfers, 0, BestIndex(p, transfers));
    return transfers[0];
  }

  // What the loop for tier t looks for in a payout.
  predicate Fits(p: Parties, tf: TransferFlow, t: nat) {
    match t
    case 0 => p.moduleAddr != "" && p.txSigner != "" && tf.payer == Some(p.moduleAddr) && tf.payee == Some(p.txSigner)
    case 1 => p.moduleAddr != "" && p.supernode != "" && tf.payer == Some(p.moduleAddr) && tf.payee == Some(p.supernode)
    case 2 => p.moduleAddr != "" && tf.payer == Some(p.moduleAddr)
    case 3 => p.txSigner != "" && tf.payee == Some(p.txSigner)
    case 4 => p.supernode != "" && tf.payee == Some(p.supernode)
    case 5 => tf.payer.Some? && tf.payer != Some(p.creator)
    case _ => true
  }

  lemma FitsIsTier(p: Parties, tf: TransferFlow, t: nat)
    requires p.txType != "register" && t <= 6 && t <= Tier(p, tf)
    ensures Fits(p, tf, t) <==> Tier(p, tf) == t
  {
  }

  ghost predicate AllAtLeast(p: Parties, ts: seq<TransferFlow>, t: nat) {
    forall j :: 0 <= j < |ts| ==> t <= Tier(p, ts[j])
  }

  // After the loop for tier t: the first fit is the best transfer, or the tier
  // is empty.
  lemma Settle(p: Parties, ts: seq<TransferFlow>, t: nat, i: int)
    requires p.txType != "register" && t <= 6 && AllAtLeast(p, ts, t)
    requires 0 <= i <= |ts| && (i < |ts| ==> Fits(p, ts[i], t))
    requires forall j :: 0 <= j < i ==> !Fits(p, ts[j], t)
    ensures if i < |ts| then BestIndex(p, ts) == i else AllAtLeast(p, ts, t + 1)
  {
    forall j | 0 <= j < |ts| ensures Fits(p, ts[j], t) <==> Tier(p, ts[j]) == t {
      FitsIsTier(p, ts[j], t);
    }
    if i < |ts| {
      BestUnique(p, ts, i, BestIndex(p, ts));
    }
  }

  method SelectForPayout(p: Parties, transfers: seq<TransferFlow>) returns (flow: TransferFlow)
    requires transfers != [] && (p.txType == "finalize" || p.txType == "approve")
    ensures Selected(p, transfers) == Some(flow)
  {
    var n := |transfers|;
    var i := n;
    if p.moduleAddr != "" && p.txSigner != "" {
      i := FirstMatch(transfers, (tf: TransferFlow) => tf.payer == Some(p.moduleAddr) && tf.payee == Some(p.txSigner));
    }
    Settle(p, transfers, 0, i);
    if i < n {
      return transfers[i];
    }
    if p.moduleAddr != "" && p.supernode != "" {
      i := FirstMatch(transfers, (tf: TransferFlow) => tf.payer == Some(p.moduleAddr) && tf.payee == Some(p.supernode));
    }
    Settle(p, transfers, 1, i);
    if i < n {
      return transfers[i];
    }
    if p.moduleAddr != "" {
      i := FirstMatch(transfers, (tf: TransferFlow) => tf.payer == Some(p.moduleAddr));
    }
    Settle(p, transfers, 2, i);
    if i < n {
      return transfers[i];
    }
    if p.txSigner != "" {
      i := FirstMatch(transfers, (tf: TransferFlow) => tf.payee == Some(p.txSigner));
    }
    Settle(p, transfers, 3, i);
    if i < n {
      return transfers[i];
    }
    if p.supernode != "" {
      i := FirstMatch(transfers, (tf: TransferFlow) => tf.payee == Some(p.supernode));
    }
    Settle(p, transfers, 4, i);
    if i < n {
      return transfers[i];
    }
    i := FirstMatch(transfers, (tf: TransferFlow) => tf.payer.Some? && tf.payer != Some(p.creator));
    Settle(p, transfers, 5, i);
    if i < n {
      return transfers[i];
    }
    Settle(p, transfers, 6, 0);
    return transfers[0];
  }

  // Reads the events of one list onto the end of transfers.
  method AppendTransfers(events: seq<Event>, transfers: seq<TransferFlow>) returns (all: seq<TransferFlow>)
    ensures all == transfers + Collect(ReadEvent, events)
  {
    all := transfers;
    for i := 0 to |events|
      invariant all == transfers + Collect(ReadEvent, events[..i])
    {
      assert events[..i + 1][..i] == events[..i];
      if events[i].typ == "transfer" {
        var tf := ParseTransferEvent(events[i].attributes);
        if tf.Some? {
          all := all + [tf.value];
        }
      }
    }
    assert events[..|events|] == events;
  }

  // The flow of a transaction: nothing without transfers or for an unknown
  // type, and otherwise the best transfer of all.
  method ExtractTransferFlow(p: Parties, events: seq<Event>, logs: seq<seq<Event>>) returns (flow: Option<TransferFlow>)
    ensures flow == Selected(p, AllTransfers(ReadEvent, events, logs))
  {
    var transfers := AppendTransfers(events, []);
    for l := 0 to |logs|
      invariant transfers == AllTransfers(ReadEvent, events, logs[..l])
    {
      transfers := AppendTransfers(logs[l], transfers);
      assert logs[..l + 1][..l] == logs[..l];
    }
    assert logs[..|logs|] == logs;
    if |transfers| == 0 {
      return None;
    }
    match p.txType {
      case "register" =>
        var tf := SelectForRegister(p, transfers);
        return Some(tf);
      case "finalize" =>
        var tf := SelectForPayout(p, transfers);
        return Some(tf);
      case "approve" =>
        var tf := SelectForPayout(p, transfers);
        return Some(tf);
      case _ =>
    }
    return None;
  }

  // ---- The choice, in the order of preference ----

  // tf is the first wanted transfer.
  ghost predicate IsFirst(ts: seq<TransferFlow>, want: TransferFlow -> bool, tf: TransferFlow) {
    exists i :: 0 <= i < |ts| && ts[i] == tf && want(tf) && forall j :: 0 <= j < i ==> !want(ts[j])
  }

  ghost predicate NoneWanted(ts: seq<TransferFlow>, want: TransferFlow -> bool) {
    forall i :: 0 <= i < |ts| ==> !want(ts[i])
  }

  // tf is the first transfer that meets the first wish any transfer meets.
  ghost predicate IsChoice(ts: seq<TransferFlow>, wishes: seq<TransferFlow -> bool>, tf: TransferFlow) {
    exists w :: 0 <= w < |wishes| && IsFirst(ts, wishes[w], tf) && forall v :: 0 <= v < w ==> NoneWanted(ts, wishes[v])
  }

  lemma BestIsChoice(p: Parties, ts: seq<TransferFlow>, wishes: seq<TransferFlow -> bool>)
    requires ts != [] && KnownType(p.txType)
    requires forall tf :: Tier(p, tf) < |wishes| && wishes[Tier(p, tf)](tf)
    requires forall w, tf :: 0 <= w < |wishes| && wishes[w](tf) ==> Tier(p, tf) <= w
    ensures IsChoice(ts, wishes, Selected(p, ts).value)
  {
    var i := BestIndex(p, ts);
    var w := Tier(p, ts[i]);
    assert IsFirst(ts, wishes[w], ts[i]) by {
      forall j | 0 <= j < i ensures !wishes[w](ts[j]) {
        assert Tier(p, ts[i]) < Tier(p, ts[j]);
      }
    }
    forall v | 0 <= v < w ensures NoneWanted(ts, wishes[v]) {
      forall j | 0 <= j < |ts| ensures !wishes[v](ts[j]) {
        assert Tier(p, ts[i]) <= Tier(p, ts[j]);
      }
    }
  }

  // A register transaction: the first transfer to the known module account,
  // else the first one paid by the creator, else the first one.
  lemma RegisterChoice(p: Parties, ts: seq<TransferFlow>, wishes: seq<TransferFlow -> bool>)
    requires ts != [] && p.txType == "register" && |wishes| == 3
    requires forall tf :: wishes[0](tf) <==> p.moduleAddr != "" && tf.payee == Some(p.moduleAddr)
    requires forall tf :: wishes[1](tf) <==> tf.payer == Some(p.creator)
    requires forall tf :: wishes[2](tf)
    ensures Selected(p, ts).Some? && IsChoice(ts, wishes, Selected(p, ts).value)
  {
    BestIsChoice(p, ts, wishes);
  }

  // A finalize or approve transaction: from the module to the signer, from the
  // module to the supernode, from the module, to the signer, to the supernode,
  // from anyone but the creator, or the first one.
  lemma PayoutChoice(p: Parties, ts: seq<TransferFlow>, wishes: seq<TransferFlow -> bool>)
    requires ts != [] && (p.txType == "finalize" || p.txType == "approve") && |wishes| == 7
    requires forall tf :: wishes[0](tf) <==> (&& p.moduleAddr != "" && tf.payer == Some(p.moduleAddr)
                                              && p.txSigner != "" && tf.payee == Some(p.txSigner))
    requires forall tf :: wishes[1](tf) <==> (&& p.moduleAddr != "" && tf.payer == Some(p.moduleAddr)
                                              && p.supernode != "" && tf.payee == Some(p.supernode))
    requires forall tf :: wishes[2](tf) <==> p.moduleAddr != "" && tf.payer == Some(p.moduleAddr)
    requires forall tf :: wishes[3](tf) <==> p.txSigner != "" && tf.payee == Some(p.txSigner)
    requires forall tf :: wishes[4](tf) <==> p.supernode != "" && tf.payee == Some(p.supernode)
    requires forall tf :: wishes[5](tf) <==> tf.payer.Some? && tf.payer != Some(p.creator)
    requires forall tf :: wishes[6](tf)
    ensures Selected(p, ts).Some? && IsChoice(ts, wishes, Selected(p, ts).value)
  {
    BestIsChoice(p, ts, wishes);
  }

  // ---- The same over the events themselves ----

  // Event i is the first one that describes a wanted transfer, namely tf.
  ghost predicate FirstEvent(read: Event -> Option<TransferFlow>, es: seq<Event>, want: TransferFlow -> bool,
        tf: TransferFlow, i: int) {
    && 0 <= i < |es| && read(es[i]) == Some(tf) && want(tf)
    && forall j :: 0 <= j < i && read(es[j]).Some? ==> !want(read(es[j]).value)
  }

  ghost predicate NoEvent(read: Event -> Option<TransferFlow>, es: seq<Event>, want: TransferFlow -> bool) {
    forall i :: 0 <= i < |es| && read(es[i]).Some? ==> !want(read(es[i]).value)
  }

  lemma IsFirstSnoc(ts: seq<TransferFlow>, x: TransferFlow, want: TransferFlow -> bool, tf: TransferFlow)
    ensures IsFirst(ts + [x], want, tf) <==> IsFirst(ts, want, tf) || (NoneWanted(ts, want) && want(x) && x == tf)
    ensures NoneWanted(ts + [x], want) <==> NoneWanted(ts, want) && !want(x)
  {
    var all := ts + [x];
    assert all[|ts|] == x && forall i :: 0 <= i < |ts| ==> all[i] == ts[i];
  }

  lemma FirstEventSnoc(read: Event -> Option<TransferFlow>, es: seq<Event>, e: Event, want: TransferFlow -> bool,
        tf: TransferFlow)
    ensures (exists i :: FirstEvent(read, es + [e], want, tf, i)) <==>
              || (exists i :: FirstEvent(read, es, want, tf, i))
              || (NoEvent(read, es, want) && want(tf) && read(e) == Some(tf))
    ensures NoEvent(read, es + [e], want) <==> NoEvent(read, es, want) && (read(e).Some? ==> !want(read(e).value))
  {
    var all := es + [e];
    assert all[|es|] == e && forall i :: 0 <= i < |es| ==> all[i] == es[i];
    if i :| FirstEvent(read, all, want, tf, i) {
      if i < |es| {
        assert FirstEvent(read, es, want, tf, i);
      }
    }
    if i :| FirstEvent(read, es, want, tf, i) {
      assert FirstEvent(read, all, want, tf, i);
    }
    if NoEvent(read, es, want) && want(tf) && read(e) == Some(tf) {
      assert FirstEvent(read, all, want, tf, |es|);
    }
  }

  lemma {:induction false} FirstIsFirstEvent(read: Event -> Option<TransferFlow>, es: seq<Event>,
        want: TransferFlow -> bool, tf: TransferFlow)
    ensures IsFirst(Collect(read, es), want, tf) <==> exists i :: FirstEvent(read, es, want, tf, i)
    ensures NoneWanted(Collect(read, es), want) <==> NoEvent(read, es, want)
  {
    if es != [] {
      var init, e := es[..|es| - 1], es[|es| - 1];
      FirstIsFirstEvent(read, init, want, tf);
      FirstEventSnoc(read, init, e, want, tf);
      assert es == init + [e];
      if read(e).Some? {
        IsFirstSnoc(Collect(read, init), read(e).value, want, tf);
      }
    }
  }

  // tf is described by the first event that meets the first wish any event
  // meets.
  ghost predicate IsEventChoice(read: Event -> Option<TransferFlow>, es: seq<Event>,
        wishes: seq<TransferFlow -> bool>, tf: TransferFlow) {
    exists w, i :: 0 <= w < |wishes| && FirstEvent(read, es, wishes[w], tf, i)
                && forall v :: 0 <= v < w ==> NoEvent(read, es, wishes[v])
  }

  lemma ChoiceIsEventChoice(read: Event -> Option<TransferFlow>, events: seq<Event>, logs: seq<seq<Event>>,
        wishes: seq<TransferFlow -> bool>, tf: TransferFlow)
    requires IsChoice(AllTransfers(read, events, logs), wishes, tf)
    ensures IsEventChoice(read, events + Concat(logs), wishes, tf)
  {
    var es := events + Concat(logs);
    var ts := AllTransfers(read, events, logs);
    assert ts == Collect(read, es) by {
      CollectLogsIsConcat(read, logs);
      CollectAppend(read, events, Concat(logs));
    }
    var w :| 0 <= w < |wishes| && IsFirst(ts, wishes[w], tf) && forall v :: 0 <= v < w ==> NoneWanted(ts, wishes[v]);
    FirstIsFirstEvent(read, es, wishes[w], tf);
    var i :| FirstEvent(read, es, wishes[w], tf, i);
    forall v | 0 <= v < w ensures NoEvent(read, es, wishes[v]) {
      FirstIsFirstEvent(read, es, wishes[v], tf);
    }
  }

  // Transfers that only repeat earlier ones do not change the choice.
  lemma RepeatsChangeNothing(p: Parties, ts: seq<TransferFlow>, us: seq<TransferFlow>)
    requires forall u :: u in us ==> u in ts
    ensures Selected(p, ts + us) == Selected(p, ts)
  {
    assert us != [] ==> us[0] in ts;
    if ts != [] {
      var i := BestIndex(p, ts);
      forall j | 0 <= j < |ts + us| ensures Tier(p, ts[i]) <= Tier(p, (ts + us)[j]) {
        if j >= |ts| {
          assert us[j - |ts|] in us;
        }
      }
      BestUnique(p, ts + us, i, BestIndex(p, ts + us));
    }
  }

  // The flow is the same whether or not the node also repeats the top-level
  // events in the logs.
  lemma RepeatedLogsChangeNothing(p: Parties, read: Event -> Option<TransferFlow>, events: seq<Event>,
        logs: seq<seq<Event>>)
    requires forall l, e :: l in logs && e in l ==> e in events
    ensures Selected(p, AllTransfers(read, events, logs)) == Selected(p, AllTransfers(read, events, []))
  {
    forall tf | tf in CollectLogs(read, logs) ensures tf in Collect(read, events) {
      CollectLogsMembers(read, logs, tf);
      CollectMembers(read, events, tf);
    }
    assert Collect(read, events) + [] == Collect(read, events);
    RepeatsChangeNothing(p, Collect(read, events), CollectLogs(read, logs));
  }

  lemma AllTransfersMembers(read: Event -> Option<TransferFlow>, events: seq<Event>, logs: seq<seq<Event>>,
        tf: TransferFlow)
    ensures tf in AllTransfers(read, events, logs) <==>
              exists e :: Occurs(e, events, logs) && read(e) == Some(tf)
  {
    CollectMembers(read, events, tf);
    CollectLogsMembers(read, logs, tf);
  }

  // No flow is reported exactly when no event describes a transfer or the
  // transaction type is unknown.
  lemma NoFlowIff(p: Parties, read: Event -> Option<TransferFlow>, events: seq<Event>, logs: seq<seq<Event>>)
    ensures Selected(p, AllTransfers(read, events, logs)).None? <==>
              !KnownType(p.txType) || forall e :: Occurs(e, events, logs) ==> read(e).None?
  {
    var ts := AllTransfers(read, events, logs);
    if ts != [] {
      AllTransfersMembers(read, events, logs, ts[0]);
    }
    forall e | Occurs(e, events, logs) && read(e).Some? ensures ts != [] {
      AllTransfersMembers(read, events, logs, read(e).value);
    }
  }

  // The reported flow always carries a well-formed price.
  lemma SelectedHasPriceShape(p: Parties, events: seq<Event>, logs: seq<seq<Event>>)
    ensures var flow := Selected(p, AllTransfers(ReadEvent, events, logs));
            flow.Some? ==> PriceShape(flow.value.amount, flow.value.denom)
  {
    var ts := AllTransfers(ReadEvent, events, logs);
    if Selected(p, ts).Some? {
      var tf := ts[BestIndex(p, ts)];
      AllTransfersMembers(ReadEvent, events, logs, tf);
      var e :| Occurs(e, events, logs) && ReadEvent(e) == Some(tf);
      FieldsHavePriceShape(e.attributes);
    }
  }
}
