// Choosing the newest chain state and the newest IP address of a supernode
// (internal/background/scheduler.go, latestState and latestIPAddress).
module Heights {
  import opened GoText

  // SupernodeState and PrevIPAddress: a payload with a block height as text.
  datatype Entry = Entry(payload: string, height: string)

  // The height that counts: unparseable and non-positive heights never win.
  function Counted(p: Parsed): nat {
    if p.ok && p.value > 0 then p.value else 0
  }

  function Height(e: Entry): nat {
    Counted(ParseInt64(e.height))
  }

  // Position i holds the first of the greatest values.
  ghost predicate IsFirstMax(hs: seq<nat>, i: int) {
    && 0 <= i < |hs|
    && (forall j :: 0 <= j < |hs| ==> hs[j] <= hs[i])
    && (forall j :: 0 <= j < i ==> hs[j] < hs[i])
  }

  ghost function HeightsOf(es: seq<Entry>): (hs: seq<nat>)
    ensures |hs| == |es|
  {
    if es == [] then [] else HeightsOf(es[..|es| - 1]) + [Height(es[|es| - 1])]
  }

  lemma {:induction false} HeightAt(es: seq<Entry>, i: int)
    requires 0 <= i < |es|
    ensures HeightsOf(es)[i] == Height(es[i])
  {
    if i < |es| - 1 {
      HeightAt(es[..|es| - 1], i);
    }
  }

  // Entry i is the first one with the greatest height that counts.
  ghost predicate IsLatest(es: seq<Entry>, i: int) {
    IsFirstMax(HeightsOf(es), i)
  }

  // One step of the scan.
  lemma FirstMaxStep(hs: seq<nat>, h: nat, i: int)
    requires IsFirstMax(hs, i)
    ensures IsFirstMax(hs + [h], if h > hs[i] then |hs| else i)
  {
  }

  lemma {:induction false} FirstMaxExists(hs: seq<nat>) returns (i: int)
    requires hs != []
    ensures IsFirstMax(hs, i)
  {
    if |hs| == 1 {
      i := 0;
    } else {
      var init := hs[..|hs| - 1];
      i := FirstMaxExists(init);
      FirstMaxStep(init, hs[|hs| - 1], i);
      assert hs == init + [hs[|hs| - 1]];
      if hs[|hs| - 1] > init[i] {
        i := |hs| - 1;
      }
    }
  }

  ghost function LatestIndex(es: seq<Entry>): (i: int)
    requires es != []
    ensures IsLatest(es, i)
  {
    assert exists i :: IsFirstMax(HeightsOf(es), i) by {
      var i := FirstMaxExists(HeightsOf(es));
    }
    var i :| IsFirstMax(HeightsOf(es), i);
    i
  }

  ghost function Latest(es: seq<Entry>): Entry
    requires es != []
  {
    es[LatestIndex(es)]
  }

  lemma LatestIs(es: seq<Entry>, i: int)
    requires IsLatest(es, i)
    ensures LatestIndex(es) == i
  {
    FirstMaxUnique(HeightsOf(es), LatestIndex(es), i);
  }

  lemma FirstMaxUnique(hs: seq<nat>, i: int, k: int)
    requires IsFirstMax(hs, i) && IsFirstMax(hs, k)
    ensures i == k
  {
    assert hs[i] == hs[k];
  }

  // The loop state after scanning es: nothing counted yet, or the first
  // greatest height and its position.
  ghost predicate Scanned(es: seq<Entry>, maxIdx: int, maxHeight: int) {
    if es == [] then maxIdx == 0 && maxHeight == 0
    else IsLatest(es, maxIdx) && maxHeight == HeightsOf(es)[maxIdx]
  }

  // What looking at entry i does to the position found so far.
  lemma ScanStep(es: seq<Entry>, i: int, maxIdx: int, maxHeight: int)
    requires 0 <= i < |es|
    requires Scanned(es[..i], maxIdx, maxHeight)
    ensures var h := Counted(ParseInt64(es[i].height));
            if h > maxHeight then Scanned(es[..i + 1], i, h) else Scanned(es[..i + 1], maxIdx, maxHeight)
  {
    assert es[..i + 1][..i] == es[..i];
    assert HeightsOf(es[..i + 1]) == HeightsOf(es[..i]) + [Height(es[i])];
    if i > 0 {
      FirstMaxStep(HeightsOf(es[..i]), Height(es[i]), maxIdx);
    }
  }

  method LatestState(states: seq<Entry>) returns (state: string, height: string)
    ensures states == [] ==> state == "SUPERNODE_STATE_UNKNOWN" && height == ""
    ensures states != [] ==> Entry(state, height) == Latest(states)
  {
    if |states| == 0 {
      return "SUPERNODE_STATE_UNKNOWN", "";
    }
    var maxIdx := 0;
    var maxHeight := 0;
    for i := 0 to |states|
      invariant 0 <= maxIdx < |states|
      invariant Scanned(states[..i], maxIdx, maxHeight)
    {
      var h := ParseInt64(states[i].height);
      ScanStep(states, i, maxIdx, maxHeight);
      if h.ok {
        if h.value > maxHeight {
          maxHeight := h.value;
          maxIdx := i;
        }
      }
    }
    assert states[..|states|] == states;
    LatestIs(states, maxIdx);
    return states[maxIdx].payload, states[maxIdx].height;
  }

  method LatestIPAddress(addresses: seq<Entry>) returns (address: string)
    ensures addresses == [] ==> address == ""
    ensures addresses != [] ==> address == Latest(addresses).payload
  {
    if |addresses| == 0 {
      return "";
    }
    var maxIdx := 0;
    var maxHeight := 0;
    for i := 0 to |addresses|
      invariant 0 <= maxIdx < |addresses|
      invariant Scanned(addresses[..i], maxIdx, maxHeight)
    {
      var h := ParseInt64(addresses[i].height);
      ScanStep(addresses, i, maxIdx, maxHeight);
      if h.ok {
        if h.value > maxHeight {
          maxHeight := h.value;
          maxIdx := i;
        }
      }
    }
    assert addresses[..|addresses|] == addresses;
    LatestIs(addresses, maxIdx);
    return addresses[maxIdx].payload;
  }

  // What IsLatest says about the entries themselves.
  lemma LatestFacts(es: seq<Entry>, i: int)
    requires 0 <= i < |es|
    ensures IsLatest(es, i) <==>
              && (forall j :: 0 <= j < |es| ==> Height(es[j]) <= Height(es[i]))
              && (forall j :: 0 <= j < i ==> Height(es[j]) < Height(es[i]))
  {
    forall j | 0 <= j < |es| ensures HeightsOf(es)[j] == Height(es[j]) {
      HeightAt(es, j);
    }
  }

  // A height written as a positive number counts as that number; a negative
  // number, zero, and text that is no number count as zero.
  lemma HeightOfText(e: Entry, n: int)
    ensures e.height == FormatInt(n) && n <= 0x7fff_ffff_ffff_ffff ==> Height(e) == if n > 0 then n else 0
    ensures e.height == FormatInt(n) && n > 0x7fff_ffff_ffff_ffff ==> Height(e) == 0
    ensures !IsNumberText(e.height) ==> Height(e) == 0
  {
    ParseOfFormat(n);
    SyntaxErrorIff(e.height);
  }

  // The two functions agree on which entry is newest: equal heights, equal
  // position, whatever the payloads.
  lemma {:induction false} SameHeightsSamePosition(states: seq<Entry>, addresses: seq<Entry>)
    requires |states| == |addresses| && states != []
    requires forall k :: 0 <= k < |states| ==> states[k].height == addresses[k].height
    ensures LatestIndex(states) == LatestIndex(addresses)
  {
    forall k | 0 <= k < |states| ensures HeightsOf(states)[k] == HeightsOf(addresses)[k] {
      HeightAt(states, k);
      HeightAt(addresses, k);
    }
    assert HeightsOf(states) == HeightsOf(addresses);
    LatestIs(states, LatestIndex(addresses));
  }

  // No entry that ties with the newest one differs from it.
  ghost predicate NoRival(es: seq<Entry>)
    requires es != []
  {
    forall e :: e in es && Height(e) == Height(Latest(es)) ==> e == Latest(es)
  }

  ghost predicate IsPermutation(es: seq<Entry>, ps: seq<Entry>) {
    multiset(es) == multiset(ps)
  }

  lemma PermutationMembers(es: seq<Entry>, ps: seq<Entry>, e: Entry)
    requires IsPermutation(es, ps)
    ensures e in es <==> e in ps
  {
    assert e in es <==> e in multiset(es);
    assert e in ps <==> e in multiset(ps);
  }

  lemma {:induction false} OrderIrrelevantWithoutRival(es: seq<Entry>, ps: seq<Entry>)
    requires es != [] && ps != [] && IsPermutation(es, ps) && NoRival(es)
    ensures Latest(ps) == Latest(es)
  {
    LatestFacts(es, LatestIndex(es));
    LatestFacts(ps, LatestIndex(ps));
    PermutationMembers(es, ps, Latest(es));
    PermutationMembers(es, ps, Latest(ps));
    var i :| 0 <= i < |ps| && ps[i] == Latest(es);
    var k :| 0 <= k < |es| && es[k] == Latest(ps);
    assert Height(Latest(es)) == Height(Latest(ps));
  }

  function MoveToFront(es: seq<Entry>, r: nat): seq<Entry>
    requires r < |es|
  {
    [es[r]] + es[..r] + es[r + 1..]
  }

  lemma {:induction false} MoveToFrontPermutes(es: seq<Entry>, r: nat)
    requires r < |es|
    ensures IsPermutation(es, MoveToFront(es, r))
  {
    assert es == es[..r] + [es[r]] + es[r + 1..];
  }

  lemma {:induction false} GreatestFirstWins(ps: seq<Entry>)
    requires ps != []
    requires forall j :: 0 <= j < |ps| ==> Height(ps[j]) <= Height(ps[0])
    ensures Latest(ps) == ps[0]
  {
    LatestFacts(ps, 0);
    LatestIs(ps, 0);
  }

  lemma LatestIsGreatest(es: seq<Entry>, e: Entry)
    requires e in es
    ensures Height(e) <= Height(Latest(es))
  {
    LatestFacts(es, LatestIndex(es));
  }

  lemma {:induction false} RivalCanWin(es: seq<Entry>, r: nat)
    requires r < |es| && Height(es[r]) == Height(Latest(es))
    ensures Latest(MoveToFront(es, r)) == es[r]
  {
    var ps := MoveToFront(es, r);
    forall j | 0 <= j < |ps| ensures Height(ps[j]) <= Height(ps[0]) {
      MoveToFrontPermutes(es, r);
      PermutationMembers(es, ps, ps[j]);
      LatestIsGreatest(es, ps[j]);
    }
    GreatestFirstWins(ps);
  }

  // The choice is independent of the order in which the chain lists the
  // entries exactly when every entry tied at the greatest height is the same
  // entry.
  lemma {:induction false} OrderIrrelevantIff(es: seq<Entry>)
    requires es != []
    ensures (forall ps :: ps != [] && IsPermutation(es, ps) ==> Latest(ps) == Latest(es)) <==> NoRival(es)
  {
    if NoRival(es) {
      forall ps | ps != [] && IsPermutation(es, ps) ensures Latest(ps) == Latest(es) {
        OrderIrrelevantWithoutRival(es, ps);
      }
    } else {
      var e :| e in es && Height(e) == Height(Latest(es)) && e != Latest(es);
      var r :| 0 <= r < |es| && es[r] == e;
      var ps := MoveToFront(es, r);
      MoveToFrontPermutes(es, r);
      RivalCanWin(es, r);
      assert ps != [] && IsPermutation(es, ps) && Latest(ps) != Latest(es);
    }
  }
}
