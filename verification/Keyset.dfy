// Keyset pagination, independent of the table: a listing is ordered by a
// unique key, each page asks for the first limit+1 keys after the cursor, and
// the next cursor is the last key of the page.
//
// `rank` stands for the ORDER BY order: any total order on countably many keys
// embeds into the reals, so `rank` covers every collation, and a descending
// order is the negated rank.
module Keyset {
  import opened Sql
  import opened Collections

  ghost predicate InjectiveAt<K(!new)>(rank: K -> real, a: K) {
    forall b :: rank(a) == rank(b) ==> a == b
  }

  ghost predicate Injective<K(!new)>(rank: K -> real) {
    forall a :: InjectiveAt(rank, a)
  }

  ghost predicate Ascending<K>(rank: K -> real, s: seq<K>) {
    forall i, j :: 0 <= i < j < |s| ==> rank(s[i]) < rank(s[j])
  }

  // What `SELECT ... ORDER BY key` may return for the given keys.
  ghost predicate IsListing<K(!new)>(rank: K -> real, keys: set<K>, s: seq<K>) {
    && Ascending(rank, s)
    && forall k :: k in s <==> k in keys
  }

  lemma {:induction false} MinimumExists<K>(rank: K -> real, keys: set<K>) returns (k: K)
    requires keys != {}
    ensures k in keys && forall x :: x in keys ==> rank(k) <= rank(x)
    decreases |keys|
  {
    k := Pick(keys);
    if keys != {k} {
      var rest := keys - {k};
      assert keys == rest + {k};
      assert rest != {};
      var m := MinimumExists(rank, rest);
      if rank(m) < rank(k) {
        k := m;
      }
    }
  }

  ghost function Minimum<K>(rank: K -> real, keys: set<K>): (k: K)
    requires keys != {}
    ensures k in keys && forall x :: x in keys ==> rank(k) <= rank(x)
  {
    assert exists k :: k in keys && forall x :: x in keys ==> rank(k) <= rank(x) by {
      var m := MinimumExists(rank, keys);
    }
    var k :| k in keys && forall x :: x in keys ==> rank(k) <= rank(x);
    k
  }

  // The ordered listing of a finite key set.
  ghost function Listing<K>(rank: K -> real, keys: set<K>): seq<K>
    decreases |keys|
  {
    if keys == {} then []
    else
      var k := Minimum(rank, keys);
      [k] + Listing(rank, keys - {k})
  }

  lemma {:induction false} ListingIsListing<K(!new)>(rank: K -> real, keys: set<K>)
    requires Injective(rank)
    ensures IsListing(rank, keys, Listing(rank, keys))
    decreases |keys|
  {
    if keys != {} {
      var k := Minimum(rank, keys);
      ListingIsListing(rank, keys - {k});
      assert InjectiveAt(rank, k);
      MinimumFirst(rank, keys, k, Listing(rank, keys - {k}));
    }
  }

  lemma MinimumFirst<K(!new)>(rank: K -> real, keys: set<K>, k: K, rest: seq<K>)
    requires InjectiveAt(rank, k) && k in keys && forall x :: x in keys ==> rank(k) <= rank(x)
    requires IsListing(rank, keys - {k}, rest)
    ensures IsListing(rank, keys, [k] + rest)
  {
    forall i | 0 <= i < |rest| ensures rank(k) < rank(rest[i]) {
      assert rest[i] in keys - {k};
    }
  }

  lemma EmptyListing<K(!new)>(rank: K -> real, keys: set<K>, s: seq<K>)
    requires IsListing(rank, keys, s)
    ensures s == [] <==> keys == {}
  {
    if s != [] {
      assert s[0] in keys;
    }
  }

  lemma FirstIsLeast<K(!new)>(rank: K -> real, keys: set<K>, s: seq<K>, k: K)
    requires IsListing(rank, keys, s) && s != [] && k in keys
    ensures s[0] in keys && rank(s[0]) <= rank(k) && (rank(s[0]) == rank(k) ==> s[0] == k)
  {
    var i :| 0 <= i < |s| && s[i] == k;
  }

  // ORDER BY a unique key leaves the database no choice.
  lemma {:induction false} ListingUnique<K(!new)>(rank: K -> real, keys: set<K>, s: seq<K>, t: seq<K>)
    requires IsListing(rank, keys, s) && IsListing(rank, keys, t)
    ensures s == t
    decreases |s|
  {
    if s == [] || t == [] {
      EmptyListing(rank, keys, s);
      EmptyListing(rank, keys, t);
    } else {
      FirstIsLeast(rank, keys, s, t[0]);
      FirstIsLeast(rank, keys, t, s[0]);
      assert s[0] == t[0];
      TailListing(rank, keys, s);
      TailListing(rank, keys, t);
      ListingUnique(rank, keys - {s[0]}, s[1..], t[1..]);
      assert s == [s[0]] + s[1..] && t == [t[0]] + t[1..];
    }
  }

  lemma {:induction false} TailListing<K(!new)>(rank: K -> real, keys: set<K>, s: seq<K>)
    requires IsListing(rank, keys, s) && s != []
    ensures IsListing(rank, keys - {s[0]}, s[1..])
  {
    forall x ensures x in s[1..] <==> x in keys - {s[0]} {
      if x in keys - {s[0]} {
        var i :| 0 <= i < |s| && s[i] == x;
        assert s[1..][i - 1] == x;
      }
    }
  }

  lemma ListingSize<K(!new)>(rank: K -> real, keys: set<K>)
    requires Injective(rank)
    ensures |Listing(rank, keys)| == |keys|
  {
    ListingIsListing(rank, keys);
    SizeOfEnumeration(Listing(rank, keys), keys);
  }

  // The keys a cursor leaves to be listed.
  ghost function After<K>(rank: K -> real, keys: set<K>, cursor: Option<K>): set<K> {
    set k | k in keys && (cursor.Some? ==> rank(cursor.value) < rank(k))
  }

  lemma {:induction false} DropIsListing<K(!new)>(rank: K -> real, keys: set<K>, s: seq<K>, n: nat)
    requires IsListing(rank, keys, s) && 0 < n <= |s|
    ensures IsListing(rank, After(rank, keys, Some(s[n - 1])), s[n..])
  {
    var later := After(rank, keys, Some(s[n - 1]));
    forall x ensures x in s[n..] <==> x in later {
      if x in later {
        var i :| 0 <= i < |s| && s[i] == x;
        assert s[n..][i - n] == x;
      }
      if x in s[n..] {
        var i :| 0 <= i < |s[n..]| && s[n..][i] == x;
        assert s[n + i] == x;
      }
    }
  }

  // The tail of a listing is the listing of what comes after its last
  // consumed key.
  lemma ListingTail<K(!new)>(rank: K -> real, keys: set<K>, n: nat)
    requires Injective(rank)
    requires 0 < n <= |Listing(rank, keys)|
    ensures var all := Listing(rank, keys);
            all[n..] == Listing(rank, After(rank, keys, Some(all[n - 1])))
  {
    var all := Listing(rank, keys);
    var later := After(rank, keys, Some(all[n - 1]));
    ListingIsListing(rank, keys);
    ListingIsListing(rank, later);
    DropIsListing(rank, keys, all, n);
    ListingUnique(rank, later, all[n..], Listing(rank, later));
  }

  datatype Page<+K> = Page(items: seq<K>, hasMore: bool)

  // One page: the first `limit` keys after the cursor, and whether there are
  // more.
  ghost function FetchPage<K>(rank: K -> real, matching: set<K>, cursor: Option<K>, limit: nat): Page<K> {
    var all := Listing(rank, After(rank, matching, cursor));
    if |all| <= limit then Page(all, false) else Page(all[..limit], true)
  }

  // LIMIT n
  ghost function FirstOf<K>(all: seq<K>, n: nat): seq<K> {
    if |all| <= n then all else all[..n]
  }

  // Fetching one row too many and trimming it gives the page.
  lemma TrimmedIsPage<K>(rank: K -> real, matching: set<K>, cursor: Option<K>, limit: nat, rows: seq<K>)
    requires rows == FirstOf(Listing(rank, After(rank, matching, cursor)), limit + 1)
    ensures FetchPage(rank, matching, cursor, limit)
         == if |rows| > limit then Page(rows[..limit], true) else Page(rows, false)
  {
  }

  function NextCursor<K>(p: Page<K>): Option<K> {
    if p.hasMore && |p.items| > 0 then Some(p.items[|p.items| - 1]) else None
  }

  // What a page promises: its items come in order from what is left, and
  // anything left out lies beyond the next cursor.
  ghost predicate IsPage<K(!new)>(rank: K -> real, rest: set<K>, p: Page<K>) {
    && Ascending(rank, p.items)
    && (forall k :: k in p.items ==> k in rest)
    && (forall k :: k in rest && k !in p.items ==> NextCursor(p).Some? && rank(NextCursor(p).value) < rank(k))
    && (forall k :: k in p.items && NextCursor(p).Some? ==> rank(k) <= rank(NextCursor(p).value))
  }

  lemma {:induction false} PrefixIsPage<K(!new)>(rank: K -> real, rest: set<K>, all: seq<K>, n: nat)
    requires IsListing(rank, rest, all) && 1 <= n < |all|
    ensures IsPage(rank, rest, Page(all[..n], true))
  {
    forall k | k in rest ensures k in all[..n] || rank(all[n - 1]) < rank(k) {
      var i :| 0 <= i < |all| && all[i] == k;
      if i < n {
        assert all[..n][i] == k;
      }
    }
    forall i | 0 <= i < n ensures all[..n][i] in rest && rank(all[i]) <= rank(all[n - 1]) {
      assert all[i] in all;
    }
    assert NextCursor(Page(all[..n], true)) == Some(all[n - 1]);
  }

  lemma FetchedIsPage<K(!new)>(rank: K -> real, matching: set<K>, cursor: Option<K>, limit: nat)
    requires Injective(rank) && 1 <= limit
    ensures IsPage(rank, After(rank, matching, cursor), FetchPage(rank, matching, cursor, limit))
  {
    var rest := After(rank, matching, cursor);
    var all := Listing(rank, rest);
    ListingIsListing(rank, rest);
    if |all| > limit {
      PrefixIsPage(rank, rest, all, limit);
    }
  }

  lemma CursorAdvances<K(!new)>(rank: K -> real, matching: set<K>, cursor: K, limit: nat)
    requires Injective(rank) && 1 <= limit
    ensures var next := NextCursor(FetchPage(rank, matching, Some(cursor), limit));
            next.Some? ==> next.value in matching && rank(cursor) < rank(next.value)
  {
    var p := FetchPage(rank, matching, Some(cursor), limit);
    FetchedIsPage(rank, matching, Some(cursor), limit);
    if NextCursor(p).Some? {
      assert NextCursor(p).value in p.items;
      assert NextCursor(p).value in After(rank, matching, Some(cursor));
    }
  }

  // A client that follows cursors.  snapshots[i] is the set of keys that match
  // when page i is fetched; the client stops at the first page without a
  // cursor, or when the snapshots run out.
  ghost function Walk<K>(rank: K -> real, snapshots: seq<set<K>>, cursor: Option<K>, limit: nat): seq<Page<K>>
    decreases |snapshots|
  {
    if snapshots == [] then []
    else
      var p := FetchPage(rank, snapshots[0], cursor, limit);
      if NextCursor(p).None? then [p]
      else [p] + Walk(rank, snapshots[1..], NextCursor(p), limit)
  }

  ghost predicate Finished<K>(pages: seq<Page<K>>) {
    pages != [] && NextCursor(pages[|pages| - 1]).None?
  }

  ghost function Items<K>(pages: seq<Page<K>>): seq<K> {
    if pages == [] then [] else pages[0].items + Items(pages[1..])
  }

  // Items and Finished, unfolded one page.
  lemma WalkEnds<K>(rank: K -> real, snapshots: seq<set<K>>, cursor: Option<K>, limit: nat, p: Page<K>)
    requires snapshots != []
    requires p == FetchPage(rank, snapshots[0], cursor, limit) && NextCursor(p).None?
    ensures Walk(rank, snapshots, cursor, limit) == [p]
    ensures Items([p]) == p.items && Finished([p])
  {
    assert [p][1..] == [];
  }

  lemma WalkContinues<K>(rank: K -> real, snapshots: seq<set<K>>, cursor: Option<K>, limit: nat, p: Page<K>)
    requires snapshots != []
    requires p == FetchPage(rank, snapshots[0], cursor, limit) && NextCursor(p).Some?
    ensures var pages := Walk(rank, snapshots, cursor, limit);
            var later := Walk(rank, snapshots[1..], NextCursor(p), limit);
            Items(pages) == p.items + Items(later) && (Finished(pages) <==> Finished(later))
  {
    var later := Walk(rank, snapshots[1..], NextCursor(p), limit);
    assert ([p] + later)[1..] == later;
  }

  lemma AscendingJoin<K>(rank: K -> real, a: seq<K>, b: seq<K>, c: K)
    requires Ascending(rank, a) && Ascending(rank, b)
    requires forall k :: k in a ==> rank(k) <= rank(c)
    requires forall k :: k in b ==> rank(c) < rank(k)
    ensures Ascending(rank, a + b)
  {
    forall i, j | 0 <= i < j < |a + b| ensures rank((a + b)[i]) < rank((a + b)[j]) {
      if i < |a| <= j {
        assert a[i] in a && b[j - |a|] in b;
      }
    }
  }

  // However the table changes between pages, a walk never repeats a key, stays
  // in order, and returns only keys beyond its cursor.
  lemma {:induction false} WalkAscends<K(!new)>(rank: K -> real, snapshots: seq<set<K>>, cursor: Option<K>, limit: nat)
    requires Injective(rank) && 1 <= limit
    ensures Ascending(rank, Items(Walk(rank, snapshots, cursor, limit)))
    ensures cursor.Some? ==>
              forall k :: k in Items(Walk(rank, snapshots, cursor, limit)) ==> rank(cursor.value) < rank(k)
    decreases |snapshots|
  {
    if snapshots != [] {
      var p := FetchPage(rank, snapshots[0], cursor, limit);
      FetchedIsPage(rank, snapshots[0], cursor, limit);
      if NextCursor(p).None? {
        WalkEnds(rank, snapshots, cursor, limit, p);
      } else {
        WalkContinues(rank, snapshots, cursor, limit, p);
        WalkAscends(rank, snapshots[1..], NextCursor(p), limit);
        var later := Items(Walk(rank, snapshots[1..], NextCursor(p), limit));
        AscendingJoin(rank, p.items, later, NextCursor(p).value);
        assert NextCursor(p).value in p.items;
      }
    }
  }

  // Every item of a page matched when that page was fetched.
  lemma {:induction false} WalkSound<K(!new)>(rank: K -> real, snapshots: seq<set<K>>, cursor: Option<K>,
        limit: nat, i: nat)
    requires Injective(rank) && 1 <= limit
    requires i < |Walk(rank, snapshots, cursor, limit)|
    ensures i < |snapshots| && forall k :: k in Walk(rank, snapshots, cursor, limit)[i].items ==> k in snapshots[i]
    decreases i
  {
    var p := FetchPage(rank, snapshots[0], cursor, limit);
    if i == 0 {
      FetchedIsPage(rank, snapshots[0], cursor, limit);
    } else {
      WalkSound(rank, snapshots[1..], NextCursor(p), limit, i - 1);
    }
  }

  // A walk's items are those of its pages.
  lemma {:induction false} ItemsOfPages<K>(pages: seq<Page<K>>, k: K)
    ensures k in Items(pages) <==> exists i :: 0 <= i < |pages| && k in pages[i].items
  {
    if pages != [] {
      ItemsOfPages(pages[1..], k);
      if k in Items(pages[1..]) {
        var i :| 0 <= i < |pages[1..]| && k in pages[1..][i].items;
        assert k in pages[i + 1].items;
      }
      if i :| 0 < i < |pages| && k in pages[i].items {
        assert k in pages[1..][i - 1].items;
      }
    }
  }

  // A finished walk has returned every key that matched throughout it.
  lemma {:induction false} WalkComplete<K(!new)>(rank: K -> real, snapshots: seq<set<K>>, cursor: Option<K>,
        limit: nat, k: K)
    requires Injective(rank) && 1 <= limit
    requires Finished(Walk(rank, snapshots, cursor, limit))
    requires forall i :: 0 <= i < |snapshots| ==> k in snapshots[i]
    requires cursor.Some? ==> rank(cursor.value) < rank(k)
    ensures k in Items(Walk(rank, snapshots, cursor, limit))
    decreases |snapshots|
  {
    var p := FetchPage(rank, snapshots[0], cursor, limit);
    FetchedIsPage(rank, snapshots[0], cursor, limit);
    if NextCursor(p).None? {
      WalkEnds(rank, snapshots, cursor, limit, p);
    } else {
      WalkContinues(rank, snapshots, cursor, limit, p);
    }
    if k !in p.items {
      assert k in After(rank, snapshots[0], cursor);
      WalkComplete(rank, snapshots[1..], NextCursor(p), limit, k);
    }
  }

  lemma RestAfterPage<K(!new)>(rank: K -> real, matching: set<K>, cursor: Option<K>, n: nat)
    requires Injective(rank)
    requires 1 <= n <= |Listing(rank, After(rank, matching, cursor))|
    ensures var all := Listing(rank, After(rank, matching, cursor));
            && all[n..] == Listing(rank, After(rank, matching, Some(all[n - 1])))
            && |After(rank, matching, cursor)| == n + |After(rank, matching, Some(all[n - 1]))|
  {
    var rest := After(rank, matching, cursor);
    var c := Listing(rank, rest)[n - 1];
    ListingTail(rank, rest, n);
    assert c in rest by {
      ListingIsListing(rank, rest);
    }
    assert After(rank, rest, Some(c)) == After(rank, matching, Some(c));
    ListingSize(rank, rest);
    ListingSize(rank, After(rank, matching, Some(c)));
  }

  // The walk has ended and returned exactly what was left after the cursor.
  ghost predicate ReturnsAll<K>(rank: K -> real, matching: set<K>, snapshots: seq<set<K>>, cursor: Option<K>,
        limit: nat) {
    && Finished(Walk(rank, snapshots, cursor, limit))
    && Items(Walk(rank, snapshots, cursor, limit)) == Listing(rank, After(rank, matching, cursor))
  }

  lemma LastPageReturnsAll<K(!new)>(rank: K -> real, matching: set<K>, snapshots: seq<set<K>>,
        cursor: Option<K>, limit: nat)
    requires Injective(rank) && 1 <= limit && snapshots != [] && snapshots[0] == matching
    requires |After(rank, matching, cursor)| <= limit
    ensures ReturnsAll(rank, matching, snapshots, cursor, limit)
  {
    ListingSize(rank, After(rank, matching, cursor));
    WalkEnds(rank, snapshots, cursor, limit, FetchPage(rank, matching, cursor, limit));
  }

  lemma {:induction false} PageThenReturnsAll<K(!new)>(rank: K -> real, matching: set<K>,
        snapshots: seq<set<K>>, cursor: Option<K>, limit: nat, c: K)
    requires Injective(rank) && 1 <= limit && snapshots != [] && snapshots[0] == matching
    requires limit < |Listing(rank, After(rank, matching, cursor))|
    requires c == Listing(rank, After(rank, matching, cursor))[limit - 1]
    requires ReturnsAll(rank, matching, snapshots[1..], Some(c), limit)
    ensures ReturnsAll(rank, matching, snapshots, cursor, limit)
  {
    var all := Listing(rank, After(rank, matching, cursor));
    var p := Page(all[..limit], true);
    assert NextCursor(p) == Some(c);
    var rest := Listing(rank, After(rank, matching, Some(c)));
    assert all == p.items + rest by {
      RestAfterPage(rank, matching, cursor, limit);
    }
    WalkContinues(rank, snapshots, cursor, limit, p);
  }

  // On a table that does not change, the pages concatenate to the whole
  // listing, whatever the page size, and the walk ends after as many pages as
  // the listing needs.
  lemma {:induction false} WalkFixed<K(!new)>(rank: K -> real, matching: set<K>, snapshots: seq<set<K>>,
        cursor: Option<K>, limit: nat)
    requires Injective(rank) && 1 <= limit
    requires forall i :: 0 <= i < |snapshots| ==> snapshots[i] == matching
    requires snapshots != [] && |After(rank, matching, cursor)| <= |snapshots| * limit
    ensures ReturnsAll(rank, matching, snapshots, cursor, limit)
    decreases |snapshots|
  {
    var rest := After(rank, matching, cursor);
    ListingSize(rank, rest);
    if |rest| <= limit {
      LastPageReturnsAll(rank, matching, snapshots, cursor, limit);
    } else {
      var c := Listing(rank, rest)[limit - 1];
      RestAfterPage(rank, matching, cursor, limit);
      OnePageLess(|rest|, |snapshots|, limit);
      WalkFixed(rank, matching, snapshots[1..], Some(c), limit);
      PageThenReturnsAll(rank, matching, snapshots, cursor, limit, c);
    }
  }

  lemma OnePageLess(left: nat, pages: nat, limit: nat)
    requires limit < left <= pages * limit
    ensures left - limit <= (pages - 1) * limit && 2 <= pages
  {
  }
}
