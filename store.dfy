/**
 * Reconciliation: `generate_property_id` and `save_properties`, which match each scraped
 * listing against the `properties` table, insert the unseen ones and refresh the others,
 * and `check_properties`, which feeds it the listings of every enabled portal.
 */
module Store {
  import opened Wrappers
  import opened Extract
  import opened Adapters

  /** The `datetime.now()` taken once per reconciliation. */
  type Time = nat

  function PortalName(portal: Portal): string {
    match portal
    case Otodom => "otodom"
    case Olx => "olx"
    case Gratka => "gratka"
  }

  /**
   * `generate_property_id`: the MD5 digest of `"<portal>:<url>"`. The digest is taken to be
   * injective, so the key is the text it digests.
   */
  function PropertyId(portal: Portal, url: string): string {
    PortalName(portal) + ":" + url
  }

  /** Two listings share a key exactly when they come from the same portal with the same url. */
  lemma PropertyIdInjective(p1: Portal, u1: string, p2: Portal, u2: string)
    ensures PropertyId(p1, u1) == PropertyId(p2, u2) <==> p1 == p2 && u1 == u2
  {
    if PropertyId(p1, u1) == PropertyId(p2, u2) {
      var s := PropertyId(p1, u1);
      assert s[0] == PortalName(p1)[0] && s[0] == PortalName(p2)[0];
      assert s[1] == PortalName(p1)[1] && s[1] == PortalName(p2)[1];
      assert p1 == p2;
      var n := |PortalName(p1)| + 1;
      assert u1 == PropertyId(p1, u1)[n..];
      assert u2 == PropertyId(p2, u2)[n..];
    }
  }

  function IdOf(l: Listing): string {
    PropertyId(l.portal, l.url)
  }

  /** A row of the `properties` table; `price_history` is never written and is left out. */
  datatype Row = Row(
    portal: Portal,
    title: string,
    price: nat,
    area: Decimal,
    pricePerM2: PricePerM2,
    location: string,
    url: string,
    description: string,
    firstSeen: Time,
    lastSeen: Time,
    imageUrl: string,
    isActive: int)

  /** The row the INSERT writes. */
  function InsertedRow(l: Listing, now: Time): Row {
    Row(l.portal, l.title, l.price, l.area, l.pricePerM2, l.location, l.url, l.description, now, now, l.imageUrl, 1)
  }

  /** Every row is stored under the key of its own portal and url. */
  ghost predicate Keyed(rows: map<string, Row>) {
    forall id :: id in rows ==> id == PropertyId(rows[id].portal, rows[id].url)
  }

  /**
   * In a keyed table two rows have the same key exactly when they have the same portal and
   * url: the table holds one row per listing.
   */
  lemma KeyedOneRowPerListing(rows: map<string, Row>, id1: string, id2: string)
    requires Keyed(rows) && id1 in rows && id2 in rows
    ensures id1 == id2 <==> rows[id1].portal == rows[id2].portal && rows[id1].url == rows[id2].url
  {
  }

  /** The columns no UPDATE writes: all but price, price_per_m2 and last_seen. */
  predicate SameListing(r: Row, r': Row) {
    && r'.portal == r.portal && r'.title == r.title && r'.area == r.area
    && r'.location == r.location && r'.url == r.url && r'.description == r.description
    && r'.firstSeen == r.firstSeen && r'.imageUrl == r.imageUrl && r'.isActive == r.isActive
  }

  /** The row stored under `id` in `rows`, if there is one. */
  function Lookup(rows: map<string, Row>, id: string): Option<Row> {
    if id in rows then Some(rows[id]) else None
  }

  /** What one turn of the loop of `save_properties` makes of the row under the listing's key. */
  function UpsertRow(existing: Option<Row>, l: Listing, now: Time): Row {
    match existing
    case None => InsertedRow(l, now)
    case Some(row) =>
      if row.price != l.price then row.(price := l.price, pricePerM2 := l.pricePerM2, lastSeen := now)
      else row.(lastSeen := now)
  }

  /** One turn of the loop of `save_properties` on the table. */
  function Upsert(rows: map<string, Row>, l: Listing, now: Time): map<string, Row> {
    rows[IdOf(l) := UpsertRow(Lookup(rows, IdOf(l)), l, now)]
  }

  /** The table after reconciling `ls`, one listing after the other. */
  function Reconciled(rows: map<string, Row>, ls: seq<Listing>, now: Time): map<string, Row>
    decreases |ls|
  {
    if ls == [] then rows else Upsert(Reconciled(rows, ls[..|ls| - 1], now), ls[|ls| - 1], now)
  }

  /** The keys of the listings of `ls`. */
  function Ids(ls: seq<Listing>): set<string>
    decreases |ls|
  {
    if ls == [] then {} else Ids(ls[..|ls| - 1]) + {IdOf(ls[|ls| - 1])}
  }

  /** The listings of `ls` whose key is neither among `known` nor that of an earlier listing of `ls`, in order. */
  function NewListings(known: set<string>, ls: seq<Listing>): seq<Listing>
    decreases |ls|
  {
    if ls == [] then []
    else
      var init := ls[..|ls| - 1];
      var l := ls[|ls| - 1];
      NewListings(known, init) + if IdOf(l) in known || IdOf(l) in Ids(init) then [] else [l]
  }

  /** `xs` is `ys` with some elements left out, the others kept in order. */
  ghost predicate IsSubsequence<T>(xs: seq<T>, ys: seq<T>)
    decreases |ys|
  {
    if xs == [] then true
    else if ys == [] then false
    else
      || (xs[|xs| - 1] == ys[|ys| - 1] && IsSubsequence(xs[..|xs| - 1], ys[..|ys| - 1]))
      || IsSubsequence(xs, ys[..|ys| - 1])
  }

  // ---------------------------------------------------------------------------
  // One listing
  // ---------------------------------------------------------------------------

  /**
   * An unseen key gets one new row, seen on `now` and active; a seen key keeps its row's
   * listing columns and first_seen, takes the new price, and takes the new price_per_m2
   * only if the price changed. No other row changes.
   */
  lemma UpsertEffect(rows: map<string, Row>, l: Listing, now: Time)
    ensures var r := Upsert(rows, l, now);
      && r.Keys == rows.Keys + {IdOf(l)}
      && (forall id :: id in rows && id != IdOf(l) ==> r[id] == rows[id])
      && r[IdOf(l)].price == l.price
      && r[IdOf(l)].lastSeen == now
      && (IdOf(l) !in rows ==> r[IdOf(l)] == InsertedRow(l, now) && r[IdOf(l)].firstSeen == now && r[IdOf(l)].isActive == 1)
      && (IdOf(l) in rows ==>
            && SameListing(rows[IdOf(l)], r[IdOf(l)])
            && r[IdOf(l)].pricePerM2 == if rows[IdOf(l)].price != l.price then l.pricePerM2 else rows[IdOf(l)].pricePerM2)
  {
  }

  // ---------------------------------------------------------------------------
  // A batch
  // ---------------------------------------------------------------------------

  lemma {:induction false} IdsMembers(ls: seq<Listing>, id: string)
    ensures id in Ids(ls) <==> exists k :: 0 <= k < |ls| && IdOf(ls[k]) == id
    decreases |ls|
  {
    if ls != [] {
      var init := ls[..|ls| - 1];
      IdsMembers(init, id);
      if id in Ids(ls) {
        if id in Ids(init) {
          var k :| 0 <= k < |init| && IdOf(init[k]) == id;
          assert ls[k] == init[k];
        } else {
          assert IdOf(ls[|ls| - 1]) == id;
        }
      } else {
        forall k | 0 <= k < |ls| ensures IdOf(ls[k]) != id {
          if k < |init| {
            assert ls[k] == init[k];
          }
        }
      }
    }
  }

  /** The table ends up with one row per key it had and per key of the batch, and no other. */
  lemma {:induction false} ReconciledKeys(rows: map<string, Row>, ls: seq<Listing>, now: Time)
    ensures Reconciled(rows, ls, now).Keys == rows.Keys + Ids(ls)
    decreases |ls|
  {
    if ls != [] {
      ReconciledKeys(rows, ls[..|ls| - 1], now);
    }
  }

  /** Every row of `rows` is still in `r` with the same listing columns and first_seen; the
      rows whose keys are not in `touched` are unchanged. */
  ghost predicate KeepsHistory(rows: map<string, Row>, r: map<string, Row>, touched: set<string>) {
    && rows.Keys <= r.Keys
    && (forall id :: id in rows ==> SameListing(rows[id], r[id]))
    && (forall id :: id in rows && id !in touched ==> r[id] == rows[id])
  }

  /** Every row whose key is in `touched` was last seen `now`. */
  ghost predicate SeenAt(r: map<string, Row>, touched: set<string>, now: Time) {
    forall id :: id in touched ==> id in r && r[id].lastSeen == now
  }

  /** A row the table had keeps its first_seen and listing columns; a row the batch does not
      mention is left as it was; every row the batch mentions is last seen `now`. */
  lemma {:induction false} ReconciledKeepsHistory(rows: map<string, Row>, ls: seq<Listing>, now: Time)
    ensures KeepsHistory(rows, Reconciled(rows, ls, now), Ids(ls))
    ensures SeenAt(Reconciled(rows, ls, now), Ids(ls), now)
    decreases |ls|
  {
    if ls != [] {
      var init := ls[..|ls| - 1];
      var l := ls[|ls| - 1];
      var prev := Reconciled(rows, init, now);
      var r := Reconciled(rows, ls, now);
      ReconciledKeepsHistory(rows, init, now);
      UpsertEffect(prev, l, now);
      assert Ids(ls) == Ids(init) + {IdOf(l)};
      forall id | id in rows ensures SameListing(rows[id], r[id]) {
        assert SameListing(rows[id], prev[id]);
        if id == IdOf(l) {
          assert SameListing(prev[id], r[id]);
        }
      }
    }
  }

  /** Every row whose key is in `ids` but was not in `rows` was first seen `now` and is active. */
  ghost predicate InsertedAt(rows: map<string, Row>, r: map<string, Row>, ids: set<string>, now: Time) {
    forall id :: id in ids && id !in rows ==> id in r && r[id].firstSeen == now && r[id].isActive == 1
  }

  /** A row inserted by the batch was first seen `now` and is active. */
  lemma {:induction false} ReconciledInserted(rows: map<string, Row>, ls: seq<Listing>, now: Time)
    ensures InsertedAt(rows, Reconciled(rows, ls, now), Ids(ls), now)
    decreases |ls|
  {
    if ls != [] {
      var init := ls[..|ls| - 1];
      var l := ls[|ls| - 1];
      var prev := Reconciled(rows, init, now);
      ReconciledInserted(rows, init, now);
      ReconciledKeepsHistory(rows, init, now);
      ReconciledKeys(rows, init, now);
      UpsertEffect(prev, l, now);
      assert Ids(ls) == Ids(init) + {IdOf(l)};
    }
  }

  /** The price of a row is that of the last listing of the batch with its key. */
  lemma {:induction false} LastPriceWins(rows: map<string, Row>, ls: seq<Listing>, now: Time, k: nat)
    requires k < |ls|
    requires forall j :: k < j < |ls| ==> IdOf(ls[j]) != IdOf(ls[k])
    ensures IdOf(ls[k]) in Reconciled(rows, ls, now)
    ensures Reconciled(rows, ls, now)[IdOf(ls[k])].price == ls[k].price
    decreases |ls|
  {
    var init := ls[..|ls| - 1];
    if k < |ls| - 1 {
      assert forall j :: k < j < |init| ==> init[j] == ls[j];
      LastPriceWins(rows, init, now, k);
      assert init[k] == ls[k];
    }
  }

  /** The keys stay those of their rows. */
  lemma {:induction false} ReconciledKeyed(rows: map<string, Row>, ls: seq<Listing>, now: Time)
    requires Keyed(rows)
    ensures Keyed(Reconciled(rows, ls, now))
    decreases |ls|
  {
    if ls != [] {
      ReconciledKeyed(rows, ls[..|ls| - 1], now);
    }
  }

  /** first_seen <= last_seen <= now holds of every row. */
  ghost predicate SeenBy(rows: map<string, Row>, now: Time) {
    forall id :: id in rows ==> rows[id].firstSeen <= rows[id].lastSeen <= now
  }

  /** If the clock has not gone back, every row is still first seen no later than last seen, and last seen no later than now. */
  lemma {:induction false} ReconciledSeenOrder(rows: map<string, Row>, ls: seq<Listing>, now: Time)
    requires SeenBy(rows, now)
    ensures SeenBy(Reconciled(rows, ls, now), now)
    decreases |ls|
  {
    if ls != [] {
      var prev := Reconciled(rows, ls[..|ls| - 1], now);
      ReconciledSeenOrder(rows, ls[..|ls| - 1], now);
      UpsertEffect(prev, ls[|ls| - 1], now);
    }
  }

  /** Every row has a price. */
  ghost predicate Priced(rows: map<string, Row>) {
    forall id :: id in rows ==> rows[id].price != 0
  }

  /** A table holding only priced rows keeps holding only priced rows when fed priced listings. */
  lemma {:induction false} ReconciledPricesPositive(rows: map<string, Row>, ls: seq<Listing>, now: Time)
    requires Priced(rows)
    requires forall k :: 0 <= k < |ls| ==> ls[k].price != 0
    ensures Priced(Reconciled(rows, ls, now))
    decreases |ls|
  {
    if ls != [] {
      var init := ls[..|ls| - 1];
      assert forall k :: 0 <= k < |init| ==> init[k] == ls[k];
      ReconciledPricesPositive(rows, init, now);
      UpsertEffect(Reconciled(rows, init, now), ls[|ls| - 1], now);
    }
  }

  // ---------------------------------------------------------------------------
  // The new listings
  // ---------------------------------------------------------------------------

  /** The new listings are the batch with some listings left out, the rest in arrival order. */
  lemma {:induction false} NewListingsSubsequence(known: set<string>, ls: seq<Listing>)
    ensures IsSubsequence(NewListings(known, ls), ls)
    decreases |ls|
  {
    if ls != [] {
      var init := ls[..|ls| - 1];
      var news := NewListings(known, init);
      NewListingsSubsequence(known, init);
      if NewListings(known, ls) != news {
        var all := NewListings(known, ls);
        assert all[..|all| - 1] == news;
      } else {
        SubsequenceOfLonger(news, init, ls[|ls| - 1]);
      }
    }
  }

  lemma {:induction false} SubsequenceOfLonger<T>(xs: seq<T>, ys: seq<T>, y: T)
    requires IsSubsequence(xs, ys)
    ensures IsSubsequence(xs, ys + [y])
  {
    assert (ys + [y])[..|ys|] == ys;
  }

  /** Each listing of `news` has a key outside `known` and inside `ids`, and no two share a key. */
  ghost predicate FreshKeys(news: seq<Listing>, known: set<string>, ids: set<string>) {
    && (forall k :: 0 <= k < |news| ==> IdOf(news[k]) !in known && IdOf(news[k]) in ids)
    && (forall j, k :: 0 <= j < k < |news| ==> IdOf(news[j]) != IdOf(news[k]))
  }

  /** Each new listing has a key the table did not know, and no two new listings share a key:
      a listing repeated within the batch is new at most once. */
  lemma {:induction false} NewListingsFresh(known: set<string>, ls: seq<Listing>)
    ensures FreshKeys(NewListings(known, ls), known, Ids(ls))
    decreases |ls|
  {
    if ls != [] {
      var init := ls[..|ls| - 1];
      var l := ls[|ls| - 1];
      var news := NewListings(known, init);
      NewListingsFresh(known, init);
      assert Ids(ls) == Ids(init) + {IdOf(l)};
      if !(IdOf(l) in known || IdOf(l) in Ids(init)) {
        var all := news + [l];
        assert NewListings(known, ls) == all;
        forall j, k | 0 <= j < k < |all| ensures IdOf(all[j]) != IdOf(all[k]) {
          if k < |news| {
            assert all[j] == news[j] && all[k] == news[k];
          } else {
            assert all[j] == news[j] && IdOf(news[j]) in Ids(init);
          }
        }
        forall k | 0 <= k < |all| ensures IdOf(all[k]) !in known && IdOf(all[k]) in Ids(ls) {
          if k < |news| {
            assert all[k] == news[k];
          }
        }
      }
    }
  }

  /** Every key of the batch that the table did not know is the key of a new listing. */
  lemma {:induction false} NewListingsCover(known: set<string>, ls: seq<Listing>)
    ensures Ids(NewListings(known, ls)) == Ids(ls) - known
    decreases |ls|
  {
    if ls != [] {
      var init := ls[..|ls| - 1];
      var news := NewListings(known, init);
      var l := ls[|ls| - 1];
      NewListingsCover(known, init);
      assert Ids(ls) == Ids(init) + {IdOf(l)};
      if IdOf(l) in known || IdOf(l) in Ids(init) {
        assert NewListings(known, ls) == news;
      } else {
        var all := news + [l];
        assert NewListings(known, ls) == all;
        assert all[..|all| - 1] == news;
        assert Ids(all) == Ids(news) + {IdOf(l)};
      }
    }
  }

  /** The row count grows by exactly the number of new listings. */
  lemma {:induction false} RowCountGrowsByNew(rows: map<string, Row>, ls: seq<Listing>, now: Time)
    ensures |Reconciled(rows, ls, now)| == |rows| + |NewListings(rows.Keys, ls)|
    decreases |ls|
  {
    if ls != [] {
      var init := ls[..|ls| - 1];
      RowCountGrowsByNew(rows, init, now);
      ReconciledKeys(rows, init, now);
    }
  }

  lemma {:induction false} NewListingsOfKnown(known: set<string>, ls: seq<Listing>)
    requires Ids(ls) <= known
    ensures NewListings(known, ls) == []
    decreases |ls|
  {
    if ls != [] {
      NewListingsOfKnown(known, ls[..|ls| - 1]);
    }
  }

  /**
   * Reconciling the same batch a second time reports nothing new and adds no row; the
   * rows' first_seen and prices are those the first time left.
   */
  lemma ReconcileTwice(rows: map<string, Row>, ls: seq<Listing>, now: Time, later: Time)
    ensures var once := Reconciled(rows, ls, now);
            var twice := Reconciled(once, ls, later);
      && NewListings(once.Keys, ls) == []
      && twice.Keys == once.Keys
      && forall id :: id in once ==> twice[id].firstSeen == once[id].firstSeen && twice[id].price == once[id].price
  {
    var once := Reconciled(rows, ls, now);
    var twice := Reconciled(once, ls, later);
    ReconciledKeys(rows, ls, now);
    ReconciledKeys(once, ls, later);
    NewListingsOfKnown(once.Keys, ls);
    ReconciledKeepsHistory(once, ls, later);
    forall id | id in once ensures twice[id].price == once[id].price {
      if id in Ids(ls) {
        IdsMembers(ls, id);
        var k := LastWithId(ls, id);
        LastPriceWins(rows, ls, now, k);
        LastPriceWins(once, ls, later, k);
      }
    }
  }

  /** The position of the last listing of `ls` with key `id`. */
  lemma LastWithId(ls: seq<Listing>, id: string) returns (k: nat)
    requires exists j :: 0 <= j < |ls| && IdOf(ls[j]) == id
    ensures k < |ls| && IdOf(ls[k]) == id
    ensures forall j :: k < j < |ls| ==> IdOf(ls[j]) != id
  {
    k := |ls| - 1;
    while IdOf(ls[k]) != id
      invariant 0 <= k < |ls|
      invariant forall j :: k < j < |ls| ==> IdOf(ls[j]) != id
      invariant exists j :: 0 <= j <= k && IdOf(ls[j]) == id
      decreases k
    {
      k := k - 1;
    }
  }

  /** The row under `id` after reconciling `ls`, starting from `r`: only listings with that key touch it. */
  function RowAfter(r: Option<Row>, ls: seq<Listing>, id: string, now: Time): Option<Row>
    decreases |ls|
  {
    if ls == [] then r
    else
      var before := RowAfter(r, ls[..|ls| - 1], id, now);
      if IdOf(ls[|ls| - 1]) == id then Some(UpsertRow(before, ls[|ls| - 1], now)) else before
  }

  /** Each key's row in the reconciled table is the fold of that key's listings over its old row. */
  lemma {:induction false} ReconciledLookup(rows: map<string, Row>, ls: seq<Listing>, now: Time, id: string)
    ensures Lookup(Reconciled(rows, ls, now), id) == RowAfter(Lookup(rows, id), ls, id, now)
    decreases |ls|
  {
    if ls != [] {
      ReconciledLookup(rows, ls[..|ls| - 1], now, id);
    }
  }

  /** A batch without the key leaves its row alone. */
  lemma {:induction false} RowAfterUntouched(r: Option<Row>, ls: seq<Listing>, id: string, now: Time)
    requires id !in Ids(ls)
    ensures RowAfter(r, ls, id, now) == r
    decreases |ls|
  {
    if ls != [] {
      RowAfterUntouched(r, ls[..|ls| - 1], id, now);
    }
  }

  /** A row that exists keeps existing, and keeps its listing columns and first_seen. */
  lemma {:induction false} RowAfterKeepsListing(a: Row, ls: seq<Listing>, id: string, now: Time)
    ensures RowAfter(Some(a), ls, id, now).Some? && SameListing(a, RowAfter(Some(a), ls, id, now).value)
    decreases |ls|
  {
    if ls != [] {
      RowAfterKeepsListing(a, ls[..|ls| - 1], id, now);
    }
  }

  /** Once the batch holds the key, the row exists and its price is the batch's, whatever the row was before. */
  lemma {:induction false} RowAfterPrice(a: Option<Row>, b: Option<Row>, ls: seq<Listing>, id: string, now: Time)
    requires id in Ids(ls)
    ensures RowAfter(a, ls, id, now).Some? && RowAfter(b, ls, id, now).Some?
    ensures RowAfter(a, ls, id, now).value.price == RowAfter(b, ls, id, now).value.price
    decreases |ls|
  {
    var init := ls[..|ls| - 1];
    if IdOf(ls[|ls| - 1]) != id {
      RowAfterPrice(a, b, init, id, now);
    }
  }

  /** Once the batch holds the key, the last_seen the row had before makes no difference. */
  lemma {:induction false} RowAfterForgetsLastSeen(a: Row, b: Row, ls: seq<Listing>, id: string, now: Time)
    requires id in Ids(ls)
    requires a.(lastSeen := 0) == b.(lastSeen := 0)
    ensures RowAfter(Some(a), ls, id, now) == RowAfter(Some(b), ls, id, now)
    decreases |ls|
  {
    var init := ls[..|ls| - 1];
    if id in Ids(init) {
      RowAfterForgetsLastSeen(a, b, init, id, now);
    } else {
      RowAfterUntouched(Some(a), init, id, now);
      RowAfterUntouched(Some(b), init, id, now);
      if IdOf(ls[|ls| - 1]) == id {
        assert a.price == b.price && a.(lastSeen := now) == b.(lastSeen := now) by {
          assert a.(lastSeen := 0).price == b.(lastSeen := 0).price;
        }
      }
    }
  }

  /** Folding a key's listings over their own result changes nothing. */
  lemma {:induction false} RowAfterIdempotent(r: Option<Row>, ls: seq<Listing>, id: string, now: Time)
    ensures RowAfter(RowAfter(r, ls, id, now), ls, id, now) == RowAfter(r, ls, id, now)
    decreases |ls|
  {
    if ls == [] {
    } else if IdOf(ls[|ls| - 1]) != id {
      RowAfterIdempotent(r, ls[..|ls| - 1], id, now);
    } else {
      var init := ls[..|ls| - 1];
      var l := ls[|ls| - 1];
      var x := RowAfter(r, init, id, now);
      var z := UpsertRow(x, l, now);
      assert RowAfter(r, ls, id, now) == Some(z);
      var w := RowAfter(Some(z), init, id, now);
      assert RowAfter(Some(z), ls, id, now) == Some(UpsertRow(w, l, now));
      if id !in Ids(init) {
        RowAfterUntouched(Some(z), init, id, now);
      } else {
        RowAfterPrice(r, Some(z), init, id, now);
        if x.value.price == l.price {
          RowAfterForgetsLastSeen(z, x.value, init, id, now);
          RowAfterIdempotent(r, init, id, now);
        } else {
          RowAfterKeepsListing(z, init, id, now);
        }
      }
    }
  }

  /** Reconciling the same batch again at the same time leaves the table as the first time left it. */
  lemma ReconciledIdempotent(rows: map<string, Row>, ls: seq<Listing>, now: Time)
    ensures Reconciled(Reconciled(rows, ls, now), ls, now) == Reconciled(rows, ls, now)
  {
    var once := Reconciled(rows, ls, now);
    var twice := Reconciled(once, ls, now);
    ReconciledKeys(rows, ls, now);
    ReconciledKeys(once, ls, now);
    forall id | id in once ensures twice[id] == once[id] {
      ReconciledLookup(rows, ls, now, id);
      ReconciledLookup(once, ls, now, id);
      RowAfterIdempotent(Lookup(rows, id), ls, id, now);
      assert Lookup(twice, id) == Lookup(once, id);
    }
  }

  // ---------------------------------------------------------------------------
  // The table and the cycle
  // ---------------------------------------------------------------------------

  /** What one portal contributes: its scraper's listings if the configuration enables it, nothing otherwise. */
  function Enabled(portals: seq<string>, portal: Portal, page: Option<seq<Block>>, criteria: Criteria): seq<Listing> {
    if PortalName(portal) in portals then Scraped(portal, page, criteria) else []
  }

  /** The listings `check_properties` hands to `save_properties`: those of each enabled portal, in the order Otodom, OLX, Gratka. */
  function Collected(portals: seq<string>, criteria: Criteria,
                     otodomPage: Option<seq<Block>>, olxPage: Option<seq<Block>>, gratkaPage: Option<seq<Block>>): seq<Listing>
  {
    Enabled(portals, Otodom, otodomPage, criteria) + Enabled(portals, Olx, olxPage, criteria)
      + Enabled(portals, Gratka, gratkaPage, criteria)
  }

  /** One portal contributes at most 20 listings, each acceptable for that portal. */
  lemma EnabledListings(portals: seq<string>, portal: Portal, page: Option<seq<Block>>, criteria: Criteria)
    ensures var found := Enabled(portals, portal, page, criteria);
      && |found| <= MaxBlocks
      && (portal == Otodom ==> found == [])
      && forall k :: 0 <= k < |found| ==> Acceptable(found[k], portal, criteria)
  {
    if PortalName(portal) in portals && portal != Otodom && page.Some? {
      CandidatesAtMostMax(portal, page.value, criteria);
      CandidatesAcceptable(portal, page.value, criteria);
    }
  }

  /** A listing the monitor may store: priced, measured, with an absolute link and within the criteria. */
  predicate Admissible(l: Listing, criteria: Criteria) {
    && l.price != 0 && l.area.mantissa != 0 && StartsWith(l.url, "http")
    && InCriteria(l.price, l.area, criteria)
  }

  /** The listings of one enabled portal other than Otodom are admissible. */
  lemma EnabledAdmissible(portals: seq<string>, portal: Portal, page: Option<seq<Block>>, criteria: Criteria)
    requires portal != Otodom
    ensures forall l :: l in Enabled(portals, portal, page, criteria) ==> Admissible(l, criteria)
  {
    if PortalName(portal) in portals && page.Some? {
      CandidatesAcceptable(portal, page.value, criteria);
    }
  }

  /** At most 20 listings per portal, and none from Otodom, whose scraper fails. */
  lemma CollectedAtMost(portals: seq<string>, criteria: Criteria,
                        otodomPage: Option<seq<Block>>, olxPage: Option<seq<Block>>, gratkaPage: Option<seq<Block>>)
    ensures |Collected(portals, criteria, otodomPage, olxPage, gratkaPage)| <= 2 * MaxBlocks
  {
    EnabledListings(portals, Otodom, otodomPage, criteria);
    EnabledListings(portals, Olx, olxPage, criteria);
    EnabledListings(portals, Gratka, gratkaPage, criteria);
  }

  /** Every collected listing is admissible. */
  lemma CollectedAdmissible(portals: seq<string>, criteria: Criteria,
                            otodomPage: Option<seq<Block>>, olxPage: Option<seq<Block>>, gratkaPage: Option<seq<Block>>)
    ensures forall l :: l in Collected(portals, criteria, otodomPage, olxPage, gratkaPage) ==> Admissible(l, criteria)
  {
    EnabledListings(portals, Otodom, otodomPage, criteria);
    EnabledAdmissible(portals, Olx, olxPage, criteria);
    EnabledAdmissible(portals, Gratka, gratkaPage, criteria);
  }

  /** A portal whose request fails does not keep the others' listings out: whatever the other
      pages, an enabled Gratka contributes all its candidates, at the end. */
  lemma CollectedKeepsGratka(portals: seq<string>, criteria: Criteria,
                             otodomPage: Option<seq<Block>>, olxPage: Option<seq<Block>>, blocks: seq<Block>)
    requires "gratka" in portals
    ensures var all := Collected(portals, criteria, otodomPage, olxPage, Some(blocks));
      all[|all| - |Candidates(Gratka, blocks, criteria)|..] == Candidates(Gratka, blocks, criteria)
  {
    var gratka := Candidates(Gratka, blocks, criteria);
    var all := Collected(portals, criteria, otodomPage, olxPage, Some(blocks));
    assert Enabled(portals, Gratka, Some(blocks), criteria) == gratka;
    var head := Enabled(portals, Otodom, otodomPage, criteria) + Enabled(portals, Olx, olxPage, criteria);
    assert all == head + gratka;
  }

  /** The `properties` table, held by the monitor through its database cursor. */
  class ListingStore {
    var rows: map<string, Row>

    ghost predicate Valid()
      reads this
    {
      Keyed(rows)
    }

    /** An empty table, as `CREATE TABLE IF NOT EXISTS` leaves a new database. */
    constructor ()
      ensures Valid() && rows == map[]
    {
      rows := map[];
    }

    /** `save_properties`: reconciles the batch at time `now` and returns the new listings. */
    method SaveProperties(properties: seq<Listing>, now: Time) returns (newProperties: seq<Listing>)
      requires Valid()
      modifies this
      ensures Valid()
      ensures rows == Reconciled(old(rows), properties, now)
      ensures newProperties == NewListings(old(rows).Keys, properties)
    {
      newProperties := [];
      for i := 0 to |properties|
        invariant rows == Reconciled(old(rows), properties[..i], now)
        invariant newProperties == NewListings(old(rows).Keys, properties[..i])
        invariant Valid()
      {
        assert properties[..i + 1][..i] == properties[..i];
        ReconciledKeys(old(rows), properties[..i], now);
        ReconciledKeyed(old(rows), properties[..i + 1], now);
        var prop := properties[i];
        var propId := PropertyId(prop.portal, prop.url);
        ghost var before := rows;
        assert propId == IdOf(prop);
        if propId in rows {
          var existing := rows[propId];
          assert Lookup(before, propId) == Some(existing);
          if existing.price != prop.price {
            rows := rows[propId := existing.(price := prop.price, pricePerM2 := prop.pricePerM2, lastSeen := now)];
          } else {
            rows := rows[propId := existing.(lastSeen := now)];
          }
          assert rows == Upsert(before, prop, now);
        } else {
          rows := rows[propId := Row(prop.portal, prop.title, prop.price, prop.area, prop.pricePerM2, prop.location,
                                     prop.url, prop.description, now, now, prop.imageUrl, 1)];
          newProperties := newProperties + [prop];
          assert rows == Upsert(before, prop, now);
        }
        assert Reconciled(old(rows), properties[..i + 1], now) == Upsert(before, prop, now);
      }
      assert properties[..|properties|] == properties;
    }

    /** `check_properties` up to the notifications: scrape every enabled portal, then reconcile. */
    method CheckProperties(portals: seq<string>, criteria: Criteria,
                           otodomPage: Option<seq<Block>>, olxPage: Option<seq<Block>>, gratkaPage: Option<seq<Block>>,
                           now: Time) returns (newProperties: seq<Listing>)
      requires Valid()
      modifies this
      ensures Valid()
      ensures rows == Reconciled(old(rows), Collected(portals, criteria, otodomPage, olxPage, gratkaPage), now)
      ensures newProperties == NewListings(old(rows).Keys, Collected(portals, criteria, otodomPage, olxPage, gratkaPage))
    {
      var allProperties: seq<Listing> := [];
      if PortalName(Otodom) in portals {
        var found := ScrapeOtodom(otodomPage, criteria);
        allProperties := allProperties + found;
      }
      assert allProperties == Enabled(portals, Otodom, otodomPage, criteria);
      if PortalName(Olx) in portals {
        var found := ScrapeOlx(olxPage, criteria);
        allProperties := allProperties + found;
      }
      assert allProperties == Enabled(portals, Otodom, otodomPage, criteria) + Enabled(portals, Olx, olxPage, criteria);
      if PortalName(Gratka) in portals {
        var found := ScrapeGratka(gratkaPage, criteria);
        allProperties := allProperties + found;
      }
      assert allProperties == Collected(portals, criteria, otodomPage, olxPage, gratkaPage);
      newProperties := SaveProperties(allProperties, now);
    }
  }

  /** The reconciliation example: a new listing, then the same url at a new price. */
  lemma PriceChangeScenario(now: Time, later: Time)
    ensures var first := Listing(Olx, "Mieszkanie", 400000, Decimal(50, 0), PricePerM2(400000, Decimal(50, 0)),
                                 City, "u1", "", "");
            var second := first.(price := 410000, pricePerM2 := PricePerM2(410000, Decimal(50, 0)));
            var table := Reconciled(map[], [first], now);
            && NewListings({}, [first]) == [first] && |table| == 1
            && NewListings(table.Keys, [second]) == []
            && Reconciled(table, [second], later)[IdOf(first)].price == 410000
            && Reconciled(table, [second], later)[IdOf(first)].firstSeen == now
  {
    var first := Listing(Olx, "Mieszkanie", 400000, Decimal(50, 0), PricePerM2(400000, Decimal(50, 0)), City, "u1", "", "");
    var second := first.(price := 410000, pricePerM2 := PricePerM2(410000, Decimal(50, 0)));
    assert [first][..0] == [] && [second][..0] == [];
    assert IdOf(second) == IdOf(first);
  }
}
