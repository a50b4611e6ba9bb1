/**
 * The portal adapters: the loops of `scrape_otodom`, `scrape_olx` and `scrape_gratka`
 * once the result page has been fetched and parsed. A page is given as the sequence of
 * its listing blocks, each block as the texts its sub-element lookups found.
 */
module Adapters {
  import opened Wrappers
  import opened Extract

  datatype Portal = Otodom | Olx | Gratka

  /**
   * One listing block of a result page. Each field is the text of the sub-element the
   * adapter looks up, or `None` when the lookup finds nothing: the title (`h3`, `h6` or
   * `h2`), the price element, Otodom's area and location elements, Gratka's parameter
   * list items, and the `href` of the first link.
   */
  datatype Block = Block(
    title: Option<string>,
    priceText: Option<string>,
    areaText: Option<string>,
    locationText: Option<string>,
    params: seq<string>,
    href: Option<string>)

  /** The `criteria` section of the configuration. */
  datatype Criteria = Criteria(minPrice: int, maxPrice: int, minArea: Decimal, maxArea: Decimal)

  /** `round(price / area, 2)`, carried as the price and area it is computed from. */
  datatype PricePerM2 = PricePerM2(price: nat, area: Decimal)

  /** The dictionary an adapter appends for an accepted block. */
  datatype Listing = Listing(
    portal: Portal,
    title: string,
    price: nat,
    area: Decimal,
    pricePerM2: PricePerM2,
    location: string,
    url: string,
    description: string,
    imageUrl: string)

  /** Each adapter looks at `listings[:20]`. */
  const MaxBlocks: nat := 20

  function Origin(portal: Portal): string {
    match portal
    case Otodom => "https://www.otodom.pl"
    case Olx => "https://www.olx.pl"
    case Gratka => "https://gratka.pl"
  }

  /** The location every OLX and Gratka listing is given. */
  const City: string := "Wrocław"

  predicate StartsWith(s: string, prefix: string) {
    |prefix| <= |s| && s[..|prefix|] == prefix
  }

  /** A link that is not already absolute gets the portal's origin put in front of it. */
  function NormalizeUrl(origin: string, href: string): (url: string)
    ensures StartsWith(href, "http") ==> url == href
    ensures !StartsWith(href, "http") ==> url == origin + href
    ensures StartsWith(origin, "http") ==> StartsWith(url, "http")
  {
    if StartsWith(href, "http") then href
    else
      assert StartsWith(origin, "http") ==> (origin + href)[..4] == origin[..4];
      origin + href
  }

  /** Normalizing an already normalized link changes nothing. */
  lemma NormalizeUrlIdempotent(portal: Portal, href: string)
    ensures NormalizeUrl(Origin(portal), NormalizeUrl(Origin(portal), href)) == NormalizeUrl(Origin(portal), href)
  {
    assert StartsWith(Origin(portal), "http");
  }

  /** `'m²' in text` */
  predicate HasSquareMetre(text: string) {
    exists k | 0 <= k < |text| - 1 :: text[k] == 'm' && text[k + 1] == '²'
  }

  /** The index of the first parameter text, from `i` on, that contains `m²`. */
  function FirstSquareMetreParam(params: seq<string>, i: nat): (r: Option<nat>)
    requires i <= |params|
    ensures r.Some? ==> && i <= r.value < |params|
                        && HasSquareMetre(params[r.value])
                        && forall q :: i <= q < r.value ==> !HasSquareMetre(params[q])
    ensures r.None? ==> forall q :: i <= q < |params| ==> !HasSquareMetre(params[q])
    decreases |params| - i
  {
    if i == |params| then None
    else if HasSquareMetre(params[i]) then Some(i)
    else FirstSquareMetreParam(params, i + 1)
  }

  /** Gratka's area: read from the first parameter that contains `m²`, if any. */
  function AreaFromParams(params: seq<string>): Option<Decimal> {
    match FirstSquareMetreParam(params, 0)
    case Some(k) => ExtractArea(params[k])
    case None => None
  }

  /** Where each adapter takes the area text from. */
  function BlockArea(portal: Portal, b: Block): Option<Decimal> {
    match portal
    case Otodom => ExtractArea(b.areaText.GetOr(""))
    case Olx => if b.title.Some? then ExtractArea(b.title.value) else None
    case Gratka => AreaFromParams(b.params)
  }

  /** The block has a title, a price and a link element. */
  predicate Complete(b: Block) {
    b.title.Some? && b.priceText.Some? && b.href.Some?
  }

  /** Python's truth value of an extracted price: present and not zero. */
  predicate PriceTruthy(price: Option<nat>) {
    price.Some? && price.value != 0
  }

  predicate AreaTruthy(area: Option<Decimal>) {
    area.Some? && area.value.mantissa != 0
  }

  /** The inclusive range filter of OLX and Gratka. */
  predicate InCriteria(price: nat, area: Decimal, criteria: Criteria) {
    && criteria.minPrice <= price <= criteria.maxPrice
    && DecimalLe(criteria.minArea, area) && DecimalLe(area, criteria.maxArea)
  }

  /** What every listing an adapter returns satisfies. */
  predicate Acceptable(l: Listing, portal: Portal, criteria: Criteria) {
    && l.portal == portal
    && l.price != 0
    && l.area.mantissa != 0
    && StartsWith(l.url, "http")
    && (portal != Otodom ==> InCriteria(l.price, l.area, criteria))
  }

  /** The listing the adapter of `portal` builds from one block, or `None` when it skips it. */
  function BlockListing(portal: Portal, b: Block, criteria: Criteria): (r: Option<Listing>)
    ensures r.Some? <==> && Complete(b)
                         && PriceTruthy(ExtractPrice(b.priceText.value))
                         && AreaTruthy(BlockArea(portal, b))
                         && (portal != Otodom ==> InCriteria(ExtractPrice(b.priceText.value).value, BlockArea(portal, b).value, criteria))
    ensures r.Some? ==> && Acceptable(r.value, portal, criteria)
                        && r.value.title == b.title.value
                        && Some(r.value.price) == ExtractPrice(b.priceText.value)
                        && Some(r.value.area) == BlockArea(portal, b)
                        && r.value.url == NormalizeUrl(Origin(portal), b.href.value)
  {
    if !Complete(b) then None
    else
      var price := ExtractPrice(b.priceText.value);
      var area := BlockArea(portal, b);
      var url := NormalizeUrl(Origin(portal), b.href.value);
      assert StartsWith(Origin(portal), "http");
      if PriceTruthy(price) && AreaTruthy(area) && (portal != Otodom ==> InCriteria(price.value, area.value, criteria)) then
        var location := if portal == Otodom then b.locationText.GetOr("") else City;
        Some(Listing(portal, b.title.value, price.value, area.value, PricePerM2(price.value, area.value), location, url, "", ""))
      else None
  }

  /** `f` applied to each element of `xs` in order, keeping the results that are present. */
  function FilterMap<A, B>(f: A -> Option<B>, xs: seq<A>): seq<B>
    decreases |xs|
  {
    if xs == [] then []
    else
      FilterMap(f, xs[..|xs| - 1])
      + match f(xs[|xs| - 1])
        case Some(y) => [y]
        case None => []
  }

  lemma {:induction false} FilterMapLength<A, B>(f: A -> Option<B>, xs: seq<A>)
    ensures |FilterMap(f, xs)| <= |xs|
    decreases |xs|
  {
    if xs != [] {
      FilterMapLength(f, xs[..|xs| - 1]);
    }
  }

  lemma {:induction false} FilterMapAppend<A, B>(f: A -> Option<B>, xs: seq<A>, ys: seq<A>)
    ensures FilterMap(f, xs + ys) == FilterMap(f, xs) + FilterMap(f, ys)
    decreases |ys|
  {
    if ys == [] {
      assert xs + ys == xs;
    } else {
      var ys' := ys[..|ys| - 1];
      FilterMapAppend(f, xs, ys');
      assert (xs + ys)[..|xs + ys| - 1] == xs + ys';
    }
  }

  lemma {:induction false} FilterMapMembers<A, B>(f: A -> Option<B>, xs: seq<A>, y: B)
    ensures y in FilterMap(f, xs) <==> exists k :: 0 <= k < |xs| && f(xs[k]) == Some(y)
    decreases |xs|
  {
    if xs != [] {
      var n := |xs| - 1;
      var init := xs[..n];
      var last := if f(xs[n]).Some? then [f(xs[n]).value] else [];
      assert FilterMap(f, xs) == FilterMap(f, init) + last;
      FilterMapMembers(f, init, y);
      if y in FilterMap(f, xs) {
        if y in FilterMap(f, init) {
          var k :| 0 <= k < |init| && f(init[k]) == Some(y);
          assert xs[k] == init[k];
        } else {
          assert f(xs[n]) == Some(y);
        }
      }
      if exists k :: 0 <= k < |xs| && f(xs[k]) == Some(y) {
        var k :| 0 <= k < |xs| && f(xs[k]) == Some(y);
        if k < n {
          assert init[k] == xs[k];
        } else {
          assert y in last;
        }
      }
    }
  }

  /** One more element of the input: its result, if present, is appended. */
  lemma FilterMapStep<A, B>(f: A -> Option<B>, xs: seq<A>, i: nat)
    requires i < |xs|
    ensures FilterMap(f, xs[..i + 1]) == FilterMap(f, xs[..i]) + if f(xs[i]).Some? then [f(xs[i]).value] else []
  {
    assert xs[..i + 1][..i] == xs[..i];
  }

  lemma FilterMapSkip<A, B>(f: A -> Option<B>, xs: seq<A>, x: A, ys: seq<A>)
    requires f(x) == None
    ensures FilterMap(f, xs + [x] + ys) == FilterMap(f, xs) + FilterMap(f, ys)
  {
    FilterMapAppend(f, xs + [x], ys);
    FilterMapAppend(f, xs, [x]);
    assert FilterMap(f, [x]) == [] by {
      assert [x][..0] == [];
      assert FilterMap(f, [x]) == FilterMap(f, [x][..0]) + [];
    }
    assert FilterMap(f, xs + [x]) == FilterMap(f, xs);
  }

  /** The per-block step of the adapter of `portal`. */
  function Builder(portal: Portal, criteria: Criteria): Block -> Option<Listing> {
    b => BlockListing(portal, b, criteria)
  }

  function Min(x: nat, y: nat): nat {
    if x < y then x else y
  }

  /** The listings an adapter returns for a page whose listing blocks are `blocks`. */
  function Candidates(portal: Portal, blocks: seq<Block>, criteria: Criteria): seq<Listing> {
    FilterMap(Builder(portal, criteria), blocks[..Min(|blocks|, MaxBlocks)])
  }

  // ---------------------------------------------------------------------------
  // Properties of the adapters' output
  // ---------------------------------------------------------------------------

  /** At most 20 listings per page, and never more than it has blocks. */
  lemma CandidatesAtMostMax(portal: Portal, blocks: seq<Block>, criteria: Criteria)
    ensures |Candidates(portal, blocks, criteria)| <= MaxBlocks
    ensures |Candidates(portal, blocks, criteria)| <= |blocks|
  {
    FilterMapLength(Builder(portal, criteria), blocks[..Min(|blocks|, MaxBlocks)]);
  }

  /** Blocks after the twentieth are never looked at. */
  lemma CandidatesIgnoreLaterBlocks(portal: Portal, blocks: seq<Block>, more: seq<Block>, criteria: Criteria)
    requires |blocks| >= MaxBlocks
    ensures Candidates(portal, blocks + more, criteria) == Candidates(portal, blocks, criteria)
  {
    assert (blocks + more)[..MaxBlocks] == blocks[..MaxBlocks];
  }

  /** A block without a title, price or link element is skipped and the scan goes on with the
      blocks after it. */
  lemma CandidatesSkipIncomplete(portal: Portal, xs: seq<Block>, b: Block, ys: seq<Block>, criteria: Criteria)
    requires !Complete(b)
    requires |xs| + 1 + |ys| <= MaxBlocks
    ensures Candidates(portal, xs + [b] + ys, criteria) == Candidates(portal, xs, criteria) + Candidates(portal, ys, criteria)
  {
    var all := xs + [b] + ys;
    assert all[..Min(|all|, MaxBlocks)] == all;
    assert xs[..Min(|xs|, MaxBlocks)] == xs;
    assert ys[..Min(|ys|, MaxBlocks)] == ys;
    assert BlockListing(portal, b, criteria) == None;
    FilterMapSkip(Builder(portal, criteria), xs, b, ys);
  }

  /** Every listing an adapter returns has a non-zero price and area and an absolute link, and
      the OLX and Gratka listings lie within the search criteria. */
  lemma CandidatesAcceptable(portal: Portal, blocks: seq<Block>, criteria: Criteria)
    ensures forall l :: l in Candidates(portal, blocks, criteria) ==> Acceptable(l, portal, criteria)
  {
    var firsts := blocks[..Min(|blocks|, MaxBlocks)];
    forall l | l in Candidates(portal, blocks, criteria) ensures Acceptable(l, portal, criteria) {
      FilterMapMembers(Builder(portal, criteria), firsts, l);
    }
  }

  // ---------------------------------------------------------------------------
  // The adapters' loops
  // ---------------------------------------------------------------------------

  /**
   * The loop of `scrape_otodom` over the listing blocks. It is never reached in the
   * program as written (see ScrapeOtodom). The search criteria only shape the request
   * URL, so the loop does not consult them.
   */
  method OtodomCandidates(listings: seq<Block>, criteria: Criteria) returns (properties: seq<Listing>)
    ensures properties == Candidates(Otodom, listings, criteria)
  {
    properties := [];
    var n := Min(|listings|, MaxBlocks);
    for i := 0 to n
      invariant properties == FilterMap(Builder(Otodom, criteria), listings[..i])
    {
      FilterMapStep(Builder(Otodom, criteria), listings, i);
      var listing := listings[i];
      ghost var built := BlockListing(Otodom, listing, criteria);
      assert Builder(Otodom, criteria)(listing) == built;
      if listing.title.None? || listing.priceText.None? || listing.href.None? {
        continue;
      }
      var title := listing.title.value;
      var price := ExtractPrice(listing.priceText.value);
      var area := ExtractArea(if listing.areaText.Some? then listing.areaText.value else "");
      var url := listing.href.value;
      var location := if listing.locationText.Some? then listing.locationText.value else "";
      if !StartsWith(url, "http") {
        url := Origin(Otodom) + url;
      }
      if price.Some? && price.value != 0 && area.Some? && area.value.mantissa != 0 {
        properties := properties + [Listing(Otodom, title, price.value, area.value, PricePerM2(price.value, area.value), location, url, "", "")];
      }
    }
  }

  /** The loop of `scrape_olx`: the area is read from the title. */
  method OlxCandidates(listings: seq<Block>, criteria: Criteria) returns (properties: seq<Listing>)
    ensures properties == Candidates(Olx, listings, criteria)
  {
    properties := [];
    var n := Min(|listings|, MaxBlocks);
    for i := 0 to n
      invariant properties == FilterMap(Builder(Olx, criteria), listings[..i])
    {
      FilterMapStep(Builder(Olx, criteria), listings, i);
      var listing := listings[i];
      ghost var built := BlockListing(Olx, listing, criteria);
      assert Builder(Olx, criteria)(listing) == built;
      if listing.title.None? || listing.priceText.None? || listing.href.None? {
        continue;
      }
      var title := listing.title.value;
      var price := ExtractPrice(listing.priceText.value);
      var url := listing.href.value;
      var area := ExtractArea(title);
      if !StartsWith(url, "http") {
        url := Origin(Olx) + url;
      }
      if price.Some? && price.value != 0 && criteria.minPrice <= price.value <= criteria.maxPrice {
        if area.Some? && area.value.mantissa != 0 && DecimalLe(criteria.minArea, area.value) && DecimalLe(area.value, criteria.maxArea) {
          properties := properties + [Listing(Olx, title, price.value, area.value, PricePerM2(price.value, area.value), City, url, "", "")];
        }
      }
    }
  }

  /** The parameter scan of `scrape_gratka`: the area of the first parameter containing `m²`. */
  method GratkaArea(params: seq<string>) returns (area: Option<Decimal>)
    ensures area == AreaFromParams(params)
  {
    area := None;
    for k := 0 to |params|
      invariant forall q :: 0 <= q < k ==> !HasSquareMetre(params[q])
    {
      if HasSquareMetre(params[k]) {
        area := ExtractArea(params[k]);
        assert FirstSquareMetreParam(params, 0) == Some(k);
        return;
      }
    }
    assert FirstSquareMetreParam(params, 0) == None;
  }

  /** The loop of `scrape_gratka`. */
  method GratkaCandidates(listings: seq<Block>, criteria: Criteria) returns (properties: seq<Listing>)
    ensures properties == Candidates(Gratka, listings, criteria)
  {
    properties := [];
    var n := Min(|listings|, MaxBlocks);
    for i := 0 to n
      invariant properties == FilterMap(Builder(Gratka, criteria), listings[..i])
    {
      FilterMapStep(Builder(Gratka, criteria), listings, i);
      var listing := listings[i];
      ghost var built := BlockListing(Gratka, listing, criteria);
      assert Builder(Gratka, criteria)(listing) == built;
      if listing.title.None? || listing.priceText.None? || listing.href.None? {
        continue;
      }
      var title := listing.title.value;
      var price := ExtractPrice(listing.priceText.value);
      var url := listing.href.value;
      var area := GratkaArea(listing.params);
      if !StartsWith(url, "http") {
        url := Origin(Gratka) + url;
      }
      if price.Some? && price.value != 0 && criteria.minPrice <= price.value <= criteria.maxPrice {
        if area.Some? && area.value.mantissa != 0 && DecimalLe(criteria.minArea, area.value) && DecimalLe(area.value, criteria.maxArea) {
          properties := properties + [Listing(Gratka, title, price.value, area.value, PricePerM2(price.value, area.value), City, url, "", "")];
        }
      }
    }
  }

  // ---------------------------------------------------------------------------
  // The scrapers: fetch, then the loop
  // ---------------------------------------------------------------------------

  /**
   * What `scrape_<portal>` returns when the request gives `page`: the listing blocks of a
   * page answered with status 200, or `None` when the request failed or the status was
   * not 200 (the exception handler and the status check both leave the list empty).
   * `scrape_otodom` always returns the empty list (see ScrapeOtodom).
   */
  function Scraped(portal: Portal, page: Option<seq<Block>>, criteria: Criteria): seq<Listing> {
    if portal == Otodom || page.None? then [] else Candidates(portal, page.value, criteria)
  }

  /**
   * `scrape_otodom` as written: the debug line right after the request reads `url`, a local
   * variable first assigned inside the loop, so every call raises `UnboundLocalError`; the
   * handler around the whole body catches it and the method returns the empty list. The
   * loop itself is OtodomCandidates.
   */
  method ScrapeOtodom(page: Option<seq<Block>>, criteria: Criteria) returns (properties: seq<Listing>)
    ensures properties == Scraped(Otodom, page, criteria)
  {
    properties := [];
  }

  method ScrapeOlx(page: Option<seq<Block>>, criteria: Criteria) returns (properties: seq<Listing>)
    ensures properties == Scraped(Olx, page, criteria)
  {
    properties := [];
    if page.Some? {
      properties := OlxCandidates(page.value, criteria);
    }
  }

  method ScrapeGratka(page: Option<seq<Block>>, criteria: Criteria) returns (properties: seq<Listing>)
    ensures properties == Scraped(Gratka, page, criteria)
  {
    properties := [];
    if page.Some? {
      properties := GratkaCandidates(page.value, criteria);
    }
  }

  /** The Otodom scraper returns nothing even for a page whose loop would keep a listing. */
  lemma OtodomScraperLosesListings(blocks: seq<Block>, k: nat, criteria: Criteria)
    requires k < |blocks| && k < MaxBlocks
    requires BlockListing(Otodom, blocks[k], criteria).Some?
    ensures Candidates(Otodom, blocks, criteria) != []
    ensures Scraped(Otodom, Some(blocks), criteria) == []
  {
    var firsts := blocks[..Min(|blocks|, MaxBlocks)];
    assert firsts[k] == blocks[k];
    FilterMapMembers(Builder(Otodom, criteria), firsts, BlockListing(Otodom, blocks[k], criteria).value);
  }
}
