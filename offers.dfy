/**
 The post-fetch half of `fetchCityOffers`: every raw shopping-result record becomes an offer
 or is dropped, the offers are sorted by ascending price (JavaScript's sort is stable), and
 the city result is the cheapest offer plus the first five. Also the search parameters the
 request carries for a product and a city.
 */
module Offers {
  import opened JsRuntime
  import opened Cities
  import opened PriceParser

  /** One record of `shopping_results`, field by field as the code reads it. */
  datatype Row = Row(
    extractedPrice: JsValue,  // extracted_price
    price: TextValue,         // price (display text)
    source: JsValue,
    store: JsValue,
    productLink: JsValue,     // product_link
    link: JsValue,
    delivery: JsValue)

  datatype Offer = Offer(price: real, merchant: JsValue, url: JsValue, shipping: JsValue)

  /** What `fetchCityOffers` returns when at least one offer was kept. */
  datatype CityResult = CityResult(cheapest: Offer, offers: seq<Offer>, time: string, mismatch: bool)

  /** The part of the HTTP response the code reads: `res.ok` and `json?.shopping_results`
      (`None` when the body has no such field or is null). */
  datatype Response = Response(ok: bool, shoppingResults: Option<seq<Row>>)

  /** The query parameters of one search request. */
  datatype Query = Query(
    engine: string, q: string, location: string, hl: string, gl: string,
    googleDomain: string, apiKey: string)

  const MERCHANT_PLACEHOLDER: JsValue := Str("—")
  const URL_PLACEHOLDER: JsValue := Str("#")
  const MAX_OFFERS: nat := 5

  function QueryFor(productName: string, cityCode: string, apiKey: string): (q: Query)
    ensures q.q == productName && q.apiKey == apiKey
    ensures q.location == Location(cityCode)
    ensures q.engine == "google_shopping" && q.hl == "pt" && q.gl == "br"
    ensures q.googleDomain == "google.com.br"
  {
    Query("google_shopping", productName, Location(cityCode), "pt", "br", "google.com.br", apiKey)
  }

  /** `r.extracted_price ?? parseBRLString(r.price)`, then the `typeof price === 'number'` test:
      a number when that test passes, `None` when the row is dropped. */
  function RowPrice(r: Row): (p: Option<real>)
    ensures r.extractedPrice.Num? ==> p == Some(r.extractedPrice.x)
    ensures !IsNullish(r.extractedPrice) && !r.extractedPrice.Num? ==> p.None?
    ensures IsNullish(r.extractedPrice) ==> p == ParseBRLString(r.price)
  {
    if !IsNullish(r.extractedPrice) then
      (if r.extractedPrice.Num? then Some(r.extractedPrice.x) else None)
    else ParseBRLString(r.price)
  }

  /** The `rows.map(...)` callback, with `null` as `None`. */
  function RowToOffer(r: Row): (o: Option<Offer>)
    ensures o.Some? <==> RowPrice(r).Some?
    ensures o.Some? ==> o.value.price == RowPrice(r).value && Truthy(o.value.merchant) && Truthy(o.value.url)
  {
    match RowPrice(r)
    case None => None
    case Some(p) =>
      Some(Offer(p,
        Or(r.source, Or(r.store, MERCHANT_PLACEHOLDER)),
        Or(r.productLink, Or(r.link, URL_PLACEHOLDER)),
        Or(r.delivery, Str(""))))
  }

  /** `xs.map(f).filter(Boolean)` for a callback `f` that returns an object (always truthy) or
      `null` (`None`): exactly the nulls go, and the rest keep their order. */
  function MapKeep<A, B>(xs: seq<A>, f: A -> Option<B>): (r: seq<B>)
    ensures |r| <= |xs|
  {
    if xs == [] then []
    else
      var rest := MapKeep(xs[1..], f);
      match f(xs[0])
      case None => rest
      case Some(y) => [y] + rest
  }

  /** A value is kept exactly when some element maps to it. */
  lemma {:induction false} MapKeepMembers<A, B(!new)>(xs: seq<A>, f: A -> Option<B>)
    ensures forall y :: y in MapKeep(xs, f) <==> exists i :: 0 <= i < |xs| && f(xs[i]) == Some(y)
  {
    if xs != [] {
      MapKeepMembers(xs[1..], f);
      assert forall i :: 0 <= i < |xs| - 1 ==> xs[1..][i] == xs[i + 1];
    }
  }

  /** What is kept of a concatenation is what is kept of the first part, then what is kept of
      the second. */
  lemma {:induction false} MapKeepAppend<A, B>(a: seq<A>, b: seq<A>, f: A -> Option<B>)
    ensures MapKeep(a + b, f) == MapKeep(a, f) + MapKeep(b, f)
  {
    if a == [] {
      assert a + b == b;
    } else {
      assert (a + b)[0] == a[0] && (a + b)[1..] == a[1..] + b;
      MapKeepAppend(a[1..], b, f);
    }
  }

  /** Kept element `i` comes from some element `xi`, and what is kept of the elements before
      `xi` is exactly what is kept before `i`. */
  lemma {:induction false} MapKeepSource<A, B>(xs: seq<A>, f: A -> Option<B>, i: nat) returns (xi: nat)
    requires i < |MapKeep(xs, f)|
    ensures xi < |xs| && f(xs[xi]) == Some(MapKeep(xs, f)[i])
    ensures MapKeep(xs[..xi], f) == MapKeep(xs, f)[..i]
  {
    var rest := MapKeep(xs[1..], f);
    match f(xs[0])
    case None =>
      var xj := MapKeepSource(xs[1..], f, i);
      xi := xj + 1;
      assert xs[..xi][0] == xs[0] && xs[..xi][1..] == xs[1..][..xj];
    case Some(y) =>
      if i == 0 {
        xi := 0;
      } else {
        var xj := MapKeepSource(xs[1..], f, i - 1);
        xi := xj + 1;
        assert xs[..xi][0] == xs[0] && xs[..xi][1..] == xs[1..][..xj];
        assert MapKeep(xs, f)[..i] == [y] + rest[..i - 1];
      }
  }

  /** `rows.map(...).filter(Boolean)` */
  function KeptOffers(rows: seq<Row>): (r: seq<Offer>)
    ensures |r| <= |rows|
    ensures forall o :: o in r <==> exists i :: 0 <= i < |rows| && RowToOffer(rows[i]) == Some(o)
  {
    MapKeepMembers(rows, RowToOffer);
    MapKeep(rows, RowToOffer)
  }

  /** `filter` keeps the order of the rows: the offers of a concatenation are the offers of
      the first part, then those of the second. */
  lemma {:induction false} KeptOffersAppend(a: seq<Row>, b: seq<Row>)
    ensures KeptOffers(a + b) == KeptOffers(a) + KeptOffers(b)
  {
    MapKeepAppend(a, b, RowToOffer);
  }

  /** One row gives its offer, or nothing. */
  lemma {:induction false} KeptOffersOne(r: Row)
    ensures KeptOffers([r]) == (if RowToOffer(r).Some? then [RowToOffer(r).value] else [])
  {
    assert [r][1..] == [];
  }

  // ---------------------------------------------------------------------------
  // `.sort((a, b) => a.price - b.price)`: a stable sort by ascending price.

  predicate SortedByPrice(s: seq<Offer>) {
    forall i, j :: 0 <= i < j < |s| ==> s[i].price <= s[j].price
  }

  /** Puts `o` before the first offer that is not cheaper than it. */
  function Insert(o: Offer, s: seq<Offer>): (r: seq<Offer>)
    ensures |r| == |s| + 1
  {
    if s == [] || o.price <= s[0].price then [o] + s
    else [s[0]] + Insert(o, s[1..])
  }

  function SortByPrice(s: seq<Offer>): (r: seq<Offer>)
    ensures |r| == |s|
  {
    if s == [] then [] else Insert(s[0], SortByPrice(s[1..]))
  }

  lemma {:induction false} InsertPermutes(o: Offer, s: seq<Offer>)
    ensures multiset(Insert(o, s)) == multiset(s) + multiset{o}
  {
    if s != [] && o.price > s[0].price {
      InsertPermutes(o, s[1..]);
      assert s == [s[0]] + s[1..];
    }
  }

  /** Every offer of `Insert(o, s)` costs at least `lo` when `o` and every offer of `s` do. */
  lemma {:induction false} InsertBound(o: Offer, s: seq<Offer>, lo: real)
    requires lo <= o.price && forall k :: 0 <= k < |s| ==> lo <= s[k].price
    ensures forall k :: 0 <= k < |Insert(o, s)| ==> lo <= Insert(o, s)[k].price
  {
    if s != [] && o.price > s[0].price {
      InsertBound(o, s[1..], lo);
      var rest := Insert(o, s[1..]);
      assert forall k :: 0 < k < |s| + 1 ==> Insert(o, s)[k] == rest[k - 1];
    }
  }

  lemma {:induction false} InsertSorted(o: Offer, s: seq<Offer>)
    requires SortedByPrice(s)
    ensures SortedByPrice(Insert(o, s))
  {
    if s != [] && o.price > s[0].price {
      var rest := Insert(o, s[1..]);
      InsertSorted(o, s[1..]);
      InsertBound(o, s[1..], s[0].price);
      var r := Insert(o, s);
      assert r == [s[0]] + rest;
      forall i, j | 0 <= i < j < |r| ensures r[i].price <= r[j].price {
        assert r[j] == rest[j - 1];
        if i > 0 {
          assert r[i] == rest[i - 1];
        }
      }
    }
  }

  /** The sort's result is ordered by ascending price and holds the same offers. */
  lemma {:induction false} SortSortsAndPermutes(s: seq<Offer>)
    ensures SortedByPrice(SortByPrice(s))
    ensures multiset(SortByPrice(s)) == multiset(s)
  {
    SortSorts(s);
    SortPermutes(s);
  }

  lemma {:induction false} SortSorts(s: seq<Offer>)
    ensures SortedByPrice(SortByPrice(s))
  {
    if s != [] {
      SortSorts(s[1..]);
      InsertSorted(s[0], SortByPrice(s[1..]));
    }
  }

  lemma {:induction false} SortPermutes(s: seq<Offer>)
    ensures multiset(SortByPrice(s)) == multiset(s)
  {
    if s != [] {
      SortPermutes(s[1..]);
      InsertPermutes(s[0], SortByPrice(s[1..]));
      assert s == [s[0]] + s[1..];
    }
  }

  /** The offers of `s` that cost exactly `p`, in order. */
  function AtPrice(s: seq<Offer>, p: real): seq<Offer> {
    if s == [] then [] else (if s[0].price == p then [s[0]] else []) + AtPrice(s[1..], p)
  }

  lemma {:induction false} InsertStable(o: Offer, s: seq<Offer>, p: real)
    ensures AtPrice(Insert(o, s), p) == (if o.price == p then [o] else []) + AtPrice(s, p)
  {
    var mine: seq<Offer> := if o.price == p then [o] else [];
    if s == [] || o.price <= s[0].price {
      var r := [o] + s;
      assert r[0] == o && r[1..] == s;
      assert AtPrice(r, p) == mine + AtPrice(s, p);
    } else {
      var rest := Insert(o, s[1..]);
      var r := [s[0]] + rest;
      assert r[0] == s[0] && r[1..] == rest;
      var first: seq<Offer> := if s[0].price == p then [s[0]] else [];
      InsertStable(o, s[1..], p);
      assert AtPrice(rest, p) == mine + AtPrice(s[1..], p);
      assert AtPrice(r, p) == first + (mine + AtPrice(s[1..], p));
      assert AtPrice(s, p) == first + AtPrice(s[1..], p);
      assert first == [] || mine == [];
      if first == [] {
        assert first + (mine + AtPrice(s[1..], p)) == mine + AtPrice(s[1..], p);
        assert AtPrice(s, p) == AtPrice(s[1..], p);
      } else {
        assert first + (mine + AtPrice(s[1..], p)) == first + AtPrice(s[1..], p);
      }
    }
  }

  /** Stability: offers with equal prices keep their input order. Together with
      `SortedByPrice` this pins the sorted sequence down completely. */
  lemma {:induction false} SortStable(s: seq<Offer>, p: real)
    ensures AtPrice(SortByPrice(s), p) == AtPrice(s, p)
  {
    if s != [] {
      SortStable(s[1..], p);
      InsertStable(s[0], SortByPrice(s[1..]), p);
    }
  }

  /** The first offer at price `p` is the first such in the sequence. */
  lemma {:induction false} FirstAtPrice(s: seq<Offer>, p: real)
    requires AtPrice(s, p) != []
    ensures exists i :: (0 <= i < |s| && s[i] == AtPrice(s, p)[0] && s[i].price == p
      && (forall j :: 0 <= j < i ==> s[j].price != p))
  {
    if s[0].price != p {
      FirstAtPrice(s[1..], p);
      var i :| 0 <= i < |s[1..]| && s[1..][i] == AtPrice(s[1..], p)[0] && s[1..][i].price == p
        && (forall j :: 0 <= j < i ==> s[1..][j].price != p);
      assert s[i + 1] == AtPrice(s, p)[0];
      assert forall j :: 0 < j < i + 1 ==> s[j] == s[1..][j - 1];
    }
  }

  // ---------------------------------------------------------------------------
  // The city result.

  function Min(a: int, b: int): int {
    if a <= b then a else b
  }

  /** `json?.shopping_results ?? []` */
  function ResultRows(res: Response): seq<Row> {
    if res.shoppingResults.Some? then res.shoppingResults.value else []
  }

  /** From `if (!res.ok) return null` on: `None` for the function's `null`. `time` is what
      `nowTime()` returned. */
  function CityOffers(res: Response, time: string): (r: Option<CityResult>)
    ensures r.None? <==> !res.ok || KeptOffers(ResultRows(res)) == []
    ensures r.Some? ==>
      && 1 <= |r.value.offers| <= MAX_OFFERS && r.value.cheapest == r.value.offers[0]
      && r.value.time == time && !r.value.mismatch
  {
    if !res.ok then None
    else
      var offers := SortByPrice(KeptOffers(ResultRows(res)));
      if |offers| == 0 then None
      else Some(CityResult(offers[0], offers[..Min(MAX_OFFERS, |offers|)], time, false))
  }

  /** A city result holds one to five offers in ascending price, the first of them `cheapest`,
      and as many as there are kept offers up to five. */
  lemma {:induction false} CityOffersShape(res: Response, time: string)
    requires CityOffers(res, time).Some?
    ensures var r := CityOffers(res, time).value;
      && |r.offers| == Min(MAX_OFFERS, |KeptOffers(ResultRows(res))|)
      && 1 <= |r.offers| <= MAX_OFFERS
      && SortedByPrice(r.offers)
      && r.cheapest == r.offers[0]
      && r.time == time && !r.mismatch
  {
    SortSortsAndPermutes(KeptOffers(ResultRows(res)));
  }

  /** The city result is the head and the first five of the sorted kept offers. */
  lemma {:induction false} CityOffersValue(res: Response, time: string)
    requires CityOffers(res, time).Some?
    ensures var sorted := SortByPrice(KeptOffers(ResultRows(res)));
      && sorted != []
      && CityOffers(res, time).value.cheapest == sorted[0]
      && CityOffers(res, time).value.offers == sorted[..Min(MAX_OFFERS, |sorted|)]
  {
  }

  /** `cheapest` is a kept offer and no kept offer is cheaper, among the ones past the first
      five as well. */
  lemma {:induction false} CheapestIsMinimum(res: Response, time: string)
    requires CityOffers(res, time).Some?
    ensures var kept := KeptOffers(ResultRows(res));
      var c := CityOffers(res, time).value.cheapest;
      c in kept && forall o :: o in kept ==> c.price <= o.price
  {
    CityOffersValue(res, time);
    SortedHeadIsMinimum(KeptOffers(ResultRows(res)));
  }

  lemma {:induction false} SortedHeadIsMinimum(kept: seq<Offer>)
    requires kept != []
    ensures var c := SortByPrice(kept)[0];
      c in kept && forall o :: o in kept ==> c.price <= o.price
  {
    var sorted := SortByPrice(kept);
    SortSortsAndPermutes(kept);
    assert sorted[0] in multiset(sorted);
    forall o | o in kept ensures sorted[0].price <= o.price {
      assert o in multiset(sorted);
      var j :| 0 <= j < |sorted| && sorted[j] == o;
    }
  }

  /** The listed offers are kept offers, and every kept offer left out of the list costs at
      least as much as each listed one: the list is a top five. */
  lemma {:induction false} OffersAreTopFive(res: Response, time: string)
    requires CityOffers(res, time).Some?
    ensures var kept := KeptOffers(ResultRows(res));
      var offers := CityOffers(res, time).value.offers;
      && multiset(offers) <= multiset(kept)
      && forall o, x :: o in multiset(kept) - multiset(offers) && x in offers ==> x.price <= o.price
  {
    var kept := KeptOffers(ResultRows(res));
    CityOffersValue(res, time);
    SortSortsAndPermutes(kept);
    SortedPrefixIsTop(SortByPrice(kept), Min(MAX_OFFERS, |kept|));
  }

  lemma {:induction false} SortedPrefixIsTop(sorted: seq<Offer>, n: nat)
    requires SortedByPrice(sorted) && n <= |sorted|
    ensures multiset(sorted[..n]) <= multiset(sorted)
    ensures forall o, x :: o in multiset(sorted) - multiset(sorted[..n]) && x in sorted[..n] ==> x.price <= o.price
  {
    var offers, tail := sorted[..n], sorted[n..];
    assert sorted == offers + tail;
    assert multiset(sorted) == multiset(offers) + multiset(tail);
    forall o, x | o in multiset(sorted) - multiset(offers) && x in offers ensures x.price <= o.price {
      assert multiset(sorted)[o] == multiset(offers)[o] + multiset(tail)[o];
      assert multiset(tail)[o] > 0;
      assert o in tail;
      var i :| 0 <= i < |offers| && offers[i] == x;
      var j :| 0 <= j < |tail| && tail[j] == o;
      assert sorted[i] == x && sorted[n + j] == o;
    }
  }

  /** Among equally cheap offers, `cheapest` is the one whose row came first: it comes from a
      row of the response, no row gives a cheaper offer, and every row before it that gives an
      offer gives a dearer one. */
  lemma {:induction false} CheapestIsFirstOfTheCheapest(res: Response, time: string)
    requires CityOffers(res, time).Some?
    ensures var rows := ResultRows(res);
      var c := CityOffers(res, time).value.cheapest;
      exists ri :: (0 <= ri < |rows| && RowToOffer(rows[ri]) == Some(c)
        && (forall j :: 0 <= j < |rows| && RowToOffer(rows[j]).Some? ==> c.price <= RowToOffer(rows[j]).value.price)
        && (forall j :: 0 <= j < ri && RowToOffer(rows[j]).Some? ==> RowToOffer(rows[j]).value.price > c.price))
  {
    var rows := ResultRows(res);
    var kept := KeptOffers(rows);
    CityOffersValue(res, time);
    var i := SortedHeadIsFirstCheapest(kept);
    var ri := FirstCheapestSource(rows, RowToOffer, i);
  }

  /** The source of the first of the cheapest kept offers: no element gives a cheaper offer,
      and every element before it that gives one gives a dearer one. */
  lemma {:induction false} FirstCheapestSource<A>(xs: seq<A>, f: A -> Option<Offer>, i: nat) returns (xi: nat)
    requires var kept := MapKeep(xs, f);
      && i < |kept|
      && (forall j :: 0 <= j < |kept| ==> kept[i].price <= kept[j].price)
      && (forall j :: 0 <= j < i ==> kept[j].price > kept[i].price)
    ensures var c := MapKeep(xs, f)[i];
      && xi < |xs| && f(xs[xi]) == Some(c)
      && (forall j :: 0 <= j < |xs| && f(xs[j]).Some? ==> c.price <= f(xs[j]).value.price)
      && (forall j :: 0 <= j < xi && f(xs[j]).Some? ==> f(xs[j]).value.price > c.price)
  {
    var kept := MapKeep(xs, f);
    var c := kept[i];
    xi := MapKeepSource(xs, f, i);
    MapKeepMembers(xs, f);
    MapKeepMembers(xs[..xi], f);
    forall j | 0 <= j < |xs| && f(xs[j]).Some? ensures c.price <= f(xs[j]).value.price {
      var o := f(xs[j]).value;
      assert o in kept;
      var k :| 0 <= k < |kept| && kept[k] == o;
    }
    forall j | 0 <= j < xi && f(xs[j]).Some? ensures f(xs[j]).value.price > c.price {
      var o := f(xs[j]).value;
      assert xs[..xi][j] == xs[j];
      assert o in MapKeep(xs[..xi], f);
      var k :| 0 <= k < i && kept[..i][k] == o;
      assert kept[k] == o;
    }
  }

  /** The head of the sorted offers is the first of the cheapest ones, at index `i`. */
  lemma {:induction false} SortedHeadIsFirstCheapest(kept: seq<Offer>) returns (i: nat)
    requires kept != []
    ensures i < |kept| && kept[i] == SortByPrice(kept)[0]
    ensures forall j :: 0 <= j < |kept| ==> kept[i].price <= kept[j].price
    ensures forall j :: 0 <= j < i ==> kept[j].price > kept[i].price
  {
    var sorted := SortByPrice(kept);
    var c := sorted[0];
    SortStable(kept, c.price);
    assert AtPrice(sorted, c.price) == [c] + AtPrice(sorted[1..], c.price);
    FirstAtPrice(kept, c.price);
    SortedHeadIsMinimum(kept);
    i :| 0 <= i < |kept| && kept[i] == AtPrice(kept, c.price)[0] && kept[i].price == c.price
      && (forall j :: 0 <= j < i ==> kept[j].price != c.price);
    assert kept[i] == c;
    forall j | 0 <= j < |kept| ensures kept[i].price <= kept[j].price {
      assert kept[j] in kept;
    }
  }

  // ---------------------------------------------------------------------------
  // What one row turns into.

  /** A row is kept exactly when its price is a number. The merchant is the first truthy one of
      `source` and `store`, the link the first truthy one of `product_link` and `link`, each
      falling back to a truthy placeholder; the shipping text is the truthy delivery text or ''. */
  lemma {:induction false} RowToOfferFields(r: Row)
    ensures RowToOffer(r).Some? <==> RowPrice(r).Some?
    ensures RowToOffer(r).Some? ==>
      && RowToOffer(r).value.price == RowPrice(r).value
      && Truthy(RowToOffer(r).value.merchant)
      && Truthy(RowToOffer(r).value.url)
      && RowToOffer(r).value.merchant
           == (if Truthy(r.source) then r.source else if Truthy(r.store) then r.store else MERCHANT_PLACEHOLDER)
      && RowToOffer(r).value.url
           == (if Truthy(r.productLink) then r.productLink else if Truthy(r.link) then r.link else URL_PLACEHOLDER)
      && RowToOffer(r).value.shipping == (if Truthy(r.delivery) then r.delivery else Str(""))
  {
  }

  /** A numeric `extracted_price` is the price, whatever the display text says. */
  lemma {:induction false} ExtractedPriceWins(r: Row)
    requires r.extractedPrice.Num?
    ensures RowToOffer(r).Some? && RowToOffer(r).value.price == r.extractedPrice.x
  {
  }

  /** `??` only falls through for null or undefined: a non-numeric `extracted_price` (a string,
      say) drops the row even when the display text would parse. */
  lemma {:induction false} NonNumericExtractedPriceDrops(r: Row)
    requires !IsNullish(r.extractedPrice) && !r.extractedPrice.Num?
    ensures RowToOffer(r) == None
  {
  }

  /** A row with neither price field reads `parseBRLString(undefined)`, which is 0: it becomes a
      free offer rather than being dropped. */
  lemma {:induction false} PricelessRowIsFree(r: Row)
    requires IsNullish(r.extractedPrice) && IsNullish(r.price)
    ensures RowToOffer(r).Some? && RowToOffer(r).value.price == 0.0
  {
    MissingPriceReadsAsZero();
  }

  /** The two-row example: a structured 4500 from "Loja A" and a display "R$ 4.200,00" from
      "Loja B" give Loja B as the cheapest and the order [Loja B, Loja A]. */
  lemma {:induction false} TwoStoresExample(text: string, res: Response)
    requires text == "R$ 4.200,00"
    requires res == Response(true, Some([
      Row(Num(4500.0), Undefined, Str("Loja A"), Undefined, Undefined, Undefined, Undefined),
      Row(Undefined, Str(text), Undefined, Str("Loja B"), Undefined, Undefined, Undefined)]))
    ensures CityOffers(res, "10:00").Some?
    ensures CityOffers(res, "10:00").value.cheapest == Offer(4200.0, Str("Loja B"), URL_PLACEHOLDER, Str(""))
    ensures CityOffers(res, "10:00").value.offers == [
      Offer(4200.0, Str("Loja B"), URL_PLACEHOLDER, Str("")),
      Offer(4500.0, Str("Loja A"), URL_PLACEHOLDER, Str(""))]
  {
    var rows := ResultRows(res);
    var a := Offer(4500.0, Str("Loja A"), URL_PLACEHOLDER, Str(""));
    var b := Offer(4200.0, Str("Loja B"), URL_PLACEHOLDER, Str(""));
    StoreAOffer(rows[0]);
    StoreBOffer(text, rows[1]);
    KeptPair(rows, a, b);
    SortPair(a, b);
    assert [b, a][..Min(MAX_OFFERS, 2)] == [b, a];
  }

  lemma {:induction false} StoreAOffer(r: Row)
    requires r == Row(Num(4500.0), Undefined, Str("Loja A"), Undefined, Undefined, Undefined, Undefined)
    ensures RowToOffer(r) == Some(Offer(4500.0, Str("Loja A"), URL_PLACEHOLDER, Str("")))
  {
  }

  lemma {:induction false} StoreBOffer(text: string, r: Row)
    requires text == "R$ 4.200,00"
    requires r == Row(Undefined, Str(text), Undefined, Str("Loja B"), Undefined, Undefined, Undefined)
    ensures RowToOffer(r) == Some(Offer(4200.0, Str("Loja B"), URL_PLACEHOLDER, Str("")))
  {
    ParsesThousandsExample(text);
  }

  lemma {:induction false} KeptPair(rows: seq<Row>, a: Offer, b: Offer)
    requires |rows| == 2 && RowToOffer(rows[0]) == Some(a) && RowToOffer(rows[1]) == Some(b)
    ensures KeptOffers(rows) == [a, b]
  {
    assert rows[1..][0] == rows[1] && rows[1..][1..] == [];
    assert MapKeep(rows[1..], RowToOffer) == [b];
  }

  lemma {:induction false} SortPair(a: Offer, b: Offer)
    requires b.price < a.price
    ensures SortByPrice([a, b]) == [b, a]
  {
    assert [a, b][1..] == [b] && [b][1..] == [];
    assert SortByPrice([b]) == [b];
    assert Insert(a, [b]) == [b] + Insert(a, []);
  }
}
