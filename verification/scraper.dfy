/**
 * The pure parts of the Keepa scraper (scraper.py): the link builders of a
 * `Deal` and the loop of `extract_deals` that turns the records read off the
 * page into `Deal` values, truncating titles and keeping only deals whose
 * discount reaches the minimum.
 *
 * Prices and discounts are Python floats, modelled as reals: the code only
 * copies and compares them.
 */
module Scraper {

  datatype Option<T> = None | Some(value: T)

  /** A product deal as the rest of the program sees it. */
  datatype Deal = Deal(
    asin: string,
    title: string,
    currentPrice: real,
    averagePrice: real,
    discountPercent: real,
    productUrl: string,
    imageUrl: string,
    availability: string)

  /** One record produced by the in-page extraction script; every key is always present. */
  datatype DealData = DealData(
    asin: string,
    title: string,
    currentPrice: real,
    averagePrice: real,
    discountPercent: real,
    productUrl: string,
    imageUrl: string)

  const DefaultAvailability: string := "In Stock"

  /** Longest title a `Deal` keeps. */
  const TitleLimit: nat := 200

  const CartPrefix: string := "https://www.amazon.fr/gp/aws/cart/add.html?ASIN.1="
  const CartSuffix: string := "&Quantity.1=1"
  const KeepaPrefix: string := "https://keepa.com/#!product/4-"
  const KeepaSuffix: string := ""
  const LookupPrefix: string := "https://www.google.com/search?q="
  const LookupSuffix: string := "+price&tbm=shop"
  const GraphPrefix: string := "https://graph.keepa.com/pricehistory.png?asin="
  const GraphSuffix: string := "&domain=4"

  /** `prefix`, the ASIN, `suffix`: the shape of every link built by `Deal`. */
  function Embed(prefix: string, asin: string, suffix: string): string
  {
    prefix + asin + suffix
  }

  /** Reads the ASIN back out of a link with the given fixed prefix and suffix. */
  function Extract(prefix: string, suffix: string, url: string): (r: Option<string>)
    ensures r.Some? ==> Embed(prefix, r.value, suffix) == url
  {
    if |prefix| + |suffix| <= |url| && url[..|prefix|] == prefix && url[|url| - |suffix|..] == suffix
    then Some(url[|prefix|..|url| - |suffix|])
    else None
  }

  /** Reading back the ASIN of a link built around it gives that ASIN. */
  lemma EmbedExtract(prefix: string, asin: string, suffix: string)
    ensures Extract(prefix, suffix, Embed(prefix, asin, suffix)) == Some(asin)
  {
    var url := Embed(prefix, asin, suffix);
    assert url[..|prefix|] == prefix;
    assert url[|url| - |suffix|..] == suffix;
    assert url[|prefix|..|url| - |suffix|] == asin;
  }

  /** `Deal.amazon_cart_url`: the add-to-cart link on amazon.fr for one unit. */
  function AmazonCartUrl(asin: string): (url: string)
    ensures Extract(CartPrefix, CartSuffix, url) == Some(asin)
  {
    EmbedExtract(CartPrefix, asin, CartSuffix);
    Embed(CartPrefix, asin, CartSuffix)
  }

  /** `Deal.keepa_url`: the Keepa product page (domain 4, amazon.fr). */
  function KeepaUrl(asin: string): (url: string)
    ensures Extract(KeepaPrefix, KeepaSuffix, url) == Some(asin)
  {
    EmbedExtract(KeepaPrefix, asin, KeepaSuffix);
    Embed(KeepaPrefix, asin, KeepaSuffix)
  }

  /** `Deal.lookup_url`: a Google Shopping search for the ASIN's price. */
  function LookupUrl(asin: string): (url: string)
    ensures Extract(LookupPrefix, LookupSuffix, url) == Some(asin)
  {
    EmbedExtract(LookupPrefix, asin, LookupSuffix);
    Embed(LookupPrefix, asin, LookupSuffix)
  }

  /** `Deal.keepa_graph_url`: the Keepa price-history image (domain 4). */
  function KeepaGraphUrl(asin: string): (url: string)
    ensures Extract(GraphPrefix, GraphSuffix, url) == Some(asin)
  {
    EmbedExtract(GraphPrefix, asin, GraphSuffix);
    Embed(GraphPrefix, asin, GraphSuffix)
  }

  /** Distinct ASINs give distinct links, for each of the four builders. */
  lemma UrlsInjective(a: string, b: string)
    ensures AmazonCartUrl(a) == AmazonCartUrl(b) ==> a == b
    ensures KeepaUrl(a) == KeepaUrl(b) ==> a == b
    ensures LookupUrl(a) == LookupUrl(b) ==> a == b
    ensures KeepaGraphUrl(a) == KeepaGraphUrl(b) ==> a == b
  {
  }

  /** Python's `s[:limit]`: the first `limit` characters, or all of `s` if shorter. */
  function Truncate(s: string, limit: nat): (t: string)
    ensures t <= s
    ensures |t| == if |s| <= limit then |s| else limit
  {
    if |s| <= limit then s else s[..limit]
  }

  /** The `Deal(...)` construction of `extract_deals`: fields copied, title truncated. */
  function ToDeal(data: DealData): (deal: Deal)
    ensures |deal.title| <= TitleLimit && deal.title <= data.title
    ensures |data.title| <= TitleLimit ==> deal.title == data.title
    ensures deal.asin == data.asin && deal.discountPercent == data.discountPercent
  {
    Deal(data.asin, Truncate(data.title, TitleLimit), data.currentPrice, data.averagePrice,
         data.discountPercent, data.productUrl, data.imageUrl, DefaultAvailability)
  }

  /** The converted record as a one-element sequence if its discount reaches `minDiscount`, else nothing. */
  function Kept(data: DealData, minDiscount: real): seq<Deal>
  {
    var deal := ToDeal(data);
    if deal.discountPercent >= minDiscount then [deal] else []
  }

  /** Reference definition: the converted records whose discount reaches `minDiscount`, in input order. */
  function Qualifying(records: seq<DealData>, minDiscount: real): seq<Deal>
  {
    if records == [] then [] else Kept(records[0], minDiscount) + Qualifying(records[1..], minDiscount)
  }

  /** Filtering distributes over concatenation, so input order is kept. */
  lemma {:induction false} QualifyingConcat(a: seq<DealData>, b: seq<DealData>, minDiscount: real)
    ensures Qualifying(a + b, minDiscount) == Qualifying(a, minDiscount) + Qualifying(b, minDiscount)
  {
    if a == [] {
      assert a + b == b;
    } else {
      var head := Kept(a[0], minDiscount);
      calc {
        Qualifying(a + b, minDiscount);
        == { assert (a + b)[0] == a[0] && (a + b)[1..] == a[1..] + b; }
        head + Qualifying(a[1..] + b, minDiscount);
        == { QualifyingConcat(a[1..], b, minDiscount); }
        head + (Qualifying(a[1..], minDiscount) + Qualifying(b, minDiscount));
        (head + Qualifying(a[1..], minDiscount)) + Qualifying(b, minDiscount);
      }
    }
  }

  /** A deal is returned exactly when it is the conversion of a record whose discount reaches the minimum. */
  lemma {:induction false} QualifyingMembers(records: seq<DealData>, minDiscount: real)
    ensures forall d :: d in Qualifying(records, minDiscount) <==>
      exists i :: 0 <= i < |records| && d == ToDeal(records[i]) && records[i].discountPercent >= minDiscount
  {
    if records != [] {
      QualifyingMembers(records[1..], minDiscount);
      forall d | d in Qualifying(records, minDiscount)
        ensures exists i :: 0 <= i < |records| && d == ToDeal(records[i]) && records[i].discountPercent >= minDiscount
      {
        if d !in Qualifying(records[1..], minDiscount) {
          assert d == ToDeal(records[0]);
        } else {
          var i :| 0 <= i < |records[1..]| && d == ToDeal(records[1..][i]) && records[1..][i].discountPercent >= minDiscount;
          assert records[1..][i] == records[i + 1];
        }
      }
      forall d | exists i :: 0 <= i < |records| && d == ToDeal(records[i]) && records[i].discountPercent >= minDiscount
        ensures d in Qualifying(records, minDiscount)
      {
        var i :| 0 <= i < |records| && d == ToDeal(records[i]) && records[i].discountPercent >= minDiscount;
        if i > 0 {
          assert records[1..][i - 1] == records[i];
        }
      }
    }
  }

  /**
   * The conversion loop of `extract_deals`: build a `Deal` from each record
   * and append it when its discount reaches `minDiscount`.
   */
  method ConvertDeals(records: seq<DealData>, minDiscount: real) returns (deals: seq<Deal>)
    ensures deals == Qualifying(records, minDiscount)
    ensures forall d :: d in deals ==> d.discountPercent >= minDiscount && |d.title| <= TitleLimit
  {
    deals := [];
    var i := 0;
    while i < |records|
      invariant 0 <= i <= |records|
      invariant deals == Qualifying(records[..i], minDiscount)
    {
      var deal := ToDeal(records[i]);
      if deal.discountPercent >= minDiscount {
        deals := deals + [deal];
      }
      QualifyingConcat(records[..i], [records[i]], minDiscount);
      assert records[..i + 1] == records[..i] + [records[i]];
      i := i + 1;
    }
    assert records[..i] == records;
    QualifyingMembers(records, minDiscount);
  }
}
