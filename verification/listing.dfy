/** Listing pages: the address of catalogue page `n`, and the product
    addresses a listing page links to. */
module Listing {
  import opened Results
  import opened Seqs
  import opened Digits
  import opened Web

  const CatalogueUrl: string := "http://books.toscrape.com/catalogue/"
  const ListingUrlPrefix: string := "http://books.toscrape.com/catalogue/page-"
  const ListingUrlSuffix: string := ".html"

  /** The address of listing page `page`: the page number in decimal between
      a fixed prefix and ".html". */
  function ListingAddress(page: int): (url: string)
    ensures |url| > |ListingUrlPrefix| + |ListingUrlSuffix|
    ensures url[..|ListingUrlPrefix|] == ListingUrlPrefix
    ensures url[|url| - |ListingUrlSuffix|..] == ListingUrlSuffix
    ensures IsCanonicalIntText(url[|ListingUrlPrefix|..|url| - |ListingUrlSuffix|])
  {
    var url := ListingUrlPrefix + IntToString(page) + ListingUrlSuffix;
    assert url[|ListingUrlPrefix|..|url| - |ListingUrlSuffix|] == IntToString(page);
    url
  }

  /** Reads the page number back out of a listing address. */
  function ListingPageOf(url: string): Option<int>
  {
    var lo, hi := |ListingUrlPrefix|, |url| - |ListingUrlSuffix|;
    if lo <= hi && url[..lo] == ListingUrlPrefix && url[hi..] == ListingUrlSuffix
       && IsIntText(url[lo..hi])
    then Some(StringToInt(url[lo..hi]))
    else None
  }

  /** The page number can be recovered from the listing address. */
  lemma {:induction false} ListingAddressRoundTrip(page: int)
    ensures ListingPageOf(ListingAddress(page)) == Some(page)
  {
    var url := ListingAddress(page);
    var digits := IntToString(page);
    assert url[|ListingUrlPrefix|..|url| - |ListingUrlSuffix|] == digits;
  }

  /** The listing address is the only address made of the prefix, the page
      number written without leading zeros, and ".html": `page-01.html` is
      never requested for page 1. */
  lemma {:induction false} ListingAddressExact(page: int, url: string)
    requires |url| > |ListingUrlPrefix| + |ListingUrlSuffix|
    requires url[..|ListingUrlPrefix|] == ListingUrlPrefix
    requires url[|url| - |ListingUrlSuffix|..] == ListingUrlSuffix
    requires IsCanonicalIntText(url[|ListingUrlPrefix|..|url| - |ListingUrlSuffix|])
    requires StringToInt(url[|ListingUrlPrefix|..|url| - |ListingUrlSuffix|]) == page
    ensures url == ListingAddress(page)
  {
    var middle := url[|ListingUrlPrefix|..|url| - |ListingUrlSuffix|];
    IntToStringUnique(middle, page);
    assert url == url[..|ListingUrlPrefix|] + middle + url[|url| - |ListingUrlSuffix|..];
  }

  /** Different pages have different listing addresses. */
  lemma {:induction false} ListingAddressInjective(p: int, q: int)
    requires ListingAddress(p) == ListingAddress(q)
    ensures p == q
  {
    ListingAddressRoundTrip(p);
    ListingAddressRoundTrip(q);
  }

  /** `str(link.get('href'))`: a missing attribute prints as "None". */
  function HrefText(href: Option<string>): string
  {
    match href
    case Some(h) => h
    case None => "None"
  }

  /** The catalogue prefix followed by the link's reference. */
  function ProductAddress(href: Option<string>): (url: string)
    ensures |url| >= |CatalogueUrl| && url[..|CatalogueUrl|] == CatalogueUrl
  {
    CatalogueUrl + HrefText(href)
  }

  /** Reads the reference back out of a product address. */
  function ProductHrefOf(url: string): Option<string>
  {
    if |url| >= |CatalogueUrl| && url[..|CatalogueUrl|] == CatalogueUrl
    then Some(url[|CatalogueUrl|..])
    else None
  }

  /** The link's reference can be recovered from the product address. */
  lemma {:induction false} ProductAddressRoundTrip(href: Option<string>)
    ensures ProductHrefOf(ProductAddress(href)) == Some(HrefText(href))
  {
    var url := ProductAddress(href);
    assert url[|CatalogueUrl|..] == HrefText(href);
  }

  function LinkAddresses(links: seq<Option<string>>): (urls: seq<string>)
    ensures |urls| == |links|
    ensures forall k :: 0 <= k < |links| ==> urls[k] == ProductAddress(links[k])
  {
    seq(|links|, k requires 0 <= k < |links| => ProductAddress(links[k]))
  }

  /** The inner loop of `get_book_urls_from_page`: one address per link of
      every image container, in document order, duplicates included. */
  function ProductAddresses(containers: seq<seq<Option<string>>>): (urls: seq<string>)
    ensures |urls| == |Flatten(containers)|
    ensures forall k :: 0 <= k < |urls| ==> urls[k] == ProductAddress(Flatten(containers)[k])
  {
    if containers == [] then []
    else LinkAddresses(containers[0]) + ProductAddresses(containers[1..])
  }

  /** Two entries are equal exactly when their links' references are, so
      repeated links give repeated entries and nothing is merged. */
  lemma {:induction false} ProductAddressesKeepDuplicates(containers: seq<seq<Option<string>>>, i: nat, j: nat)
    requires i < |Flatten(containers)| && j < |Flatten(containers)|
    ensures ProductAddresses(containers)[i] == ProductAddresses(containers)[j]
            <==> HrefText(Flatten(containers)[i]) == HrefText(Flatten(containers)[j])
  {
    var links := Flatten(containers);
    ProductAddressRoundTrip(links[i]);
    ProductAddressRoundTrip(links[j]);
  }

  /** `get_book_urls_from_page`: fetch listing page `page`; any status other
      than 200 fails, otherwise the product addresses of the page. */
  function GetBookUrlsFromPage(page: int := 1, site: Site): (r: Result<seq<string>>)
    ensures r.Ok? <==> site(ListingAddress(page)).status == StatusOk
    ensures r.Err? ==> r.error == FetchError
    ensures r.Ok? ==> r.value == ProductAddresses(site(ListingAddress(page)).document.imageContainers)
  {
    var response := site(ListingAddress(page));
    if response.status != StatusOk then Err(FetchError)
    else Ok(ProductAddresses(response.document.imageContainers))
  }
}
