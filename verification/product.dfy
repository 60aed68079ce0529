/** One product page: the clean-ups applied to the price and stock texts and
    the record `scrape_single_book_page` builds. */
module Product {
  import opened Results
  import opened Seqs
  import opened Text
  import opened Decimals
  import opened Prices
  import opened Web

  /** "Â" (U+00C2), left in front of "£" when UTF-8 text is read as Latin-1. */
  const Misdecoded: char := '\U{C2}'

  predicate NotMisdecoded(c: char)
  {
    c != Misdecoded
  }

  predicate NotNewline(c: char)
  {
    c != '\n'
  }

  /** `price.replace("Â", "")`: every other character kept, in order. */
  function CleanPrice(s: string): (r: string)
    ensures Misdecoded !in r
    ensures IsSubsequence(r, s)
    ensures forall c :: c != Misdecoded ==> multiset(r)[c] == multiset(s)[c]
  {
    KeepContents(s, NotMisdecoded);
    Keep(s, NotMisdecoded)
  }

  /** Removing "Â" never changes the price read: the price filter drops it
      anyway. */
  lemma {:induction false} MonetaryIgnoresCleanPrice(s: string)
    ensures Monetary(CleanPrice(s)) == Monetary(s)
  {
    KeepAbsorb(s, NotMisdecoded, IsNumeralChar);
  }

  /** `stock.replace("\n", "")`: every other character kept, in order. */
  function RemoveNewlines(s: string): (r: string)
    ensures '\n' !in r
    ensures IsSubsequence(r, s)
    ensures forall c :: c != '\n' ==> multiset(r)[c] == multiset(s)[c]
  {
    KeepContents(s, NotNewline);
    Keep(s, NotNewline)
  }

  /** `stock.replace("\n", "").lstrip().rstrip()`: no line break anywhere,
      no whitespace at either end, and otherwise the newline-free text
      between its leading and trailing whitespace. */
  function CleanStock(s: string): (r: string)
    ensures '\n' !in r
    ensures r == [] || (!IsSpace(r[0]) && !IsSpace(r[|r| - 1]))
    ensures LeadingSpace(RemoveNewlines(s)) + |r| <= |RemoveNewlines(s)|
    ensures r == RemoveNewlines(s)[LeadingSpace(RemoveNewlines(s))..LeadingSpace(RemoveNewlines(s)) + |r|]
    ensures SpaceBetween(RemoveNewlines(s), LeadingSpace(RemoveNewlines(s)) + |r|, |RemoveNewlines(s)|)
  {
    var t := RemoveNewlines(s);
    StripContents(t, '\n');
    Strip(t)
  }

  /** The row stored for one product. */
  datatype BookRecord = BookRecord(
    url: string,
    title: string,
    price: Decimal,
    stockStatus: string,
    dateScraped: string)

  /** The `product_main` element whose fields survive the extraction loop:
      each iteration overwrites the previous one's. */
  function LastMain(d: Document): ProductMain
    requires d.productMains != []
  {
    d.productMains[|d.productMains| - 1]
  }

  /** `scrape_single_book_page`. A status other than 200 fails; a page
      without a `product_main` element leaves the fields unbound, modelled
      as a failure; with several, the last one wins. The price is what
      `monetary` reads from the raw price text, and `today` stands for the
      formatted current date. */
  function ScrapeSingleBookPage(url: string, site: Site, today: string): (r: Result<BookRecord>)
    ensures site(url).status != StatusOk ==> r == Err(FetchError)
    ensures site(url).status == StatusOk && site(url).document.productMains == []
            ==> r == Err(ExtractionError)
    ensures site(url).status == StatusOk && site(url).document.productMains != []
            ==> (r.Ok? <==> Monetary(LastMain(site(url).document).priceText).Ok?)
    ensures r.Err? && site(url).status == StatusOk && site(url).document.productMains != []
            ==> r.error == ParseError
    ensures r.Ok? ==>
              && site(url).status == StatusOk
              && site(url).document.productMains != []
              && r.value.url == url
              && r.value.title == LastMain(site(url).document).heading
              && Ok(r.value.price) == Monetary(LastMain(site(url).document).priceText)
              && r.value.stockStatus == CleanStock(LastMain(site(url).document).availabilityText)
              && r.value.dateScraped == today
  {
    var response := site(url);
    if response.status != StatusOk then Err(FetchError)
    else if response.document.productMains == [] then Err(ExtractionError)
    else
      var main := LastMain(response.document);
      var price := CleanPrice(main.priceText);
      var stock := CleanStock(main.availabilityText);
      MonetaryIgnoresCleanPrice(main.priceText);
      match Monetary(price)
      case Err(e) => Err(e)
      case Ok(p) => Ok(BookRecord(url, main.heading, p, stock, today))
  }
}
