# bookscraper, modelled in Dafny

`bookscraper.py` walks the listing pages of books.toscrape.com. For each page
it builds the listing address, collects the product addresses the page links
to, scrapes every product page into a record (title, price, stock text, date),
and appends the record to a SQLite table. This project models that pipeline
as pure functions and proves what it promises:

- **Prices** (`monetary.dfy`, with `seqs.dfy`, `digits.dfy`, `decimals.dfy`):
  `monetary` deletes every character other than the ASCII digits and `.` and
  hands the rest to `float`. The model keeps the filter as an
  order-preserving `Keep`. It parses the result into an exact `Decimal`
  (mantissa over a power of ten) in place of a binary float, so the value is
  exactly the real number the digits spell.
- **Product pages** (`product.dfy`, with `text.dfy`): the removal of the
  mis-decoded `Â` from the price text, and the stock text's newline removal
  followed by `lstrip().rstrip()` with Python's whitespace set. The record
  `scrape_single_book_page` builds, including its failures (bad status, no
  `product_main` element, unparseable price).
- **Listing pages** (`listing.dfy`): the listing address of page `n`, the
  product address of each link inside an `image_container`, and
  `get_book_urls_from_page`.
- **The run** (`orchestrator.dfy`): `main`'s loop over `range(page_start,
  page_end)`, scraping the addresses of each page in order. The first
  failure aborts the run; rows appended before it stay.

The web is a parameter: a `Site` maps an address to a `Response` holding the
status and the few parts of the parsed HTML the scraper reads (`web.dfy`).
Failures that Python raises as exceptions are `Err` values of
`Result` (`results.dfy`).

Details of the modelled behaviour that are easy to get wrong:

- The price clean-up at `bookscraper.py:63` removes only `Â`. It does not
  remove other non-numeric characters there; `monetary`'s filter drops them
  later (`MonetaryIgnoresCleanPrice`).
- Nothing checks that a title or stock text is non-empty; both may be.
- A non-200 product page fails. The `raise … from error` at
  `bookscraper.py:59` names an undefined variable, so Python raises
  `NameError` instead of the intended `RuntimeError`. The call fails either
  way, and the model returns `FetchError`.
- `main`'s docstring describes `page_end` as the page to end at
  (`bookscraper.py:221`). `range` at `bookscraper.py:230` leaves it out, so
  the default run visits pages 1 to 49 and never page 50
  (`DefaultRunSkipsLastPage`). The model follows the code.

## Model

| member | source | states |
|---|---|---|
| Prices.PriceFilter | bookscraper.py:29 | the filtered text holds only digits and `.`, is a subsequence of the input, and holds every digit and `.` of the input as often as the input does |
| Prices.PriceFilterExact | bookscraper.py:29 | any subsequence made only of digits and `.` that keeps every digit and `.` of the input as often as it occurs is the filtered text: the filter is exactly "keep the digits and points, in order" |
| Prices.PriceFilterIdempotent | bookscraper.py:29 | filtering filtered text changes nothing |
| Prices.HasDigitFiltered | bookscraper.py:29 | the filtered text has a digit exactly when the input has one |
| Prices.Monetary | bookscraper.py:29-30 | `monetary` succeeds exactly when the input holds at least one digit and at most one `.`; otherwise it fails with a parse error |
| Prices.MonetaryIgnoresNonNumerals | bookscraper.py:29-30 | text made of characters other than digits and `.` changes nothing, whether put before or after the price |
| Prices.MonetaryIgnoresSign | bookscraper.py:29-30 | a leading minus sign is dropped, so a price is never read as negative |
| Prices.MonetaryOfPrice | bookscraper.py:29-30 | a currency sign followed by `a.b` reads as the mantissa `ab` over `10^len(b)`, i.e. `a + b/10^len(b)` |
| Prices.MonetaryOfWhole | bookscraper.py:29-30 | a currency sign followed by digits without a point reads as the integer those digits spell, with no decimals |
| Prices.MonetaryDocExample | bookscraper.py:26-27 | "£53.22" reads as 53.22 (mantissa 5322, two decimals) |
| Prices.MonetaryTestExample | tests.py:18-22 | "£51.77" reads as 51.77 (mantissa 5177, two decimals) |
| Prices.UngroupedExample | bookscraper.py:29-30 | "£1234.56" reads as 1234.56 |
| Prices.MonetaryGroupedExample | bookscraper.py:29-30 | "£1,234.56" reads as 1234.56: the grouping comma is dropped without changing the magnitude |
| Prices.GroupingCommaDropped | bookscraper.py:29-30 | deleting a comma anywhere in the price text does not change what is read |
| Prices.ExampleValues | bookscraper.py:26-30 | the three example prices have the exact real values 53.22, 51.77 and 1234.56 |
| Prices.MonetaryNoDigitExamples | bookscraper.py:29-30 | "£" and "£." fail to parse: no digit remains |
| Prices.MonetaryTwoPointsExample | bookscraper.py:29-30 | "£1.2.3" fails to parse: two points remain |
| Decimals.Value | bookscraper.py:30 | a parsed price is never negative; without decimals it is its mantissa |
| Decimals.ParseDecimal | bookscraper.py:30 | `float` on digits and points succeeds exactly when there is a digit and at most one point, fails with a parse error otherwise, and yields fewer decimals than the text has characters |
| Decimals.ParseWhole | bookscraper.py:30 | a numeral without a point reads as the integer its digits spell, with no decimals |
| Decimals.ParsePointed | bookscraper.py:30 | `a.b` reads as the mantissa `a·10^len(b) + b` with `len(b)` decimals |
| Decimals.ShiftedValue | bookscraper.py:30 | that decimal's value is `a + b/10^len(b)` |
| Decimals.Render | bookscraper.py:30 | the canonical numeral of a decimal is made of digits and points, holds a digit, and has a point exactly when it has decimals |
| Decimals.RenderRoundTrip | bookscraper.py:30 | parsing the canonical numeral of a decimal gives that decimal back |
| Decimals.RenderInjective | bookscraper.py:30 | different decimals have different canonical numerals |
| Seqs.Keep | bookscraper.py:29 | the filter keeps only passing elements and never lengthens its input |
| Seqs.KeepContents | bookscraper.py:29 | the filter's output is a subsequence of the input, holds each passing element as often as the input, and holds no failing element |
| Seqs.KeepUnique | bookscraper.py:29 | the filter's output is the only subsequence with those contents |
| Seqs.KeepIdempotent | bookscraper.py:29 | filtering twice is filtering once |
| Seqs.KeepAbsorb | bookscraper.py:63 | filtering with a weaker test and then a stronger one is the stronger filter alone |
| Product.CleanPrice | bookscraper.py:63 | after `replace("Â", "")` no `Â` remains, and every other character is kept, in order and as often as before |
| Product.MonetaryIgnoresCleanPrice | bookscraper.py:63 | removing `Â` never changes the price `monetary` reads |
| Product.RemoveNewlines | bookscraper.py:64 | after `replace("\n", "")` no newline remains, and every other character is kept, in order and as often as before |
| Text.IsSpace | bookscraper.py:64 | the characters `lstrip` and `rstrip` remove: those Python's `str.isspace` accepts (the ASCII controls 9-13 and 28-31, space, NEL, NO-BREAK SPACE, OGHAM SPACE MARK, the spaces U+2000-U+200A, LINE SEPARATOR, PARAGRAPH SEPARATOR, NARROW NO-BREAK SPACE, MEDIUM MATHEMATICAL SPACE and IDEOGRAPHIC SPACE) |
| Text.TrimLeft | bookscraper.py:64 | `lstrip()` leaves a suffix that does not start with whitespace, and everything it drops is whitespace |
| Text.TrimRight | bookscraper.py:64 | `rstrip()` leaves a prefix that does not end with whitespace, and everything it drops is whitespace |
| Text.Strip | bookscraper.py:64 | `lstrip().rstrip()` leaves the infix that starts after the leading whitespace and is followed only by whitespace; it neither starts nor ends with whitespace |
| Text.StripIsTrimLeftThenRight | bookscraper.py:64 | stripping is `lstrip()` followed by `rstrip()` |
| Text.StripContents | bookscraper.py:64 | stripping adds no character |
| Text.StripIdempotent | bookscraper.py:64 | stripping stripped text changes nothing |
| Product.CleanStock | bookscraper.py:64 | the stock text has no newline and no leading or trailing whitespace, and is the newline-free text with its surrounding whitespace removed |
| Product.LastMain | bookscraper.py:61-64 | the fields come from the last `product_main` element: each loop iteration overwrites the previous one's |
| Product.ScrapeSingleBookPage | bookscraper.py:55-74 | a non-200 status is a fetch failure; no `product_main` element is an extraction failure; otherwise the call succeeds exactly when the last element's price parses, with the address, that element's title, the parsed price, the cleaned stock text and the date |
| Digits.NatToString | bookscraper.py:102 | `str` of a non-negative integer is a non-empty digit string, without leading zeros, whose digits spell that integer |
| Digits.IntToString | bookscraper.py:102 | `str` of an integer reads back as that integer, starts with `-` exactly when the integer is negative, and has no leading zeros and no "-0" |
| Digits.IntToStringUnique | bookscraper.py:102 | the text `str` prints is the only text without leading zeros that reads back as the integer |
| Digits.IntToStringInjective | bookscraper.py:102 | different integers print differently |
| Listing.ListingAddress | bookscraper.py:102 | the listing address starts with `http://books.toscrape.com/catalogue/page-`, ends with `.html`, and has the page number without leading zeros in between |
| Listing.ListingAddressExact | bookscraper.py:102 | that is the only such address for the page: `page-01.html` is never requested |
| Listing.ListingAddressRoundTrip | bookscraper.py:102 | the page number can be read back from its listing address |
| Listing.ListingAddressInjective | bookscraper.py:102 | different pages have different listing addresses |
| Listing.HrefText | bookscraper.py:112 | `str` of a link's `href`: the text itself, or "None" when the link has none |
| Listing.ProductAddress | bookscraper.py:112 | a product address starts with `http://books.toscrape.com/catalogue/` |
| Listing.ProductAddressRoundTrip | bookscraper.py:112 | the link's `href` text, `None` when it has none, can be read back from the product address |
| Listing.LinkAddresses | bookscraper.py:111-113 | one address per link of one image container, in order: the catalogue prefix followed by the link's `href` text |
| Listing.ProductAddresses | bookscraper.py:110-114 | one address per link of every image container, in document order, so none when there are no links |
| Listing.ProductAddressesKeepDuplicates | bookscraper.py:110-114 | two entries are equal exactly when their links' `href` texts are: repeated links give repeated entries |
| Listing.GetBookUrlsFromPage | bookscraper.py:102-114 | the listing page is fetched at its listing address; the call succeeds exactly when the status is 200, fails with a fetch error otherwise, and returns the page's product addresses |
| Orchestrator.PageRange | bookscraper.py:230 | `range(start, end)` is `end - start` pages ascending from `start`, end excluded, and empty when `start >= end` |
| Orchestrator.ScrapeAll | bookscraper.py:232-233 | scraping a page's addresses appends at most one row per address |
| Orchestrator.ScrapeAllRows | bookscraper.py:232-233 | row `k` is the record scraped from address `k`; without a failure every address gave a row, and a failure is the error of the first address that gave none |
| Orchestrator.ScrapeAllAppend | bookscraper.py:232-233 | scraping two address lists one after the other is scraping their concatenation |
| Orchestrator.RunPages | bookscraper.py:230-233 | the pages visited are a prefix of those given; all of them when nothing fails, and at least one when something does |
| Orchestrator.RunPagesStopsAtFirstFailure | bookscraper.py:230-233 | a run reports no failure exactly when every page lists and all its products scrape; otherwise it visits no page after the first one that does not, and reports that page's listing error or, if it listed, the error of its first product that failed |
| Orchestrator.Main | bookscraper.py:205-234 | pages are visited from `page_start` upwards, one at a time and never reaching `page_end`; all of them when nothing fails; an empty range does nothing |
| Orchestrator.MainStopsAtFirstFailure | bookscraper.py:230-233 | `main` reports no failure exactly when `get_book_urls_from_page` succeeds for every page of its range and all the products it lists scrape; otherwise the last page it visits is the first one that does not, and the error reported is that page's listing error or its first failed scrape's |
| Orchestrator.WorkItems | bookscraper.py:230-232 | every item handed to the run carries one of its pages and an address that page's listing returned; when the pages ascend, the items come page by page |
| Orchestrator.RunFollowsWorkItems | bookscraper.py:230-233 | the rows a run appends are the rows of scraping its work list in order, and a failed scrape is the failure the run reports |
| Orchestrator.MainFollowsWorkItems | bookscraper.py:230-233 | `main` appends exactly the rows of scraping, in order, the work list of its page range |
| Orchestrator.DefaultRunSkipsLastPage | bookscraper.py:205-230 | with the default `page_start=1` and `page_end=50`, only pages 1 to 49 are visited, all 49 when nothing fails, and never page 50 |
| Orchestrator.MainWorkOrder | bookscraper.py:230-232 | `main`'s work list holds addresses from pages in the range only, in ascending page order |

## Left out

- Fetching and HTML parsing (`requests.get`, BeautifulSoup) are not modelled. The web is a `Site` function, and a page is reduced to the `href`s of its `image_container` links and the three texts of each `product_main` element.
- The SQLite storage is not modelled: `if_no_table_create_one` and `add_book_to_database` (`bookscraper.py:117-203`). A run's result is the sequence of rows it would append, in order.
- `time.sleep` between scrapes, the `print` calls and the `verbose`, `db_path` and waiting-time parameters of `main` have no effect on the result and are dropped.
- `datetime.now().strftime("%m/%d/%y")` is the `today` parameter of `ScrapeSingleBookPage`, because the clock is outside the model.
- Orchestrator.Main: one `today` stamps every row of a run, whereas Python reads the clock on every scrape, so a run that crosses midnight dates its later rows differently. Likewise one `Site` answers the whole run, so the web cannot change while it runs, and an address listed twice gives the same record twice.
- The meta-description loop (`bookscraper.py:65-67`) is not modelled, because its value is never used.
- Prices.Monetary: the price is an exact decimal, not the binary float Python returns. Rounding to the nearest double is not modelled.
- Decimals.ParseDecimal: requires its input to hold only digits and points, because the price filter never hands `float` anything else. `float`'s other syntaxes (signs, exponents, underscores, surrounding whitespace, `inf`, `nan`) are not modelled.
- Product.ScrapeSingleBookPage: an element missing inside `product_main`, or a stock element with fewer than three children, raises in Python and is not modelled; the document always supplies the three texts. With several `product_main` elements, only the last one's texts are read, so a failure in an earlier one is not modelled.
- Listing.GetBookUrlsFromPage: takes the page as an integer. The string page number the docstring also allows is not modelled.
- Text.IsSpace: is a fixed list of the characters Python's `str.isspace` accepts. Python derives that set from its Unicode database.
