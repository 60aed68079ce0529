/** What the scraper reads from the web, reduced to the parts of each HTML
    page it looks at. Fetching and HTML parsing are outside the model: the
    site is a function from address to response. */
module Web {
  import opened Results

  /** The fields of one `product_main` element: the first child of its
      `h1`, the first child of its `price_color` element and the third child
      of its `instock availability` element. */
  datatype ProductMain = ProductMain(heading: string, priceText: string, availabilityText: string)

  /** A parsed page: for every `image_container` element, the `href` of each
      link inside it (`None` when the link has none), and every
      `product_main` element, all in document order. */
  datatype Document = Document(
    imageContainers: seq<seq<Option<string>>>,
    productMains: seq<ProductMain>)

  datatype Response = Response(status: int, document: Document)

  /** The only status the scraper accepts. */
  const StatusOk: int := 200

  /** The web as seen by the scraper: one response per address. */
  type Site = string -> Response
}
