/** Failure-carrying values shared by the whole model. The scraper's Python
    exceptions become the `Err` arm of `Result`. */
module Results {

  datatype Option<+T> = None | Some(value: T)

  /** The three ways one scrape step can abort the run. */
  datatype ScrapeError =
    | FetchError       // an HTTP status other than 200
    | ExtractionError  // the expected HTML element is missing
    | ParseError       // the price text is not a number

  datatype Result<+T> = Ok(value: T) | Err(error: ScrapeError)
}
