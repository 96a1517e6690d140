/**
 The `home` request handler: the choice of the status message shown to the
 user, and whether scraping and storing happen.

 Routing and templates are not modelled; the outcome records which page is
 rendered, with which message, whether the scraper was called, and the upsert
 request sent to the index, if any. The fetch outcome for the submitted URL is
 an input.
 */
module App {
  import opened Wrappers
  import opened Text
  import opened Scraper
  import opened Store

  /** A GET, or a POST whose form carries `url`. */
  datatype Request = Get | Post(url: string)

  /** `index.html`, or `result.html` with a message. */
  datatype View = IndexPage | ResultPage(message: string)

  datatype HomeOutcome<T> = HomeOutcome(view: View, scraped: bool, upsert: Option<UpsertRequest<T>>)

  const StoredMessage: string := "Data scraped and stored successfully."
  const FailedMessage: string := "Failed to scrape the data."
  const NoUrlMessage: string := "No URL provided."

  /** `home()`: an empty URL is refused without scraping; otherwise the page is
      scraped, and a record (a non-empty dict, hence truthy) ends in one upsert
      request. */
  function Home<T>(request: Request, fetch: Fetch, encode: string -> seq<T>): (out: HomeOutcome<T>)
    ensures out.view == IndexPage <==> request.Get?
    ensures request.Post? ==>
      out.view.message in {"Data scraped and stored successfully.", "Failed to scrape the data.", "No URL provided."}
    ensures out.scraped <==> request.Post? && request.url != ""
    ensures out.upsert.Some? <==> out.view == ResultPage("Data scraped and stored successfully.")
  {
    match request
    case Get => HomeOutcome(IndexPage, false, None)
    case Post(url) =>
      if url != "" then
        var data := Scrape(fetch);
        if data.Some? then
          HomeOutcome(ResultPage(StoredMessage), true, Some(ProcessAndStoreData(data.value, encode)))
        else
          HomeOutcome(ResultPage(FailedMessage), true, None)
      else
        HomeOutcome(ResultPage(NoUrlMessage), false, None)
  }

  /** An empty URL: "No URL provided.", nothing fetched, nothing stored. */
  lemma EmptyUrl<T>(fetch: Fetch, encode: string -> seq<T>)
    ensures Home(Post(""), fetch, encode) == HomeOutcome(ResultPage("No URL provided."), false, None)
  {
  }

  /** Each message of a POST is shown in exactly one situation: no URL, a failed
      fetch, or a successful one. */
  lemma MessageCases<T>(url: string, fetch: Fetch, encode: string -> seq<T>)
    ensures var m := Home(Post(url), fetch, encode).view.message;
      && (m == "No URL provided." <==> url == "")
      && (m == "Failed to scrape the data." <==> url != "" && FetchFails(fetch))
      && (m == "Data scraped and stored successfully." <==> url != "" && !FetchFails(fetch))
  {
  }

  /** A transport error or a 4xx/5xx status: "Failed to scrape the data." and
      no upsert. */
  lemma FailedFetch<T>(url: string, fetch: Fetch, encode: string -> seq<T>)
    requires url != "" && FetchFails(fetch)
    ensures Home(Post(url), fetch, encode) == HomeOutcome(ResultPage("Failed to scrape the data."), true, None)
  {
  }

  /** A successful fetch always ends in one upsert request, whatever the page
      holds: the one vector is named after the first heading (or "Richard
      Page"), its metadata carries the review and the three constants. */
  lemma SuccessfulFetch<T>(url: string, status: int, page: Page, encode: string -> seq<T>)
    requires url != "" && !RaisesForStatus(status)
    ensures var out := Home(Post(url), Received(Response(status, page)), encode);
      && out.view == ResultPage("Data scraped and stored successfully.")
      && out.upsert == Some(ProcessAndStoreData(Scrape(Received(Response(status, page))).value, encode))
      && out.upsert.value.namespace == "ns1"
      && |out.upsert.value.vectors| == 1
      && out.upsert.value.vectors[0].id == ProfessorName(page.headings)
      && out.upsert.value.vectors[0].metadata == map[
           "institution" := "Geelong Orthopaedics Group",
           "review" := ReviewText(page.paragraphs),
           "stars" := "Not available",
           "subject" := "Orthopaedic Surgery"]
  {
  }

  /** A page `<h1>Jane Doe</h1><p>Great at explaining concepts.</p>` is stored
      under "Jane Doe" with the paragraph as its review. */
  lemma SinglePageExample<T>(url: string, encode: string -> seq<T>)
    requires url != ""
    ensures var page := Page(["Jane Doe"], ["Great at explaining concepts."]);
      var out := Home(Post(url), Received(Response(200, page)), encode);
      && out.view == ResultPage("Data scraped and stored successfully.")
      && out.upsert.Some?
      && out.upsert.value.vectors[0].id == "Jane Doe"
      && out.upsert.value.vectors[0].metadata["review"] == "Great at explaining concepts."
  {
    var review := "Great at explaining concepts.";
    StripNoEdge("Jane Doe");
    StripNoEdge(review);
    assert ["Great at explaining concepts."][..0] == [];
    assert ReviewAccum([review]) == review + " ";
    StripTrailingSpace(review, " ");
  }
}
