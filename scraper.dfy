/**
 `scrape_professor_data`: fetch one page and pull a professor record out of it.

 The network call and the HTML parser are not modelled. The fetch is an input
 that is either a transport failure or a response with a status code; the
 parsed page is given as the texts of its `h1` elements and of its `p`
 elements, each in document order.
 */
module Scraper {
  import opened Wrappers
  import opened Text

  /** What the parser finds in the markup: the text of every `h1` and of every
      `p`, in document order. */
  datatype Page = Page(headings: seq<string>, paragraphs: seq<string>)

  datatype Response = Response(status: int, page: Page)

  /** The outcome of `requests.get(url)`: a `RequestException` raised before
      any response (DNS, timeout, connection, invalid URL) or a response. */
  datatype Fetch = TransportError | Received(response: Response)

  /** The record returned on a successful fetch; all five keys are always set. */
  datatype ProfessorData = ProfessorData(
    professor: string,
    review: string,
    subject: string,
    institution: string,
    stars: string)

  const DefaultName: string := "Richard Page"
  const DefaultReview: string := "No reviews available."
  const Subject: string := "Orthopaedic Surgery"
  const Institution: string := "Geelong Orthopaedics Group"
  const Stars: string := "Not available"

  /** `raise_for_status()` raises for a client error (400..499) or a server
      error (500..599) and for no other status: never for a 2xx, always for
      404 or 500. */
  predicate RaisesForStatus(status: int)
    ensures 200 <= status < 300 ==> !RaisesForStatus(status)
    ensures status == 404 || status == 500 ==> RaisesForStatus(status)
  {
    400 <= status < 600
  }

  /** The scraper gives up, returning `None`, exactly when the request fails or
      `raise_for_status()` raises: always on a transport error, never on a 2xx
      response. */
  predicate FetchFails(fetch: Fetch)
    ensures fetch.TransportError? ==> FetchFails(fetch)
    ensures fetch.Received? && 200 <= fetch.response.status < 300 ==> !FetchFails(fetch)
  {
    fetch.TransportError? || RaisesForStatus(fetch.response.status)
  }

  /** The name: the stripped text of the first `h1` if there is one, otherwise
      the default. A tag is truthy even when its text is empty. Either way the
      name has no edge whitespace and is no longer than the first heading. */
  function ProfessorName(headings: seq<string>): (name: string)
    ensures NoEdgeSpace(name)
    ensures |headings| > 0 ==> |name| <= |headings[0]|
  {
    if |headings| > 0 then Strip(headings[0]) else DefaultName
  }

  /** The string the loop builds: each stripped paragraph followed by one
      space, in document order. Every paragraph adds at least its space, and
      the last character is always that space. */
  function ReviewAccum(paragraphs: seq<string>): (r: string)
    ensures |r| >= |paragraphs|
    ensures paragraphs != [] ==> r[|r| - 1] == ' '
  {
    if paragraphs == [] then ""
    else
      var n := |paragraphs| - 1;
      ReviewAccum(paragraphs[..n]) + Strip(paragraphs[n]) + " "
  }

  /** The stored review: the accumulated text with its edges stripped. The
      trailing space the loop leaves is always removed, and no edge
      whitespace is left. */
  function ReviewText(paragraphs: seq<string>): (r: string)
    ensures NoEdgeSpace(r)
    ensures paragraphs != [] ==> |r| < |ReviewAccum(paragraphs)|
  {
    Strip(ReviewAccum(paragraphs))
  }

  /** What the scraper returns for a fetch outcome: nothing exactly when the
      fetch fails, and otherwise a record whose name and review carry no edge
      whitespace. */
  function Scrape(fetch: Fetch): (r: Option<ProfessorData>)
    ensures r.None? <==> FetchFails(fetch)
    ensures r.Some? ==> NoEdgeSpace(r.value.professor) && NoEdgeSpace(r.value.review)
  {
    if FetchFails(fetch) then None
    else
      var page := fetch.response.page;
      Some(ProfessorData(ProfessorName(page.headings), ReviewText(page.paragraphs),
                         Subject, Institution, Stars))
  }

  /** `scrape_professor_data`, step by step: the defaults, the conditional
      name, the review reset to empty and then built by appending each stripped
      paragraph and a space. */
  method ScrapeProfessorData(fetch: Fetch) returns (data: Option<ProfessorData>)
    ensures data == Scrape(fetch)
  {
    if fetch.TransportError? || RaisesForStatus(fetch.response.status) {
      return None;
    }
    var page := fetch.response.page;
    var professorName := DefaultName;
    var reviewText := DefaultReview;
    var subject := Subject;
    var institution := Institution;
    var stars := Stars;

    if |page.headings| > 0 {
      professorName := Strip(page.headings[0]);
    }

    reviewText := "";
    var paragraphs := page.paragraphs;
    for i := 0 to |paragraphs|
      invariant reviewText == ReviewAccum(paragraphs[..i])
    {
      assert paragraphs[..i + 1][..i] == paragraphs[..i];
      reviewText := reviewText + Strip(paragraphs[i]) + " ";
    }
    assert paragraphs[..|paragraphs|] == paragraphs;

    data := Some(ProfessorData(professorName, Strip(reviewText), subject, institution, stars));
  }

  /** The scraper returns `None` exactly when the fetch fails, and otherwise a
      record whose subject, institution and stars are the fixed constants,
      whatever the page holds. */
  lemma ScrapeOutcome(fetch: Fetch)
    ensures Scrape(fetch).None? <==> fetch.TransportError? || RaisesForStatus(fetch.response.status)
    ensures Scrape(fetch).Some? ==>
      var d := Scrape(fetch).value;
      d.subject == "Orthopaedic Surgery" && d.institution == "Geelong Orthopaedics Group"
      && d.stars == "Not available"
  {
  }

  /** With an `h1`, the name is the first one's text without edge whitespace,
      whatever the later headings say; without one it is "Richard Page". */
  lemma NameFromFirstHeading(headings: seq<string>, later: seq<string>)
    ensures |headings| == 0 ==> ProfessorName(headings) == "Richard Page"
    ensures |headings| > 0 ==>
      ProfessorName(headings + later) == ProfessorName(headings) == Strip(headings[0])
      && NoEdgeSpace(ProfessorName(headings))
  {
    if |headings| > 0 {
      assert (headings + later)[0] == headings[0];
    }
  }

  /** A first `h1` whose text is only whitespace gives an empty name. */
  lemma BlankHeadingGivesEmptyName(heading: string, later: seq<string>)
    requires AllSpace(heading)
    ensures ProfessorName([heading] + later) == ""
  {
    StripAllSpace(heading);
  }

  /** The review never keeps whitespace at its edges, and it is empty for a page
      without paragraphs: the "No reviews available." default is always
      overwritten before it could be returned. */
  lemma ReviewShape(paragraphs: seq<string>)
    ensures NoEdgeSpace(ReviewText(paragraphs))
    ensures paragraphs == [] ==> ReviewText(paragraphs) == ""
  {
    if paragraphs == [] {
      assert ReviewAccum(paragraphs) == "";
      StripNoEdge("");
    }
  }

  /** Single spaces between stripped paragraphs, the reference form of the
      review. */
  function JoinWithSpace(parts: seq<string>): string {
    if |parts| == 0 then ""
    else if |parts| == 1 then parts[0]
    else JoinWithSpace(parts[..|parts| - 1]) + " " + parts[|parts| - 1]
  }

  function StripEach(paragraphs: seq<string>): (r: seq<string>)
    ensures |r| == |paragraphs|
    ensures forall k | 0 <= k < |r| :: r[k] == Strip(paragraphs[k])
  {
    seq(|paragraphs|, k requires 0 <= k < |paragraphs| => Strip(paragraphs[k]))
  }

  /** For any paragraphs, the loop's string is the stripped paragraphs joined
      by single spaces, plus one trailing space. */
  lemma {:induction false} AccumIsStrippedJoin(paragraphs: seq<string>)
    requires paragraphs != []
    ensures ReviewAccum(paragraphs) == JoinWithSpace(StripEach(paragraphs)) + " "
  {
    var n := |paragraphs| - 1;
    var parts := StripEach(paragraphs);
    if n == 0 {
      assert paragraphs[..0] == [];
    } else {
      AccumIsStrippedJoin(paragraphs[..n]);
      assert parts[..n] == StripEach(paragraphs[..n]);
    }
  }

  /** For any paragraphs, the review is the stripped paragraphs joined by
      single spaces, stripped once more. */
  lemma ReviewIsStrippedJoin(paragraphs: seq<string>)
    ensures ReviewText(paragraphs) == Strip(JoinWithSpace(StripEach(paragraphs)))
  {
    if paragraphs != [] {
      AccumIsStrippedJoin(paragraphs);
      StripDropsTrailingSpace(JoinWithSpace(StripEach(paragraphs)));
    }
  }

  lemma {:induction false} AccumIsJoin(paragraphs: seq<string>)
    requires paragraphs != []
    requires forall k | 0 <= k < |paragraphs| :: Strip(paragraphs[k]) != ""
    ensures ReviewAccum(paragraphs) == JoinWithSpace(StripEach(paragraphs)) + " "
    ensures JoinWithSpace(StripEach(paragraphs)) != ""
    ensures NoEdgeSpace(JoinWithSpace(StripEach(paragraphs)))
  {
    var n := |paragraphs| - 1;
    var parts := StripEach(paragraphs);
    var last := Strip(paragraphs[n]);
    if n == 0 {
      assert paragraphs[..0] == [];
    } else {
      var init := paragraphs[..n];
      AccumIsJoin(init);
      assert parts[..n] == StripEach(init);
      var j := JoinWithSpace(StripEach(init));
      assert JoinWithSpace(parts) == j + " " + last;
      var whole := j + " " + last;
      assert whole[0] == j[0];
      assert whole[|whole| - 1] == last[|last| - 1];
    }
  }

  /** When every paragraph has some non-whitespace text, the review is the
      stripped paragraphs joined by single spaces. */
  lemma ReviewIsJoin(paragraphs: seq<string>)
    requires forall k | 0 <= k < |paragraphs| :: Strip(paragraphs[k]) != ""
    ensures ReviewText(paragraphs) == JoinWithSpace(StripEach(paragraphs))
  {
    if paragraphs == [] {
      assert ReviewAccum(paragraphs) == "";
      StripNoEdge("");
    } else {
      AccumIsJoin(paragraphs);
      StripTrailingSpace(JoinWithSpace(StripEach(paragraphs)), " ");
    }
  }

  /** A blank paragraph between two others leaves two spaces in the review,
      not one. */
  lemma BlankParagraphGivesDoubleSpace()
    ensures ReviewText(["Clear", " ", "Kind"]) == "Clear  Kind"
  {
    StripNoEdge("Clear");
    StripAllSpace(" ");
    StripNoEdge("Kind");
    var ps := ["Clear", " ", "Kind"];
    assert ps[..1][..0] == [];
    assert ReviewAccum(ps[..1]) == "Clear ";
    assert ps[..2][..1] == ps[..1];
    assert ReviewAccum(ps[..2]) == "Clear  ";
    assert ps[..2] == ps[..|ps| - 1];
    assert ReviewAccum(ps) == "Clear  Kind ";
    StripNoEdge("Clear  Kind");
    StripTrailingSpace("Clear  Kind", " ");
  }
}
