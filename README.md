# proflens-scraper ingestion logic, modelled in Dafny

The repository is a small Flask application (`app.py`). A user submits the URL
of a professor's page. The handler fetches the page, pulls a professor record
out of it, embeds the record's text with a sentence encoder, and upserts one
vector with metadata into a Pinecone index. This project models the
deterministic logic under that glue. The web framework, the HTTP client, the
HTML parser, the encoder and the index are replaced by abstract inputs.

Modules, leaf first:

- `Wrappers` (`wrappers.dfy`): the `Option` type. `None` is Python's `None`.
- `Text` (`text.dfy`): Python's `str.strip()` with no argument. It removes the
  characters for which `str.isspace()` holds from both ends. `Strip` is
  characterised by two lemmas. `StripSlice` says its result is a slice of the
  input with only whitespace around it. `StripUnique` says any such cut whose
  middle has no whitespace at its edges is the result.
- `Scraper` (`scraper.dfy`): `scrape_professor_data`. The fetch is an input:
  a transport error, or a response with a status and the parsed page. The page
  is given as the texts of all `h1` elements and of all `p` elements, in
  document order. `Scrape` is the specification. `ScrapeProfessorData` is the
  step-by-step code with its loop, and it is proved equal to `Scrape`.
- `Store` (`store.dfy`): `process_and_store_data` as the upsert request it
  sends. The encoder is a function parameter `encode: string -> seq<T>`.
- `App` (`app.py`'s `home`, in `app.dfy`): the status message, whether the
  scraper runs, and what is upserted.

Four behaviours of the code are easy to miss:

- A fetch fails when `requests.get` raises a `RequestException` or when
  `raise_for_status()` raises. `raise_for_status()` raises only for a status from 400 to 599. So a
  1xx or 3xx response is scraped like a 2xx one, not treated as a failure.
- The review is not always the paragraphs joined by single spaces. A
  paragraph that strips to nothing still adds its trailing space, so a blank
  paragraph in the middle leaves two spaces (`BlankParagraphGivesDoubleSpace`).
  The single-space join holds only when every paragraph has some
  non-whitespace text (`ReviewIsJoin`).
- The name can be empty. A first `h1` whose text is only whitespace gives `""`
  (`BlankHeadingGivesEmptyName`).
- An exception raised while embedding or upserting is not caught by `home`.
  It does not turn into "Failed to scrape the data.", so the model has no such
  path.

## Model

| member | source | states |
|---|---|---|
| `Text.IsSpace` | app.py:58 | the characters `strip()` removes are Python's `isspace()` set: space, TAB, LF and CR are in it; no ASCII letter or digit is; nothing above U+3000 is |
| `Text.Strip` | app.py:58 | `strip()` leaves no whitespace at either edge and never lengthens the text |
| `Text.StripSlice` | app.py:64 | the stripped text is a slice of the input with only whitespace before and after it |
| `Text.StripUnique` | app.py:68 | any cut of a text into whitespace, a slice without edge whitespace, and whitespace gives exactly `strip()`'s result |
| `Text.StripDropsTrailingSpace` | app.py:64-68 | one space appended after any text makes no difference to `strip()` |
| `Scraper.RaisesForStatus` | app.py:42 | `raise_for_status()` raises for a status from 400 to 599: never for a 2xx, always for 404 and 500 |
| `Scraper.FetchFails` | app.py:40-46 | the scrape fails on any transport error (`RequestException`) and never on a 2xx response |
| `Scraper.ProfessorName` | app.py:49-58 | the name (the first `h1`'s stripped text, or "Richard Page") has no edge whitespace and is no longer than the first heading |
| `Scraper.ReviewAccum` | app.py:61-64 | the loop's string has at least one character per paragraph and, for any paragraph, ends with the appended space |
| `Scraper.ReviewText` | app.py:68 | the stored review has no edge whitespace and is shorter than the loop's string whenever there is a paragraph, so the loop's trailing space is removed |
| `Scraper.Scrape` | app.py:39-72 | the scraper returns `None` exactly when the fetch fails; a returned record's name and review have no edge whitespace |
| `Scraper.ScrapeProfessorData` | app.py:39-72 | the scraper (defaults, conditional name, the review reset to `""` and built by the append loop, then stripped) returns `None` on a failed fetch and otherwise the record `Scrape` describes |
| `Scraper.ScrapeOutcome` | app.py:40-53 | the scraper returns `None` exactly on a transport error or a 4xx/5xx status; otherwise subject, institution and stars are the three fixed constants whatever the page holds |
| `Scraper.NameFromFirstHeading` | app.py:49-58 | without an `h1` the name is "Richard Page"; with one it is the first `h1`'s stripped text, later `h1`s make no difference, and the name has no edge whitespace |
| `Scraper.BlankHeadingGivesEmptyName` | app.py:56-58 | a first `h1` whose text is all whitespace gives the empty name, not the default |
| `Scraper.ReviewShape` | app.py:61-68 | the review never has edge whitespace, and a page without paragraphs gives `""`, so the "No reviews available." default never survives |
| `Scraper.AccumIsStrippedJoin` | app.py:61-64 | for any non-empty list of paragraphs, the loop's string is the stripped paragraphs joined by single spaces, plus one trailing space |
| `Scraper.ReviewIsStrippedJoin` | app.py:61-68 | for any paragraphs, the review is `" ".join(p.strip() for p in paragraphs).strip()` |
| `Scraper.AccumIsJoin` | app.py:61-64 | when no paragraph strips to nothing, the loop's string is the stripped paragraphs joined by single spaces, plus one trailing space |
| `Scraper.ReviewIsJoin` | app.py:61-68 | when no paragraph strips to nothing, the review is exactly the stripped paragraphs, in order, joined by single spaces |
| `Scraper.BlankParagraphGivesDoubleSpace` | app.py:63-64 | a whitespace-only paragraph between two others leaves a double space: `["Clear", " ", "Kind"]` gives `"Clear  Kind"` |
| `Store.CombinedText` | app.py:77 | the embedded text is name, review, subject and institution, each at its own position in that order, with exactly one space between neighbours and nothing else |
| `Store.Widen` | app.py:83-84 | the widened vector has length 2N, and element i and element i + N both equal native element i |
| `Store.ProcessAndStoreData` | app.py:75-104 | one upsert in namespace "ns1" of exactly one vector: id is the professor's name; metadata has exactly the keys institution, review, stars, subject, copied from the record, and no professor key; the values are the encoding of the combined text, doubled |
| `Store.StoredWidth` | app.py:80-84 | a 768-wide encoding is stored as 1536 values whose two halves both equal the encoding |
| `Store.WidenInjective` | app.py:83 | doubling loses nothing: different native vectors give different stored vectors |
| `Store.SameTextSameVector` | app.py:77-84 | records with the same combined text get the same stored vector |
| `Store.SameNameSameId` | app.py:86-93 | records with the same name give two requests that carry the same id in the same namespace |
| `App.Home` | app.py:22-37 | a GET renders the index page and nothing else does; a POST shows one of the three messages; the scraper runs exactly for a POST with a non-empty URL; an upsert happens exactly when the success message is shown |
| `App.EmptyUrl` | app.py:26-35 | an empty URL gives "No URL provided." with no scrape and no upsert |
| `App.MessageCases` | app.py:26-35 | "No URL provided." exactly for an empty URL, "Failed to scrape the data." exactly for a non-empty URL whose fetch fails, and the success message exactly otherwise |
| `App.FailedFetch` | app.py:27-33 | a transport error or a 4xx/5xx status gives "Failed to scrape the data." and no upsert |
| `App.SuccessfulFetch` | app.py:27-31 | any other response gives the success message and exactly the upsert `process_and_store_data` builds from the scraped record: one vector in "ns1", named after the first heading (or "Richard Page"), whose metadata is the review and the three constants |
| `App.SinglePageExample` | app.py:55-68 | the page `<h1>Jane Doe</h1><p>Great at explaining concepts.</p>` is stored under id "Jane Doe" with review "Great at explaining concepts." |

## Left out

- Flask routing, `request.form` (a missing `url` key raises `KeyError`) and `render_template`: web I/O. Only the choice of page and message is modelled.
- `requests.get` and `raise_for_status()`: network I/O. The fetch is an input. Only the rule "raise for a status from 400 to 599" is modelled.
- HTML parsing (`BeautifulSoup`, `find`, `find_all`, `.text`): a foreign library. The page is given as its `h1` texts and `p` texts. An exception the parser raises on markup it rejects is not caught by the scraper (only `RequestException` is), so it escapes `home`; the model has no such path.
- `SentenceTransformer.encode`: an opaque model. It is a function parameter with a generic element type.
- The `float(...)` conversion: floating point. With a generic element type the model treats it as the identity.
- What the Pinecone index does with the upsert (overwrite of an existing id, `upserted_count`, `describe_index_stats`): an external service whose behaviour is not in this code. The model stops at the request sent.
- Exceptions raised while embedding or upserting: they escape `home` as an error response. The model has no such path and does not map them to a message.
- `print` logging, `load_dotenv`, reading the API key, the warnings filter, and the client and index setup: process setup and output.
