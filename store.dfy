/**
 `process_and_store_data`: turn a scraped record into the single vector that is
 upserted into the index.

 The sentence encoder is a parameter `encode` that maps a text to its native
 vector; the element type `T` stands for the encoder's numbers, so no floating
 point is involved. The upsert itself is not modelled: the result is the
 request that is sent.
 */
module Store {
  import opened Scraper

  /** One entry of the `vectors` list given to the index. */
  datatype VectorRecord<T> = VectorRecord(id: string, values: seq<T>, metadata: map<string, string>)

  /** The arguments of one upsert call. */
  datatype UpsertRequest<T> = UpsertRequest(vectors: seq<VectorRecord<T>>, namespace: string)

  const Namespace: string := "ns1"

  /** The four metadata keys; the professor's name is not among them. */
  const MetadataKeys: set<string> := {"institution", "review", "stars", "subject"}

  /** The text that is embedded: name, review, subject and institution, each
      separated by one space: each field sits at its own place, in that order,
      with one space between neighbours. */
  function CombinedText(data: ProfessorData): (text: string)
    ensures |text| == |data.professor| + |data.review| + |data.subject| + |data.institution| + 3
    ensures var p, r, s := |data.professor|, |data.review|, |data.subject|;
      && text[..p] == data.professor && text[p] == ' '
      && text[p + 1..p + 1 + r] == data.review && text[p + 1 + r] == ' '
      && text[p + 2 + r..p + 2 + r + s] == data.subject && text[p + 2 + r + s] == ' '
      && text[p + 3 + r + s..] == data.institution
  {
    data.professor + " " + data.review + " " + data.subject + " " + data.institution
  }

  /** The width adaptation: the native vector followed by itself. */
  function Widen<T>(native: seq<T>): (wide: seq<T>)
    ensures |wide| == 2 * |native|
    ensures forall i | 0 <= i < |native| :: wide[i] == native[i] && wide[i + |native|] == native[i]
  {
    native + native
  }

  /** The request `process_and_store_data` sends for `data`. */
  function ProcessAndStoreData<T>(data: ProfessorData, encode: string -> seq<T>): (request: UpsertRequest<T>)
    ensures request.namespace == "ns1" && |request.vectors| == 1
    ensures request.vectors[0].id == data.professor
    ensures request.vectors[0].metadata.Keys == MetadataKeys && "professor" !in request.vectors[0].metadata
    ensures var m := request.vectors[0].metadata;
      m["institution"] == data.institution && m["review"] == data.review
      && m["stars"] == data.stars && m["subject"] == data.subject
    ensures var native := encode(CombinedText(data));
      var values := request.vectors[0].values;
      |values| == 2 * |native|
      && forall i | 0 <= i < |native| :: values[i] == native[i] && values[i + |native|] == native[i]
  {
    var record := VectorRecord(
      data.professor,
      Widen(encode(CombinedText(data))),
      map["institution" := data.institution, "review" := data.review,
          "stars" := data.stars, "subject" := data.subject]);
    UpsertRequest([record], Namespace)
  }

  /** A 768-wide encoder output is stored as a 1536-wide vector whose second
      half repeats the first. */
  lemma StoredWidth<T>(data: ProfessorData, encode: string -> seq<T>)
    requires |encode(CombinedText(data))| == 768
    ensures var values := ProcessAndStoreData(data, encode).vectors[0].values;
      |values| == 1536 && values[..768] == values[768..] == encode(CombinedText(data))
  {
    var native := encode(CombinedText(data));
    var values := ProcessAndStoreData(data, encode).vectors[0].values;
    assert values[..768] == native;
    assert values[768..] == native;
  }

  /** The doubling loses nothing: the native vector is recovered from either
      half, so two different native vectors never give the same stored one. */
  lemma WidenInjective<T>(a: seq<T>, b: seq<T>)
    requires Widen(a) == Widen(b)
    ensures a == b
  {
    assert |a| == |b|;
    assert forall i | 0 <= i < |a| :: a[i] == Widen(a)[i] == Widen(b)[i] == b[i];
  }

  /** The stored vector depends on the record only through the combined text:
      two records with the same combined text get the same vector, even when
      their fields differ. */
  lemma SameTextSameVector<T>(d1: ProfessorData, d2: ProfessorData, encode: string -> seq<T>)
    requires CombinedText(d1) == CombinedText(d2)
    ensures ProcessAndStoreData(d1, encode).vectors[0].values
         == ProcessAndStoreData(d2, encode).vectors[0].values
  {
  }

  /** Two records with the same name give two requests that carry the same id
      in the same namespace. */
  lemma SameNameSameId<T>(d1: ProfessorData, d2: ProfessorData, encode: string -> seq<T>)
    requires d1.professor == d2.professor
    ensures ProcessAndStoreData(d1, encode).vectors[0].id == ProcessAndStoreData(d2, encode).vectors[0].id
    ensures ProcessAndStoreData(d1, encode).namespace == ProcessAndStoreData(d2, encode).namespace
  {
  }
}
