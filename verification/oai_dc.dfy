/**
 Field mapping of the OAI-PMH `oai_dc` parser: how one harvested record's
 Dublin Core values become a normalised record. Reading the XML document
 and collecting each tag's trimmed text is outside the model; a record
 arrives as the lists of values per field.
 */
module OaiDc {
  import opened Js
  import opened Text
  import opened Records

  /** Provenance label of every harvested record, also the journal fallback. */
  const RedalycLabel := "Redalyc"

  const DoiPrefix := "10."
  const UrlPrefix := "http"

  /** The Dublin Core values of one record: for each field, the trimmed text
      of every element carrying that tag, in document order. */
  datatype DcFields = DcFields(
    titles: seq<string>,
    creators: seq<string>,
    subjects: seq<string>,
    dates: seq<string>,
    identifiers: seq<string>,
    sources: seq<string>)

  /** `xs[k]` is the first element of `xs` that starts with `prefix`. */
  predicate FirstMatch(xs: seq<string>, prefix: string, k: int) {
    && 0 <= k < |xs|
    && StartsWith(xs[k], prefix)
    && forall j :: 0 <= j < k ==> !StartsWith(xs[j], prefix)
  }

  /** The index of the first element starting with `prefix`, or -1 when
      there is none. */
  function FindIndex(xs: seq<string>, prefix: string): (k: int)
    ensures k == -1 || FirstMatch(xs, prefix, k)
    ensures k == -1 <==> forall j :: 0 <= j < |xs| ==> !StartsWith(xs[j], prefix)
  {
    if |xs| == 0 then -1
    else if StartsWith(xs[0], prefix) then 0
    else
      var k := FindIndex(xs[1..], prefix);
      assert forall j :: 1 <= j < |xs| ==> xs[j] == xs[1..][j - 1];
      if k == -1 then -1 else k + 1
  }

  /** The first element starting with `prefix`, or `""` when there is none. */
  function FirstWithPrefix(xs: seq<string>, prefix: string): string {
    var k := FindIndex(xs, prefix);
    OrElse(if k == -1 then Undefined else Text(xs[k]), "")
  }

  /** The record built from one harvested `oai_dc` element. */
  function ParseRecord(f: DcFields): (r: Record)
    // title: the first title, unless it is missing or empty
    ensures r.title == Text(if |f.titles| > 0 && f.titles[0] != "" then f.titles[0] else NoTitle)
    // DOI and URL: the first identifier with the respective prefix, else ""
    ensures r.doi.Text?
    ensures r.doi.s == "" <==> forall j :: 0 <= j < |f.identifiers| ==> !StartsWith(f.identifiers[j], DoiPrefix)
    ensures r.doi.s != "" ==> exists k :: FirstMatch(f.identifiers, DoiPrefix, k) && f.identifiers[k] == r.doi.s
    ensures r.url == "" <==> forall j :: 0 <= j < |f.identifiers| ==> !StartsWith(f.identifiers[j], UrlPrefix)
    ensures r.url != "" ==> exists k :: FirstMatch(f.identifiers, UrlPrefix, k) && f.identifiers[k] == r.url
    // id: URL, else DOI, else title; never empty
    ensures r.id.Text? && r.id.s != ""
    ensures r.url != "" ==> r.id.s == r.url
    ensures r.url == "" && r.doi.s != "" ==> r.id == r.doi
    ensures r.url == "" && r.doi.s == "" ==> r.id == r.title
    // the other fields
    ensures r.authors == f.creators && r.subjects == f.subjects
    ensures r.date == if |f.dates| > 0 then f.dates[0] else ""
    ensures r.journal == if |f.sources| > 0 && f.sources[0] != "" then f.sources[0] else RedalycLabel
    ensures r.source == RedalycLabel
  {
    var title := OrElse(First(f.titles), NoTitle);
    var date := OrElse(First(f.dates), "");
    var doi := FirstWithPrefix(f.identifiers, DoiPrefix);
    var url := FirstWithPrefix(f.identifiers, UrlPrefix);
    var journal := OrElse(First(f.sources), RedalycLabel);
    var id := OrElse(Text(url), OrElse(Text(doi), title));
    Record(Text(id), Text(title), f.creators, f.subjects, date, Text(doi), url, journal, RedalycLabel)
  }

  /** `parseOaiDc`: one record per harvested element, in document order. */
  function ParseOaiDc(records: seq<DcFields>): (rs: seq<Record>)
    ensures |rs| == |records|
    ensures forall i :: 0 <= i < |rs| ==> rs[i] == ParseRecord(records[i])
  {
    seq(|records|, i requires 0 <= i < |records| => ParseRecord(records[i]))
  }
}
