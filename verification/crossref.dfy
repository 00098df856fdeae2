/**
 The SciELO adapter (`fetchScieloViaCrossref`), which searches the Crossref
 works endpoint restricted to DOI prefixes of SciELO journals: the `filter`
 parameter built from the date bounds and the prefix allow-list, and the
 mapping of each returned work into a normalised record.
 */
module Crossref {
  import opened Js
  import opened Text
  import opened Records

  /** DOI prefixes of SciELO journals the search is restricted to. */
  const ScieloPrefixes: seq<string> := ["10.1590", "10.4025", "10.11606", "10.18634", "10.17533"]

  const ScieloLabel := "SciELO (vía Crossref)"
  const CrossrefError := "Error consultando Crossref para SciELO"
  const DefaultRows := 50
  const DoiResolver := "https://doi.org/"

  // ---------------------------------------------------------------------------
  // Request
  // ---------------------------------------------------------------------------

  /** The date terms of the filter: `from` before `until`, each only when set. */
  function DateTerms(from: string, to: string): seq<string> {
    (if from != "" then ["from-pub-date:" + from] else [])
    + (if to != "" then ["until-pub-date:" + to] else [])
  }

  /** One `prefix:` term per DOI prefix, in list order. */
  function PrefixTerms(prefixes: seq<string>): seq<string> {
    seq(|prefixes|, i requires 0 <= i < |prefixes| => "prefix:" + prefixes[i])
  }

  predicate NoneEmpty(parts: seq<string>) {
    forall k :: 0 <= k < |parts| ==> parts[k] != ""
  }

  lemma {:induction false} JoinEmptyIffNoParts(parts: seq<string>, sep: string)
    requires NoneEmpty(parts)
    ensures Join(parts, sep) == "" <==> parts == []
  {
    if |parts| > 1 {
      assert |Join(parts, sep)| >= |parts[0]|;
    }
  }

  /** The `filter` parameter: the date terms joined with commas, then the
      prefix terms after one more comma; not set at all when both are empty. */
  function FilterParam(from: string, to: string, prefixes: seq<string>): Option<string> {
    var filter := Join(DateTerms(from, to), ",");
    var prefixQuery := Join(PrefixTerms(prefixes), ",");
    if filter != "" then Some(filter + (if prefixQuery != "" then "," + prefixQuery else ""))
    else if prefixQuery != "" then Some(prefixQuery)
    else None
  }

  /** The filter is all its terms, date terms first, joined with commas, and
      is left unset exactly when there are no terms. */
  lemma FilterParamIsJoin(from: string, to: string, prefixes: seq<string>)
    ensures var terms := DateTerms(from, to) + PrefixTerms(prefixes);
      FilterParam(from, to, prefixes) == if terms == [] then None else Some(Join(terms, ","))
  {
    var dates := DateTerms(from, to);
    var prefixTerms := PrefixTerms(prefixes);
    var filter := Join(dates, ",");
    var prefixQuery := Join(prefixTerms, ",");
    assert filter == "" <==> dates == [] by {
      JoinEmptyIffNoParts(dates, ",");
    }
    assert prefixQuery == "" <==> prefixTerms == [] by {
      JoinEmptyIffNoParts(prefixTerms, ",");
    }
    if dates == [] {
      assert dates + prefixTerms == prefixTerms;
    } else if prefixTerms == [] {
      assert dates + prefixTerms == dates;
      assert filter + "" == filter;
    } else {
      assert Join(dates + prefixTerms, ",") == filter + ("," + prefixQuery) by {
        JoinAppend(dates, prefixTerms, ",");
      }
    }
  }

  /** The filter reads back, comma by comma, as the present date bounds in
      from-then-until order followed by one `prefix:` term per allow-listed
      prefix, in list order, as long as no value contains a comma. */
  lemma FilterTerms(from: string, to: string, prefixes: seq<string>)
    requires ',' !in from && ',' !in to
    requires forall i :: 0 <= i < |prefixes| ==> ',' !in prefixes[i]
    ensures FilterParam(from, to, prefixes).Some? <==> from != "" || to != "" || prefixes != []
    ensures FilterParam(from, to, prefixes).Some? ==>
      Split(FilterParam(from, to, prefixes).value, ',')
      == (if from != "" then ["from-pub-date:" + from] else [])
         + (if to != "" then ["until-pub-date:" + to] else [])
         + seq(|prefixes|, i requires 0 <= i < |prefixes| => "prefix:" + prefixes[i])
  {
    FilterParamIsJoin(from, to, prefixes);
    var terms := DateTerms(from, to) + PrefixTerms(prefixes);
    if terms != [] {
      forall k | 0 <= k < |terms|
        ensures ',' !in terms[k]
      {
        if k >= |DateTerms(from, to)| {
          var i := k - |DateTerms(from, to)|;
          assert terms[k] == "prefix:" + prefixes[i];
        } else {
          assert terms[k] == DateTerms(from, to)[k];
          assert terms[k] == "from-pub-date:" + from || terms[k] == "until-pub-date:" + to;
        }
      }
      SplitJoin(terms, ',');
    }
  }

  /** The query parameters of the works request, in insertion order. */
  function CrossrefParams(q: string, from: string, to: string, rows: int, prefixes: seq<string>): (ps: seq<(string, string)>)
    ensures |ps| >= 2 && ps[0] == ("query", q) && ps[1].0 == "rows"
    ensures ps[1].1 == IntToString(rows)
    ensures |ps| == 3 <==> FilterParam(from, to, prefixes).Some?
    ensures |ps| == 3 ==> ps[2] == ("filter", FilterParam(from, to, prefixes).value)
  {
    [("query", q), ("rows", IntToString(rows))]
    + match FilterParam(from, to, prefixes)
      case Some(f) => [("filter", f)]
      case None => []
  }

  // ---------------------------------------------------------------------------
  // Response
  // ---------------------------------------------------------------------------

  /** The `title` member of a work: an array of title variants, or a single
      value that may be a string or missing. */
  datatype TitleField = TitleList(titles: seq<string>) | TitleValue(value: Str)

  /** One entry of a work's `author` array. */
  datatype Contributor = Contributor(given: Str, family: Str)

  /** The members of one work the mapping reads. `author`, `date-parts` and
      `container-title` are empty when missing. */
  datatype Work = Work(
    title: TitleField,
    author: seq<Contributor>,
    dateParts: seq<int>,
    doi: Str,
    url: Str,
    containerTitle: seq<string>)

  /** The `message` of a works response. */
  datatype Message = Message(items: seq<Work>, totalResults: Option<int>)

  /** The title of a work: the first variant when the member is an array
      (`undefined` for an empty array), otherwise the value itself when it
      is truthy, else the placeholder title. */
  function WorkTitle(t: TitleField): (r: Str)
    ensures r.Undefined? <==> t == TitleList([])
    ensures t.TitleList? && |t.titles| > 0 ==> r == Text(t.titles[0])
    ensures t.TitleValue? ==> Truthy(r)
    ensures t.TitleValue? && Truthy(t.value) ==> r == t.value
    ensures t.TitleValue? && !Truthy(t.value) ==> r == Text(NoTitle)
  {
    match t
    case TitleList(titles) => First(titles)
    case TitleValue(v) => Or(v, Text(NoTitle))
  }

  /** The truthy values among `vs`, in order. */
  function Present(vs: seq<Str>): (r: seq<string>)
    ensures NoneEmpty(r)
  {
    if |vs| == 0 then []
    else (if Truthy(vs[0]) then [vs[0].s] else []) + Present(vs[1..])
  }

  /** The display name of a contributor: the present ones of given and
      family name, separated by a space. */
  function AuthorName(a: Contributor): (r: string)
    ensures r == "" <==> !Truthy(a.given) && !Truthy(a.family)
    ensures Truthy(a.given) && Truthy(a.family) ==> r == a.given.s + " " + a.family.s
    ensures Truthy(a.given) && !Truthy(a.family) ==> r == a.given.s
    ensures !Truthy(a.given) && Truthy(a.family) ==> r == a.family.s
  {
    var g := if Truthy(a.given) then [a.given.s] else [];
    var f := if Truthy(a.family) then [a.family.s] else [];
    assert Present([a.given, a.family]) == g + f by {
      assert [a.given, a.family][1..] == [a.family];
      assert [a.family][1..] == [];
      assert Present([a.family]) == f + [];
    }
    assert Truthy(a.given) && Truthy(a.family) ==> Join(g + f, " ") == a.given.s + " " + a.family.s by {
      if Truthy(a.given) && Truthy(a.family) {
        assert g + f == [a.given.s, a.family.s];
        assert [a.given.s, a.family.s][1..] == [a.family.s];
      }
    }
    Join(g + f, " ")
  }

  predicate HasName(a: Contributor) {
    Truthy(a.given) || Truthy(a.family)
  }

  /** The display names of a work's contributors, in order, leaving out
      contributors without a name. */
  function Authors(cs: seq<Contributor>): (r: seq<string>)
    ensures |r| <= |cs|
    ensures NoneEmpty(r)
    ensures forall c :: c in cs && HasName(c) ==> AuthorName(c) in r
    ensures forall k :: 0 <= k < |r| ==> exists c :: c in cs && HasName(c) && r[k] == AuthorName(c)
  {
    if |cs| == 0 then []
    else
      var rest := Authors(cs[1..]);
      assert forall c :: c in cs[1..] ==> c in cs;
      var name := AuthorName(cs[0]);
      (if name != "" then [name] else []) + rest
  }

  /** Authors are named contributor by contributor, in order. */
  lemma {:induction false} AuthorsAppend(a: seq<Contributor>, b: seq<Contributor>)
    ensures Authors(a + b) == Authors(a) + Authors(b)
  {
    if |a| > 0 {
      assert (a + b)[1..] == a[1..] + b;
      AuthorsAppend(a[1..], b);
    } else {
      assert a + b == b;
    }
  }

  /** Date part `i`, with a missing or zero part counting as 1. */
  function PartOrOne(parts: seq<int>, i: nat): int {
    if i < |parts| && parts[i] != 0 then parts[i] else 1
  }

  /** The decimal numeral of `n`, left-padded with zeros to two characters. */
  function TwoDigits(n: int): string {
    PadStart(IntToString(n), 2, '0')
  }

  /** The date of a work from its date parts: empty when there are none,
      otherwise the year, a dash, the month, a dash and the day, a missing or
      zero month or day counting as 1. */
  function WorkDate(parts: seq<int>): (r: string)
    ensures r == "" <==> parts == []
  {
    if |parts| == 0 then ""
    else IntToString(parts[0]) + "-" + TwoDigits(PartOrOne(parts, 1)) + "-" + TwoDigits(PartOrOne(parts, 2))
  }

  lemma TwoDigitsLength(n: int)
    requires 0 <= n <= 99
    ensures |TwoDigits(n)| == 2
  {
    assert |Decimal(n)| <= 2;
  }

  /** Month and day below 100 are padded to exactly two digits, so the date
      is six characters longer than its year. */
  lemma WorkDateLength(parts: seq<int>)
    requires parts != []
    requires |parts| > 1 ==> 0 <= parts[1] <= 99
    requires |parts| > 2 ==> 0 <= parts[2] <= 99
    ensures |WorkDate(parts)| == |IntToString(parts[0])| + 6
  {
    TwoDigitsLength(PartOrOne(parts, 1));
    TwoDigitsLength(PartOrOne(parts, 2));
  }

  /** Reading a `year-month-day` date back: three dash-separated, non-empty
      decimal fields. */
  function ReadDate(s: string): Option<(nat, nat, nat)> {
    var fields := Split(s, '-');
    if && |fields| == 3
       && fields[0] != "" && IsDigits(fields[0])
       && fields[1] != "" && IsDigits(fields[1])
       && fields[2] != "" && IsDigits(fields[2])
    then Some((ParseDecimal(fields[0]), ParseDecimal(fields[1]), ParseDecimal(fields[2])))
    else None
  }

  lemma TwoDigitsReadsBack(n: nat)
    ensures |TwoDigits(n)| >= 2 && IsDigits(TwoDigits(n))
    ensures ParseDecimal(TwoDigits(n)) == n
  {
    var s := IntToString(n);
    DecimalRoundTrip(n);
    if |s| < 2 {
      assert TwoDigits(n) == "0" + s;
      LeadingZero(s);
    }
  }

  lemma ReadDateFields(y: string, m: string, d: string)
    requires y != "" && IsDigits(y) && m != "" && IsDigits(m) && d != "" && IsDigits(d)
    ensures ReadDate(y + "-" + m + "-" + d) == Some((ParseDecimal(y), ParseDecimal(m), ParseDecimal(d)))
  {
    assert [y, m, d][1..] == [m, d];
    assert [m, d][1..] == [d];
    assert Join([m, d], "-") == m + "-" + d;
    assert Join([y, m, d], "-") == y + "-" + m + "-" + d;
    assert forall s: string :: IsDigits(s) ==> '-' !in s;
    SplitJoin([y, m, d], '-');
  }

  /** A date built from non-negative parts reads back as the year, the month
      and the day, with missing or zero month and day read as 1. */
  lemma WorkDateRoundTrip(parts: seq<int>)
    requires |parts| > 0
    requires forall i :: 0 <= i < |parts| ==> parts[i] >= 0
    ensures ReadDate(WorkDate(parts)) == Some((
      parts[0],
      if |parts| > 1 && parts[1] != 0 then parts[1] else 1,
      if |parts| > 2 && parts[2] != 0 then parts[2] else 1))
  {
    DecimalRoundTrip(parts[0]);
    TwoDigitsReadsBack(PartOrOne(parts, 1));
    TwoDigitsReadsBack(PartOrOne(parts, 2));
    ReadDateFields(IntToString(parts[0]), TwoDigits(PartOrOne(parts, 1)), TwoDigits(PartOrOne(parts, 2)));
  }

  lemma TwoDigitsOfOneDigit(n: int)
    requires 0 <= n < 10
    ensures TwoDigits(n) == ['0', DigitChar(n)]
  {
    assert IntToString(n) == [DigitChar(n)];
    assert seq(1, _ => '0') == ['0'];
  }

  lemma Year2021()
    ensures IntToString(2021) == "2021"
  {
    assert Decimal(2) == "2";
    assert Decimal(20) == Decimal(2) + "0";
    assert Decimal(202) == Decimal(20) + "2";
    assert Decimal(2021) == Decimal(202) + "1";
  }

  /** The dates of a year, of a year and month, and of a zero month and day. */
  lemma WorkDateExamples()
    ensures WorkDate([2021]) == "2021-01-01"
    ensures WorkDate([2021, 7]) == "2021-07-01"
    ensures WorkDate([2021, 0, 0]) == "2021-01-01"
  {
    Year2021();
    TwoDigitsOfOneDigit(1);
    TwoDigitsOfOneDigit(7);
    assert DigitChar(1) == '1' && DigitChar(7) == '7';
    assert WorkDate([2021]) == "2021" + "-" + "01" + "-" + "01" == "2021-01-01";
    assert WorkDate([2021, 7]) == "2021" + "-" + "07" + "-" + "01" == "2021-07-01";
    assert WorkDate([2021, 0, 0]) == "2021" + "-" + "01" + "-" + "01";
  }

  lemma TwoDigits15()
    ensures TwoDigits(15) == "15"
  {
    assert Decimal(15) == Decimal(1) + [DigitChar(5)];
    assert DigitChar(1) == '1' && DigitChar(5) == '5';
  }

  /** The date of a full year, month and day. */
  lemma WorkDateFullExample()
    ensures WorkDate([2021, 7, 15]) == "2021-07-15"
  {
    assert "2021" + "-" + "07" + "-" + "15" == "2021-07-15";
    var parts := [2021, 7, 15];
    var y, m, d := IntToString(2021), TwoDigits(7), TwoDigits(15);
    assert WorkDate(parts) == y + "-" + m + "-" + d by {
      assert PartOrOne(parts, 1) == 7 && PartOrOne(parts, 2) == 15;
    }
    assert y == "2021" by { Year2021(); }
    assert m == "07" by { TwoDigitsOfOneDigit(7); assert DigitChar(7) == '7'; }
    assert d == "15" by { TwoDigits15(); }
  }

  /** The link of a work: its own URL when truthy, else the DOI resolver
      link when it has a DOI, else empty. */
  function WorkUrl(url: Str, doi: Str): string {
    if Truthy(url) then url.s
    else if Truthy(doi) then DoiResolver + doi.s
    else ""
  }

  /** The record one work maps to. */
  function MapWork(w: Work): (r: Record)
    ensures r.title == WorkTitle(w.title)
    ensures r.authors == Authors(w.author) && r.date == WorkDate(w.dateParts)
    ensures r.doi == w.doi && r.subjects == []
    ensures r.journal == if |w.containerTitle| > 0 then w.containerTitle[0] else ""
    ensures r.source == ScieloLabel
    // URL: the explicit link, else the DOI resolver link, else ""
    ensures Truthy(w.url) ==> r.url == w.url.s
    ensures !Truthy(w.url) && Truthy(w.doi) ==> r.url == DoiResolver + w.doi.s
    ensures !Truthy(w.url) && !Truthy(w.doi) ==> r.url == ""
    // id: DOI, else URL, else title
    ensures Truthy(w.doi) ==> r.id == w.doi
    ensures !Truthy(w.doi) && r.url != "" ==> r.id == Text(r.url)
    ensures !Truthy(w.doi) && r.url == "" ==> r.id == r.title
  {
    var title := WorkTitle(w.title);
    var url := WorkUrl(w.url, w.doi);
    var journal := OrElse(First(w.containerTitle), "");
    var id := Or(w.doi, Or(Text(url), title));
    Record(id, title, Authors(w.author), [], WorkDate(w.dateParts), w.doi, url, journal, ScieloLabel)
  }

  /** Unlike a harvested record, a mapped work can end up with an empty or
      undefined id: exactly when it has neither DOI nor link and its title
      array is empty or starts with an empty title. */
  lemma {:induction false} WorkIdFalsy(w: Work)
    ensures !Truthy(MapWork(w).id) <==>
      && !Truthy(w.doi) && !Truthy(w.url)
      && w.title.TitleList? && (w.title.titles == [] || w.title.titles[0] == "")
  {
    var r := MapWork(w);
    if Truthy(w.doi) || Truthy(w.url) {
      assert r.url != "" || Truthy(w.doi);
    }
  }

  /** `fetchScieloViaCrossref` after the request: fail on a transport error
      or a non-ok status; otherwise map every work, and report the upstream
      total when it is truthy, else the number of mapped works. */
  function FetchScielo(response: Fetched<Message>): (o: Outcome)
    ensures response.Failed? ==> o == Rejected(response.reason)
    ensures response.Responded? && !response.ok ==> o == Rejected(CrossrefError)
    ensures response.Responded? && response.ok ==>
      && o.Fulfilled?
      && |o.items| == |response.body.items|
      && (forall i :: 0 <= i < |o.items| ==> o.items[i] == MapWork(response.body.items[i]))
      && o.total == if TruthyNumber(response.body.totalResults) then response.body.totalResults.value else |o.items|
  {
    match response
    case Failed(reason) => Rejected(reason)
    case Responded(ok, body) =>
      if !ok then Rejected(CrossrefError)
      else
        var items := seq(|body.items|, i requires 0 <= i < |body.items| => MapWork(body.items[i]));
        var total := if TruthyNumber(body.totalResults) then body.totalResults.value else |items|;
        Fulfilled(items, total)
  }
}
