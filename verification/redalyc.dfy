/**
 The Redalyc adapter (`fetchRedalyc`): the OAI-PMH request parameters, the
 client-side keyword filter over the harvested records, and the client-side
 pagination of what is left. The protocol has no keyword search, so the
 keyword is matched here, as a literal case-insensitive substring of the
 title or of any subject.
 */
module Redalyc {
  import opened Js
  import opened Text
  import opened Records
  import opened OaiDc

  const RedalycError := "Error consultando Redalyc OAI-PMH"
  const DefaultPage := 1
  const DefaultPageSize := 50

  // ---------------------------------------------------------------------------
  // Request
  // ---------------------------------------------------------------------------

  /** The query parameters of the `ListRecords` request, in insertion order:
      the verb and metadata format, then each date bound that is set. */
  function OaiParams(from: string, to: string): (ps: seq<(string, string)>)
    ensures |ps| >= 2 && ps[..2] == [("verb", "ListRecords"), ("metadataPrefix", "oai_dc")]
    ensures ("from", from) in ps <==> from != ""
    ensures ("until", to) in ps <==> to != ""
    ensures |ps| == 2 + (if from != "" then 1 else 0) + (if to != "" then 1 else 0)
  {
    [("verb", "ListRecords"), ("metadataPrefix", "oai_dc")]
    + (if from != "" then [("from", from)] else [])
    + (if to != "" then [("until", to)] else [])
  }

  // ---------------------------------------------------------------------------
  // Keyword as a regular expression
  // ---------------------------------------------------------------------------

  /** The characters the keyword's escaping prefixes with a backslash. */
  predicate IsMetaChar(c: char) {
    c in {'.', '*', '+', '?', '^', '$', '{', '}', '(', ')', '|', '[', ']', '\\'}
  }

  /** The keyword made safe for a regular expression: every metacharacter
      gets a backslash in front of it. */
  function Escape(q: string): (p: string)
    ensures |p| >= |q|
    ensures q == "" <==> p == ""
  {
    if |q| == 0 then ""
    else (if IsMetaChar(q[0]) then ['\\', q[0]] else [q[0]]) + Escape(q[1..])
  }

  /** The literal text a regular-expression source stands for when it is
      made only of ordinary characters and backslash-escaped metacharacters;
      `None` for a source that uses any other regular-expression syntax. */
  function LiteralOf(p: string): Option<string>
    decreases |p|
  {
    if |p| == 0 then Some("")
    else if p[0] == '\\' then
      if |p| >= 2 && IsMetaChar(p[1]) then
        match LiteralOf(p[2..])
        case Some(rest) => Some([p[1]] + rest)
        case None => None
      else None
    else if IsMetaChar(p[0]) then None
    else
      match LiteralOf(p[1..])
      case Some(rest) => Some([p[0]] + rest)
      case None => None
  }

  /** The escaped keyword is a regular expression for exactly the keyword:
      no character of it keeps a special meaning. */
  lemma {:induction false} EscapeIsLiteral(q: string)
    ensures LiteralOf(Escape(q)) == Some(q)
  {
    if |q| > 0 {
      EscapeIsLiteral(q[1..]);
      var p := Escape(q);
      if IsMetaChar(q[0]) {
        assert p[2..] == Escape(q[1..]);
      } else {
        assert p[1..] == Escape(q[1..]);
      }
      assert [q[0]] + q[1..] == q;
    }
  }

  /** A case-insensitive regular-expression test, for the literal fragment of
      regular expressions; a source outside that fragment matches nothing
      in this model. */
  predicate RegexTest(pattern: string, text: string) {
    match LiteralOf(pattern)
    case Some(literal) => ContainsIgnoringCase(text, literal)
    case None => false
  }

  // ---------------------------------------------------------------------------
  // Keyword filter
  // ---------------------------------------------------------------------------

  /** The pattern matches the record's title, read as text, or one of its subjects. */
  predicate RecordTest(pattern: string, x: Record) {
    || RegexTest(pattern, ToText(x.title))
    || exists j :: 0 <= j < |x.subjects| && RegexTest(pattern, x.subjects[j])
  }

  /** The records the pattern matches, in their order. */
  function Keep(items: seq<Record>, pattern: string): (r: seq<Record>)
    ensures |r| <= |items|
    ensures forall x :: x in r <==> x in items && RecordTest(pattern, x)
  {
    if |items| == 0 then []
    else
      (if RecordTest(pattern, items[0]) then [items[0]] else [])
      + Keep(items[1..], pattern)
  }

  /** Filtering distributes over concatenation, so each element is kept or
      dropped on its own, and the kept ones stay in order. */
  lemma {:induction false} KeepAppend(a: seq<Record>, b: seq<Record>, pattern: string)
    ensures Keep(a + b, pattern) == Keep(a, pattern) + Keep(b, pattern)
  {
    if |a| > 0 {
      assert (a + b)[1..] == a[1..] + b;
      KeepAppend(a[1..], b, pattern);
    } else {
      assert a + b == b;
    }
  }

  /** `a` is `b` with some elements left out, the rest in their order. */
  predicate IsSubsequence<T(==)>(a: seq<T>, b: seq<T>)
    decreases |b|
  {
    || |a| == 0
    || (&& |b| > 0
        && (|| IsSubsequence(a, b[1..])
            || (a[0] == b[0] && IsSubsequence(a[1..], b[1..]))))
  }

  lemma {:induction false} KeepIsSubsequence(items: seq<Record>, pattern: string)
    ensures IsSubsequence(Keep(items, pattern), items)
    decreases |items|
  {
    if |items| > 0 {
      KeepIsSubsequence(items[1..], pattern);
      var r := Keep(items, pattern);
      if RecordTest(pattern, items[0]) {
        assert r[1..] == Keep(items[1..], pattern);
      } else {
        assert r == Keep(items[1..], pattern);
      }
    }
  }

  /** The reference reading of the filter: the keyword occurs, ignoring case
      and as plain text, in the title or in some subject. */
  predicate Mentions(x: Record, q: string) {
    || ContainsIgnoringCase(ToText(x.title), q)
    || exists j :: 0 <= j < |x.subjects| && ContainsIgnoringCase(x.subjects[j], q)
  }

  /** The keyword filter of `fetchRedalyc`: every record when the keyword is
      empty, otherwise the records the escaped keyword matches. */
  function KeywordFilter(items: seq<Record>, q: string): (r: seq<Record>)
    ensures q == "" ==> r == items
    ensures IsSubsequence(r, items)
    ensures forall x :: x in r <==> x in items && (q == "" || Mentions(x, q))
  {
    if q == "" then
      assert IsSubsequence(items, items) by { SubsequenceRefl(items); }
      items
    else
      EscapeIsLiteral(q);
      KeepIsSubsequence(items, Escape(q));
      Keep(items, Escape(q))
  }

  /** The keyword filter judges each record on its own and keeps the order:
      filtering a concatenation filters each part. */
  lemma KeywordFilterAppend(a: seq<Record>, b: seq<Record>, q: string)
    ensures KeywordFilter(a + b, q) == KeywordFilter(a, q) + KeywordFilter(b, q)
  {
    if q != "" {
      KeepAppend(a, b, Escape(q));
    }
  }

  /** A single record survives the keyword filter exactly when the keyword
      is empty or the record mentions it. With `KeywordFilterAppend`, this
      fixes the filtered list, repeats included, and so the reported total. */
  lemma KeywordFilterOne(x: Record, q: string)
    ensures KeywordFilter([x], q) == if q == "" || Mentions(x, q) then [x] else []
  {
    if q != "" {
      EscapeIsLiteral(q);
      assert RecordTest(Escape(q), x) <==> Mentions(x, q);
      assert [x][1..] == [];
    }
  }

  lemma {:induction false} SubsequenceRefl<T>(a: seq<T>)
    ensures IsSubsequence(a, a)
    decreases |a|
  {
    if |a| > 0 {
      SubsequenceRefl(a[1..]);
    }
  }

  // ---------------------------------------------------------------------------
  // Pagination
  // ---------------------------------------------------------------------------

  function Min(a: int, b: int): int {
    if a <= b then a else b
  }

  /** The position `Array.prototype.slice` makes of an index argument:
      counted from the end when negative, clamped to `[0, len]`. */
  function RelativeIndex(i: int, len: nat): (k: nat)
    ensures k <= len
  {
    if i < 0 then (if len + i < 0 then 0 else len + i)
    else Min(i, len)
  }

  /** `s.slice(start, end)` */
  function Slice<T>(s: seq<T>, start: int, end: int): seq<T> {
    var from := RelativeIndex(start, |s|);
    var to := RelativeIndex(end, |s|);
    if from < to then s[from..to] else []
  }

  /** Where page `page` starts: after `page - 1` whole pages. */
  function PageStart(page: int, pageSize: int): (start: int)
    ensures page >= 1 && pageSize >= 0 ==> 0 <= start <= start + pageSize
  {
    (page - 1) * pageSize
  }

  /** Page `page` of `items`, counted from 1: the records after `page - 1`
      whole pages, at most `pageSize` of them, as many as there are. */
  function PageOf<T>(items: seq<T>, page: int, pageSize: int): seq<T>
    requires page >= 1 && pageSize >= 0
  {
    var start := PageStart(page, pageSize);
    items[Min(|items|, start)..Min(|items|, start + pageSize)]
  }

  /** The page of `fetchRedalyc`: `slice` from the start of the page to
      `pageSize` records further on. */
  function Paginate<T>(items: seq<T>, page: int, pageSize: int): (r: seq<T>)
    ensures |r| <= |items|
    ensures page >= 1 && pageSize >= 0 ==> |r| <= pageSize && r == PageOf(items, page, pageSize)
  {
    var start := PageStart(page, pageSize);
    Slice(items, start, start + pageSize)
  }

  /** A page holds only records of the list it is cut from. */
  lemma PageWithin<T>(items: seq<T>, page: int, pageSize: int)
    ensures forall x :: x in Paginate(items, page, pageSize) ==> x in items
  {
    var from := RelativeIndex((page - 1) * pageSize, |items|);
    var to := RelativeIndex((page - 1) * pageSize + pageSize, |items|);
    if from < to {
      assert Paginate(items, page, pageSize) == items[from..to];
    }
  }

  /** Page `n` ends where `n` whole pages end. */
  lemma NextPageStart(n: int, pageSize: int)
    ensures PageStart(n, pageSize) + pageSize == n * pageSize
  {
  }

  /** Pages 1 to n, one after the other. */
  function Pages<T>(items: seq<T>, n: nat, pageSize: int): seq<T> {
    if n == 0 then [] else Pages(items, n - 1, pageSize) + Paginate(items, n, pageSize)
  }

  /** Consecutive pages neither skip nor repeat a record: pages 1 to n are
      exactly the first n * pageSize records. */
  lemma {:induction false} PagesCover<T>(items: seq<T>, n: nat, pageSize: int)
    requires pageSize >= 0
    ensures n * pageSize >= 0
    ensures Pages(items, n, pageSize) == items[..Min(|items|, n * pageSize)]
  {
    if n > 0 {
      PagesCover(items, n - 1, pageSize);
      var a := Min(|items|, PageStart(n, pageSize));
      var b := Min(|items|, n * pageSize);
      NextPageStart(n, pageSize);
      assert items[..a] + items[a..b] == items[..b];
    }
  }

  // ---------------------------------------------------------------------------
  // The adapter
  // ---------------------------------------------------------------------------

  /** `fetchRedalyc` after the request: fail on a transport error or a
      non-ok status; otherwise parse, filter by keyword and cut out the
      requested page, reporting the filtered count as the total. */
  function FetchRedalyc(response: Fetched<seq<DcFields>>, q: string, page: int, pageSize: int): (o: Outcome)
    ensures response.Failed? ==> o == Rejected(response.reason)
    ensures response.Responded? && !response.ok ==> o == Rejected(RedalycError)
    ensures response.Responded? && response.ok ==> o.Fulfilled?
    ensures o.Fulfilled? ==>
      && o.total == |KeywordFilter(ParseOaiDc(response.body), q)|
      && |o.items| <= o.total
      && (page >= 1 && pageSize >= 0 ==> |o.items| <= pageSize)
      && forall x :: x in o.items ==>
           x.source == RedalycLabel && Truthy(x.id) && (q == "" || Mentions(x, q))
    // the items are the requested page of the filtered harvest
    ensures o.Fulfilled? && page >= 1 && pageSize >= 0 ==>
      o.items == PageOf(KeywordFilter(ParseOaiDc(response.body), q), page, pageSize)
  {
    match response
    case Failed(reason) => Rejected(reason)
    case Responded(ok, body) =>
      if !ok then Rejected(RedalycError)
      else
        var items := KeywordFilter(ParseOaiDc(body), q);
        var paged := Paginate(items, page, pageSize);
        PageWithin(items, page, pageSize);
        Fulfilled(paged, |items|)
  }
}
