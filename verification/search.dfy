/**
 The search page's own logic (`App`): whether a search may start, which
 adapter calls it starts, and how their settled outcomes are merged into
 the result list and the total shown. The adapters run concurrently and
 each settles on its own; the model receives what each upstream answered
 and settles the calls in task order.
 */
module Search {
  import opened Js
  import opened Text
  import opened Records
  import opened OaiDc
  import Redalyc
  import Crossref

  /** The search form: query text, date bounds (`""` when unset) and the two
      source switches. */
  datatype Form = Form(q: string, from: string, to: string, useRedalyc: bool, useScielo: bool)

  /** What the page shows: the merged results, the total, the error banner
      and the busy flag. */
  datatype View = View(results: seq<Record>, total: int, error: string, busy: bool)

  /** What each upstream answers during one search. */
  datatype Upstream = Upstream(redalyc: Fetched<seq<DcFields>>, scielo: Fetched<Crossref.Message>)

  /** One adapter call with the arguments `onSearch` passes it; page, page
      size and row count take the adapters' defaults. */
  datatype Task =
    | HarvestTask(q: string, from: string, to: string, page: int, pageSize: int)
    | RegistryTask(q: string, from: string, to: string, rows: int)

  // ---------------------------------------------------------------------------
  // Gating
  // ---------------------------------------------------------------------------

  /** `canSearch` */
  predicate CanSearch(f: Form) {
    (f.useRedalyc || f.useScielo) && (|Trim(f.q)| > 0 || f.useRedalyc)
  }

  /** A search may start exactly when Redalyc is enabled, or SciELO is enabled
      and the query has a character other than white space. */
  lemma CanSearchCases(f: Form)
    ensures CanSearch(f) <==> f.useRedalyc || (f.useScielo && !IsBlank(f.q))
    ensures !f.useRedalyc && !f.useScielo ==> !CanSearch(f)
    ensures !f.useRedalyc && IsBlank(f.q) ==> !CanSearch(f)
    ensures f.useRedalyc ==> CanSearch(f)
  {
    TrimEmptyIffBlank(f.q);
  }

  // ---------------------------------------------------------------------------
  // Fan-out
  // ---------------------------------------------------------------------------

  /** The tasks `onSearch` starts: one per enabled source, Redalyc first,
      each with the trimmed query and the form's date bounds. */
  function Tasks(f: Form): (ts: seq<Task>)
    ensures f.useRedalyc && f.useScielo ==> |ts| == 2 && ts[0].HarvestTask? && ts[1].RegistryTask?
    ensures f.useRedalyc && !f.useScielo ==> |ts| == 1 && ts[0].HarvestTask?
    ensures !f.useRedalyc && f.useScielo ==> |ts| == 1 && ts[0].RegistryTask?
    ensures !f.useRedalyc && !f.useScielo ==> ts == []
    ensures forall t :: t in ts ==> t.q == Trim(f.q) && t.from == f.from && t.to == f.to
  {
    var q := Trim(f.q);
    var harvest := HarvestTask(q, f.from, f.to, Redalyc.DefaultPage, Redalyc.DefaultPageSize);
    var registry := RegistryTask(q, f.from, f.to, Crossref.DefaultRows);
    if f.useRedalyc && f.useScielo then [harvest, registry]
    else if f.useRedalyc then [harvest]
    else if f.useScielo then [registry]
    else []
  }

  /** The query parameters of the request a task sends: the harvest's date
      bounds, or the registry's query, row count and filter over the SciELO
      DOI prefixes. */
  function Request(t: Task): (ps: seq<(string, string)>)
    ensures |ps| >= 2
  {
    match t
    case HarvestTask(_, from, to, _, _) => Redalyc.OaiParams(from, to)
    case RegistryTask(q, from, to, rows) => Crossref.CrossrefParams(q, from, to, rows, Crossref.ScieloPrefixes)
  }

  /** The requests of a search carry the form's bounds and its trimmed query:
      the harvest sends each date bound that is set, and the registry sends
      the trimmed query, the default row count and the filter built from the
      form's bounds. */
  lemma SearchRequests(f: Form)
    ensures forall t :: t in Tasks(f) && t.HarvestTask? ==>
      && (("from", f.from) in Request(t) <==> f.from != "")
      && (("until", f.to) in Request(t) <==> f.to != "")
    ensures forall t :: t in Tasks(f) && t.RegistryTask? ==>
      && Request(t)[0] == ("query", Trim(f.q))
      && Request(t)[1] == ("rows", IntToString(Crossref.DefaultRows))
      && (|Request(t)| == 3 <==> Crossref.FilterParam(f.from, f.to, Crossref.ScieloPrefixes).Some?)
  {
  }

  /** How one task settles, given what its upstream answered. */
  function Run(t: Task, up: Upstream): Outcome {
    match t
    case HarvestTask(q, _, _, page, pageSize) => Redalyc.FetchRedalyc(up.redalyc, q, page, pageSize)
    case RegistryTask(_, _, _, _) => Crossref.FetchScielo(up.scielo)
  }

  /** `Promise.allSettled(tasks)`: one outcome per task, in task order. */
  function Settle(ts: seq<Task>, up: Upstream): (os: seq<Outcome>)
    ensures |os| == |ts|
  {
    seq(|ts|, i requires 0 <= i < |ts| => Run(ts[i], up))
  }

  // ---------------------------------------------------------------------------
  // Merge
  // ---------------------------------------------------------------------------

  /** The records an outcome contributes: its items if it was fulfilled. */
  function ItemsOf(o: Outcome): seq<Record> {
    if o.Fulfilled? then o.items else []
  }

  /** The count an outcome contributes: its total if it was fulfilled. */
  function TotalOf(o: Outcome): int {
    if o.Fulfilled? then o.total else 0
  }

  /** The shown results: the items of every fulfilled outcome, in order. */
  function MergeItems(os: seq<Outcome>): (rs: seq<Record>)
    ensures (forall i :: 0 <= i < |os| ==> os[i].Rejected?) ==> rs == []
    ensures forall x :: x in rs ==> exists i :: 0 <= i < |os| && os[i].Fulfilled? && x in os[i].items
  {
    if |os| == 0 then []
    else ItemsOf(os[0]) + MergeItems(os[1..])
  }

  /** The shown total: the sum of the totals of the fulfilled outcomes. */
  function MergeTotal(os: seq<Outcome>): (total: int)
    ensures (forall i :: 0 <= i < |os| ==> os[i].Rejected?) ==> total == 0
    ensures (forall i :: 0 <= i < |os| ==> TotalOf(os[i]) >= 0) ==> total >= 0
  {
    if |os| == 0 then 0
    else MergeTotal(os[..|os| - 1]) + TotalOf(os[|os| - 1])
  }

  /** Merging is outcome by outcome: the records of a concatenation of
      outcomes are the records of each part, in order. */
  lemma {:induction false} MergeItemsAppend(a: seq<Outcome>, b: seq<Outcome>)
    ensures MergeItems(a + b) == MergeItems(a) + MergeItems(b)
    decreases |a|
  {
    if |a| > 0 {
      assert (a + b)[1..] == a[1..] + b;
      MergeItemsAppend(a[1..], b);
    } else {
      assert a + b == b;
    }
  }

  /** The total of a concatenation of outcomes is the sum of the parts' totals. */
  lemma {:induction false} MergeTotalAppend(a: seq<Outcome>, b: seq<Outcome>)
    ensures MergeTotal(a + b) == MergeTotal(a) + MergeTotal(b)
    decreases |b|
  {
    if |b| > 0 {
      assert (a + b)[..|a + b| - 1] == a + b[..|b| - 1];
      MergeTotalAppend(a, b[..|b| - 1]);
    } else {
      assert a + b == a;
    }
  }

  /** Every fulfilled outcome's records reach the merged list. */
  lemma {:induction false} MergeKeepsFulfilled(os: seq<Outcome>, i: int)
    requires 0 <= i < |os| && os[i].Fulfilled?
    ensures forall x :: x in os[i].items ==> x in MergeItems(os)
  {
    if i > 0 {
      MergeKeepsFulfilled(os[1..], i - 1);
      assert os[1..][i - 1] == os[i];
    }
  }

  // ---------------------------------------------------------------------------
  // onSearch
  // ---------------------------------------------------------------------------

  /** `onSearch`: nothing happens unless a search may start; otherwise the
      enabled sources are queried, their settled outcomes merged, the error
      banner cleared and the busy flag dropped. The shown results are
      Redalyc's records, if it is enabled and succeeded, followed by SciELO's,
      if it is enabled and succeeded; the shown total is the sum of the
      totals of the sources that succeeded. A failing source adds nothing
      and shows no error. */
  function OnSearch(f: Form, v: View, up: Upstream): (r: View)
    ensures !CanSearch(f) ==> r == v
    ensures CanSearch(f) ==> r.error == "" && !r.busy
    ensures CanSearch(f) ==> r.results == BySourceItems(f, up) && r.total == BySourceTotal(f, up)
  {
    if !CanSearch(f) then v
    else
      var outcomes := Settle(Tasks(f), up);
      MergeBySource(f, up);
      View(MergeItems(outcomes), MergeTotal(outcomes), "", false)
  }

  /** The Redalyc outcome of a search from form `f`. */
  function RedalycOutcome(f: Form, up: Upstream): Outcome {
    Redalyc.FetchRedalyc(up.redalyc, Trim(f.q), Redalyc.DefaultPage, Redalyc.DefaultPageSize)
  }

  /** The records of each enabled source that succeeded, Redalyc's first. */
  function BySourceItems(f: Form, up: Upstream): seq<Record> {
    (if f.useRedalyc then ItemsOf(RedalycOutcome(f, up)) else [])
    + (if f.useScielo then ItemsOf(Crossref.FetchScielo(up.scielo)) else [])
  }

  /** The sum of the totals of the enabled sources that succeeded. */
  function BySourceTotal(f: Form, up: Upstream): int {
    (if f.useRedalyc then TotalOf(RedalycOutcome(f, up)) else 0)
    + (if f.useScielo then TotalOf(Crossref.FetchScielo(up.scielo)) else 0)
  }

  /** Merging the settled outcomes of a search amounts to taking each
      enabled source's contribution in task order. */
  lemma MergeBySource(f: Form, up: Upstream)
    ensures MergeItems(Settle(Tasks(f), up)) == BySourceItems(f, up)
    ensures MergeTotal(Settle(Tasks(f), up)) == BySourceTotal(f, up)
  {
    var ro := RedalycOutcome(f, up);
    var so := Crossref.FetchScielo(up.scielo);
    SettleTasks(f, up);
    if f.useRedalyc && f.useScielo {
      MergeTwo(ro, so);
    } else if f.useRedalyc {
      MergeOne(ro);
    } else if f.useScielo {
      MergeOne(so);
    }
  }

  /** The outcomes of a search, one per enabled source, Redalyc first. */
  lemma SettleTasks(f: Form, up: Upstream)
    ensures f.useRedalyc && f.useScielo ==>
      Settle(Tasks(f), up) == [RedalycOutcome(f, up), Crossref.FetchScielo(up.scielo)]
    ensures f.useRedalyc && !f.useScielo ==> Settle(Tasks(f), up) == [RedalycOutcome(f, up)]
    ensures !f.useRedalyc && f.useScielo ==> Settle(Tasks(f), up) == [Crossref.FetchScielo(up.scielo)]
    ensures !f.useRedalyc && !f.useScielo ==> Settle(Tasks(f), up) == []
  {
    var ts := Tasks(f);
    var os := Settle(ts, up);
    var q := Trim(f.q);
    if f.useRedalyc {
      assert ts[0] == HarvestTask(q, f.from, f.to, Redalyc.DefaultPage, Redalyc.DefaultPageSize);
      assert os[0] == RedalycOutcome(f, up);
    }
    if f.useRedalyc && f.useScielo {
      assert os[1] == Run(ts[1], up);
    } else if f.useScielo {
      assert os[0] == Run(ts[0], up);
    }
  }

  lemma MergeOne(o: Outcome)
    ensures MergeItems([o]) == ItemsOf(o) && MergeTotal([o]) == TotalOf(o)
  {
    assert [o][1..] == [] && [o][..0] == [];
  }

  lemma MergeTwo(o: Outcome, p: Outcome)
    ensures MergeItems([o, p]) == ItemsOf(o) + ItemsOf(p)
    ensures MergeTotal([o, p]) == TotalOf(o) + TotalOf(p)
  {
    MergeOne(o);
    MergeOne(p);
    MergeItemsAppend([o], [p]);
    MergeTotalAppend([o], [p]);
    assert [o] + [p] == [o, p];
  }

  /** Redalyc answering and SciELO failing, by a transport error or a non-ok
      status, shows Redalyc's records and total, as if it had been the only
      source. */
  lemma PartialFailure(f: Form, v: View, up: Upstream)
    requires f.useRedalyc && f.useScielo
    requires up.redalyc.Responded? && up.redalyc.ok
    requires !(up.scielo.Responded? && up.scielo.ok)
    ensures OnSearch(f, v, up).results == RedalycOutcome(f, up).items
    ensures OnSearch(f, v, up).total == RedalycOutcome(f, up).total
  {
    assert RedalycOutcome(f, up).items + [] == RedalycOutcome(f, up).items;
  }
}
