# Academic search over Redalyc and SciELO — a Dafny model

The searcher is a single-page React application. It queries two sources of
Latin-American scholarly articles and shows their records in one list:

- **Redalyc**, harvested over OAI-PMH. The protocol has no keyword search.
  The adapter lists `oai_dc` records for the date range, filters them by
  keyword in the browser, and cuts out one page.
- **SciELO**, reached through the Crossref works API. The query is
  restricted to DOI prefixes of SciELO journals.

The model covers the pure logic between the network and the screen:

- `OaiDc`: how one Dublin Core record becomes a normalised record
  (`parseOaiDc`).
- `Redalyc`: the request parameters, the regex-escaped, case-insensitive
  keyword filter, and the `Array.prototype.slice` pagination of
  `fetchRedalyc`.
- `Crossref`: the `filter` parameter, the title, author, date, link and id
  mapping of a work, and the total reported by `fetchScieloViaCrossref`.
- `Search`: the `canSearch` gate, the tasks `onSearch` starts, and the
  `Promise.allSettled` merge of their outcomes into the results and total.
- `Js` and `Text`: the JavaScript conventions these rely on. These are
  `undefined` against `""`, truthiness, `||`, `trim`, `startsWith`,
  `join`, `split`, `String(n)` and `padStart`.

Network answers are parameters. Each adapter receives what `fetch`
produced: `Fetched.Failed(reason)` for a rejected promise, or
`Fetched.Responded(ok, body)` with the body already decoded.

Three details of the code shape the model:

- The Crossref date filters are `from-pub-date:` and `until-pub-date:`.
- The Crossref total is read from `message.totalResults`.
- A record mapped from Crossref can have an empty or `undefined` id
  (`Crossref.WorkIdFalsy`). This happens when the work has no DOI and no
  URL and its title array is empty or starts with `""`. The `||` in the
  title line binds inside the `?:` branch, so an empty title array gives an
  `undefined` title, not the `(sin título)` placeholder.

## Model

| member | source | states |
|---|---|---|
| `Search.CanSearchCases` | buscador_academico_sci_elo_redalyc_app_react_de_una_sola_pagina.jsx:140 | A search may start exactly when Redalyc is enabled, or when SciELO is enabled and the query is not all white space. In particular, no source enabled, or SciELO alone with a blank query, blocks it. |
| `Text.TrimEmptyIffBlank` | buscador_academico_sci_elo_redalyc_app_react_de_una_sola_pagina.jsx:140 | `q.trim().length > 0` holds exactly when some character of the query is not ECMAScript white space. |
| `Text.Trim` | buscador_academico_sci_elo_redalyc_app_react_de_una_sola_pagina.jsx:44 | The trimmed string occurs in the original between a prefix and a suffix that are all white space, and it neither starts nor ends with white space. |
| `Search.Tasks` | buscador_academico_sci_elo_redalyc_app_react_de_una_sola_pagina.jsx:147-149 | One task per enabled source, Redalyc first. Each task carries the trimmed query and the form's date bounds. |
| `Search.SearchRequests` | buscador_academico_sci_elo_redalyc_app_react_de_una_sola_pagina.jsx:147-149 | The harvest request sends `from` and `until` exactly when the form's bounds are set. The registry request sends the trimmed query, the default row count, and a filter exactly when one is built from the form's bounds and the SciELO prefixes. |
| `Search.SettleTasks` | buscador_academico_sci_elo_redalyc_app_react_de_una_sola_pagina.jsx:147-150 | The settled outcomes are exactly the Redalyc outcome and/or the SciELO outcome, in task order. |
| `Search.MergeItems` | buscador_academico_sci_elo_redalyc_app_react_de_una_sola_pagina.jsx:151 | All rejected outcomes give no results. Every merged record comes from a fulfilled outcome. |
| `Search.MergeTotal` | buscador_academico_sci_elo_redalyc_app_react_de_una_sola_pagina.jsx:152 | All rejected outcomes give a total of 0. Non-negative totals give a non-negative sum. |
| `Search.MergeItemsAppend` | buscador_academico_sci_elo_redalyc_app_react_de_una_sola_pagina.jsx:151 | `flatMap` distributes over concatenation of the settled list. |
| `Search.MergeTotalAppend` | buscador_academico_sci_elo_redalyc_app_react_de_una_sola_pagina.jsx:152 | The `reduce` sum distributes over concatenation of the settled list. |
| `Search.MergeKeepsFulfilled` | buscador_academico_sci_elo_redalyc_app_react_de_una_sola_pagina.jsx:151 | Every record of every fulfilled outcome reaches the merged list. |
| `Search.MergeOne` | buscador_academico_sci_elo_redalyc_app_react_de_una_sola_pagina.jsx:151-152 | A single outcome contributes its items and total if fulfilled, and nothing if rejected. |
| `Search.MergeTwo` | buscador_academico_sci_elo_redalyc_app_react_de_una_sola_pagina.jsx:151-152 | Two outcomes merge to the first one's items followed by the second's, and the sum of their totals. |
| `Search.OnSearch` | buscador_academico_sci_elo_redalyc_app_react_de_una_sola_pagina.jsx:142-158 | When a search may not start, the view is unchanged. Otherwise no error is shown, the busy flag ends false, the results are Redalyc's records (if it is enabled and succeeded) followed by SciELO's (if it is enabled and succeeded), and the total is the sum of the succeeding sources' totals. |
| `Search.MergeBySource` | buscador_academico_sci_elo_redalyc_app_react_de_una_sola_pagina.jsx:147-152 | Merging the settled outcomes of the tasks gives each enabled source's records in task order, and the sum of the enabled sources' totals, a failed source contributing nothing. |
| `Search.PartialFailure` | buscador_academico_sci_elo_redalyc_app_react_de_una_sola_pagina.jsx:150-154 | With both sources enabled, Redalyc answering ok and SciELO failing (a transport error or a non-ok status) shows exactly Redalyc's records and total. |
| `OaiDc.FindIndex` | buscador_academico_sci_elo_redalyc_app_react_de_una_sola_pagina.jsx:50-51 | `find` stops at the first identifier with the prefix. It finds nothing exactly when no identifier has the prefix. |
| `OaiDc.ParseRecord` | buscador_academico_sci_elo_redalyc_app_react_de_una_sola_pagina.jsx:45-53 | The title is the first title if it is non-empty, else `(sin título)`. DOI and URL are the first identifiers starting with `10.` and `http`, else `""`. The id is the URL, else the DOI, else the title, and is never empty. Authors and subjects are copied. The date is the first date or `""`. The journal is the first source if it is non-empty, else `Redalyc`. The source label is `Redalyc`. |
| `Redalyc.OaiParams` | buscador_academico_sci_elo_redalyc_app_react_de_una_sola_pagina.jsx:60-62 | `verb=ListRecords` and `metadataPrefix=oai_dc` come first. `from` and `until` are present exactly when the corresponding bound is set. |
| `Redalyc.Escape` | buscador_academico_sci_elo_redalyc_app_react_de_una_sola_pagina.jsx:71 | Escaping never shortens the keyword, and only the empty keyword escapes to the empty pattern. |
| `Redalyc.EscapeIsLiteral` | buscador_academico_sci_elo_redalyc_app_react_de_una_sola_pagina.jsx:71 | The escaped keyword, read as a regular expression, stands for exactly the keyword. No character keeps a special meaning. |
| `Redalyc.Keep` | buscador_academico_sci_elo_redalyc_app_react_de_una_sola_pagina.jsx:72 | A record is kept exactly when the pattern matches its title or one of its subjects. The result is never longer than the input. |
| `Redalyc.KeepAppend` | buscador_academico_sci_elo_redalyc_app_react_de_una_sola_pagina.jsx:72 | Filtering distributes over concatenation, so each record is judged on its own and order is kept. |
| `Redalyc.KeepIsSubsequence` | buscador_academico_sci_elo_redalyc_app_react_de_una_sola_pagina.jsx:72 | The kept records are a subsequence of the harvested ones. |
| `Redalyc.KeywordFilter` | buscador_academico_sci_elo_redalyc_app_react_de_una_sola_pagina.jsx:69-73 | An empty keyword keeps every record. Otherwise a record survives exactly when the keyword occurs, ignoring ASCII case and as plain text, in its title or in some subject. The survivors keep their order. |
| `Redalyc.KeywordFilterAppend` | buscador_academico_sci_elo_redalyc_app_react_de_una_sola_pagina.jsx:69-73 | Filtering a concatenation of harvests filters each part and keeps them in order. |
| `Redalyc.KeywordFilterOne` | buscador_academico_sci_elo_redalyc_app_react_de_una_sola_pagina.jsx:69-73 | A single record survives exactly when the keyword is empty or the record mentions it. With `KeywordFilterAppend` this fixes the filtered list, repeats included. |
| `Redalyc.Paginate` | buscador_academico_sci_elo_redalyc_app_react_de_una_sola_pagina.jsx:75-76 | For page ≥ 1 and a non-negative page size, `slice` cuts out exactly `PageOf`: the records after `page - 1` whole pages, at most `pageSize` of them, clamped to the list. |
| `Redalyc.PageWithin` | buscador_academico_sci_elo_redalyc_app_react_de_una_sola_pagina.jsx:76 | A page holds only records of the filtered list, for any page and page size. |
| `Redalyc.PagesCover` | buscador_academico_sci_elo_redalyc_app_react_de_una_sola_pagina.jsx:75-76 | Pages 1 to n, concatenated, are exactly the first `n*pageSize` records: no record is skipped or repeated. |
| `Redalyc.FetchRedalyc` | buscador_academico_sci_elo_redalyc_app_react_de_una_sola_pagina.jsx:66-77 | A transport failure rejects with its reason, and a non-ok status rejects with `Error consultando Redalyc OAI-PMH`. Otherwise the total is the number of records that pass the keyword filter. Each item is a Redalyc record with a non-empty id that mentions the keyword, and for page ≥ 1 and a non-negative page size the items are exactly that page of the filtered records. |
| `Crossref.FilterParamIsJoin` | buscador_academico_sci_elo_redalyc_app_react_de_una_sola_pagina.jsx:82-88 | The `filter` parameter is all date terms followed by all prefix terms, joined by commas. It is unset exactly when there are no terms. |
| `Crossref.FilterTerms` | buscador_academico_sci_elo_redalyc_app_react_de_una_sola_pagina.jsx:82-88 | Split at commas, the filter reads back as `from-pub-date:` (if set), `until-pub-date:` (if set) and one `prefix:` term per allow-listed prefix, in order. |
| `Crossref.CrossrefParams` | buscador_academico_sci_elo_redalyc_app_react_de_una_sola_pagina.jsx:86-88 | `query` comes first and `rows` second, as the decimal text of the row count. A third `filter` parameter is present exactly when the filter is set. |
| `Crossref.WorkTitle` | buscador_academico_sci_elo_redalyc_app_react_de_una_sola_pagina.jsx:95 | A title array gives its first element, or `undefined` when empty. A single title gives itself when truthy, else `(sin título)`. |
| `Crossref.AuthorName` | buscador_academico_sci_elo_redalyc_app_react_de_una_sola_pagina.jsx:96 | Given and family names are joined by a space when both are present. With one present, the name is that one. With neither, the name is empty. |
| `Crossref.Authors` | buscador_academico_sci_elo_redalyc_app_react_de_una_sola_pagina.jsx:96 | Every contributor with a name contributes it, and only those do. No listed author is empty. |
| `Crossref.AuthorsAppend` | buscador_academico_sci_elo_redalyc_app_react_de_una_sola_pagina.jsx:96 | Authors are named contributor by contributor, in order. |
| `Crossref.WorkDate` | buscador_academico_sci_elo_redalyc_app_react_de_una_sola_pagina.jsx:97-98 | The date is empty exactly when there are no date parts. |
| `Crossref.WorkDateLength` | buscador_academico_sci_elo_redalyc_app_react_de_una_sola_pagina.jsx:98 | For month and day in 0..99, the date is six characters longer than the year. |
| `Crossref.TwoDigitsReadsBack` | buscador_academico_sci_elo_redalyc_app_react_de_una_sola_pagina.jsx:98 | `String(n).padStart(2, "0")` is a digit string of at least two characters that reads back as `n`. |
| `Crossref.WorkDateRoundTrip` | buscador_academico_sci_elo_redalyc_app_react_de_una_sola_pagina.jsx:97-98 | With non-negative parts, the date reads back as year, month and day, where a missing or zero month or day reads as 1. |
| `Crossref.WorkDateExamples` | buscador_academico_sci_elo_redalyc_app_react_de_una_sola_pagina.jsx:97-98 | `[2021]`, `[2021, 7]` and `[2021, 0, 0]` give `2021-01-01`, `2021-07-01` and `2021-01-01`. |
| `Crossref.WorkDateFullExample` | buscador_academico_sci_elo_redalyc_app_react_de_una_sola_pagina.jsx:98 | `[2021, 7, 15]` gives `2021-07-15`. |
| `Crossref.MapWork` | buscador_academico_sci_elo_redalyc_app_react_de_una_sola_pagina.jsx:94-103 | The URL is the work's link, else `https://doi.org/` plus the DOI, else `""`. The id is the DOI, else the URL, else the title. The journal is the first container title or `""`. The source label is `SciELO (vía Crossref)`. Title, authors and date follow the members above. |
| `Crossref.WorkIdFalsy` | buscador_academico_sci_elo_redalyc_app_react_de_una_sola_pagina.jsx:95-102 | A mapped work's id is falsy exactly when the work has no DOI, no URL, and a title array that is empty or starts with `""`. |
| `Crossref.FetchScielo` | buscador_academico_sci_elo_redalyc_app_react_de_una_sola_pagina.jsx:91-104 | A transport failure rejects with its reason, and a non-ok status rejects with `Error consultando Crossref para SciELO`. Otherwise every work maps, in order, to one record. The total is `totalResults` when truthy, else the number of records. |
| `Text.ContainsIgnoringCaseProperties` | buscador_academico_sci_elo_redalyc_app_react_de_una_sola_pagina.jsx:71 | The `i` flag: an exact occurrence is also a case-insensitive one, and lower-casing either side first changes nothing. |
| `Text.SplitJoin` | buscador_academico_sci_elo_redalyc_app_react_de_una_sola_pagina.jsx:84-88 | Joining separator-free pieces and splitting at the separator gives the pieces back. |
| `Text.JoinAppend` | buscador_academico_sci_elo_redalyc_app_react_de_una_sola_pagina.jsx:87 | Joining a concatenation of two non-empty lists joins each half and puts one separator between them, as `filter + "," + prefixQuery` does. |
| `Text.DecimalRoundTrip` | buscador_academico_sci_elo_redalyc_app_react_de_una_sola_pagina.jsx:98 | `String(n)` for a natural number reads back as `n`. |
| `Text.PadStart` | buscador_academico_sci_elo_redalyc_app_react_de_una_sola_pagina.jsx:98 | `padStart` keeps the string as the suffix, pads to the width with the fill character, and never shortens. |

## Left out

- XML parsing (`DOMParser`, `getElementsByTagName`, `textContent`) is not
  modelled. A harvested record arrives as its lists of already-trimmed
  Dublin Core values, `OaiDc.DcFields`. A record without metadata has all
  lists empty.
- `fetch`, the CORS proxy URL, `encodeURIComponent` and the
  `URLSearchParams` serialisation are not modelled. Requests are modelled as
  ordered parameter lists and responses as parameters.
- Concurrency of `Promise.allSettled` is not modelled. Each adapter settles
  independently, so the model settles the tasks in task order from the
  given upstream answers.
- Regular expressions are not modelled in general. `new RegExp` is
  modelled only for the literal fragment that escaping produces, and the
  `i` flag only as ASCII case folding. Unicode case folding is left out.
- `fmt` is never called by the core and is left out.
- The React components, `ResultCard` and `Badge`, and the form's state
  hooks are left out. `useQuery` becomes the `Search.Form` value.
- The `catch` branch of `onSearch` is left out. Neither adapter's
  rejection reaches it, because `allSettled` never rejects. It would only
  fire on an exception thrown synchronously while building the tasks.
- Crossref `date-parts` holding `null` or non-integer values, and a
  `totalResults` that is not an integer, are not modelled: date parts and
  totals are integers. A missing `items`, `author` or `container-title`
  arrives as an empty list.
- Crossref records carry no `subjects` member in the source. The model
  gives them an empty subject list, which no consumer in the core reads.
- `Text.IntToString` has no contract of its own. Its properties are proved
  for non-negative numbers by `Text.DecimalRoundTrip`. Negative years are
  rendered with a leading `-` but not proved about.
- `Crossref.WorkDate` states only emptiness in its own contract. The
  format is stated by `Crossref.WorkDateLength`,
  `Crossref.WorkDateRoundTrip` and the example lemmas.
- `OaiDc.ParseOaiDc` maps `ParseRecord` over the records, and its contract
  only says so, so it has no row of its own.
