/**
 The normalised bibliographic record both adapters produce, the settled
 outcome of one adapter call, and what the network hands an adapter.
 */
module Records {
  import opened Js

  /** Title used when a record has none. */
  const NoTitle := "(sin título)"

  /** One search result. `id`, `title` and `doi` may be `undefined` for
      records mapped from the DOI registry, so they keep the JavaScript
      string-or-undefined shape; registry records carry no subjects. */
  datatype Record = Record(
    id: Str,
    title: Str,
    authors: seq<string>,
    subjects: seq<string>,
    date: string,
    doi: Str,
    url: string,
    journal: string,
    source: string)

  /** How one adapter call settled, as `Promise.allSettled` reports it: a
      page of records with the adapter's total, or the rejection reason. */
  datatype Outcome = Fulfilled(items: seq<Record>, total: int) | Rejected(reason: string)

  /** What the network gave an adapter: a transport failure (the `fetch`
      promise or the body decoding rejected), or a response with its
      `ok` status flag and decoded body. */
  datatype Fetched<T> = Failed(reason: string) | Responded(ok: bool, body: T)
}
