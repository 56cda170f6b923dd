/** A source of the k-way merge, modelled the way the test double `MockFetcher`
    behaves: a list popped from its head on every call, and `None` forever once
    the list is empty. */
module Fetcher {
  import opened Wrappers

  /** What a source still has to give when `buffered` has been fetched from it
      but not yet emitted, and `remaining` has not been fetched at all. */
  function Unread<T>(buffered: Option<T>, remaining: seq<T>): seq<T> {
    match buffered
    case Some(v) => [v] + remaining
    case None => remaining
  }

  /** The answer of one fetch, and the list left behind. */
  datatype Fetched<T> = Fetched(value: Option<T>, remaining: seq<T>)

  /** One call of `MockFetcher.next`. */
  function Next<T>(list: seq<T>): (r: Fetched<T>)
    // nothing is lost or reordered: the answer followed by what is left is the list
    ensures Unread(r.value, r.remaining) == list
    // the sentinel is returned exactly when the list is used up
    ensures r.value.None? <==> list == []
    // an exhausted fetcher stays exhausted
    ensures r.value.None? ==> r.remaining == []
  {
    if |list| > 0 then Fetched(Some(list[0]), list[1..]) else Fetched(None, list)
  }

  /** The answers of `n` successive calls of `MockFetcher.next`. */
  function Calls<T>(list: seq<T>, n: nat): (r: seq<Option<T>>)
    ensures |r| == n
    // the list in order, then the sentinel on every later call
    ensures forall j :: 0 <= j < n ==> r[j] == (if j < |list| then Some(list[j]) else None)
  {
    if n == 0 then []
    else
      var f := Next(list);
      [f.value] + Calls(f.remaining, n - 1)
  }
}
