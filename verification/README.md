# K-way merge and merge proxy

This project models the federation layer of a log-search client in Dafny and
proves properties about it. The client talks to several log-search backends
("SSBs") and presents them as one. It has two parts.

- **`KWayMerger`** (`merge_proxy.py`): a lazy k-way merge. It holds one
  pending slot per source. Each `next()` call refills every empty slot from
  that slot's zero-argument fetch function, picks the smallest buffered value
  (the lowest slot index wins a tie), clears that slot and returns the value.
  Once every source is exhausted it returns `None`.
- **`MergeProxy`**: an empty stub in the source. Its behaviour is the one its
  test suite fixes against the test double `MockSSB`:
  - `list_logspaces` returns the union of the backends' logspace sets;
  - `number_of_messages` returns the sum of their counts;
  - `filter` returns the first `limit` records of the k-way merge of the
    backends' answers, ordered by `processed_timestamp`;
  - every backend receives each query exactly once, with the caller's
    positional arguments.

Layout, one module per file:

| file | module | contents |
|---|---|---|
| `wrappers.dfy` | `Wrappers` | `Option`, which stands for Python's `None` or a value |
| `fetcher.dfy` | `Fetcher` | the list-backed fetch function of `MockFetcher` |
| `ordering.dfy` | `Ordering` | values tagged with their source, the order by (key, source), per-source projections |
| `kway_merger.dfy` | `KWayMerger` | the merger as a state machine: `Init`, `Fill`, `Scan`/`FindSmallest`, `Select`, `Next`, and the repeated calls `Drain`, `Run` and `Take` |
| `kway_merger_lemmas.dfy` | `KWayMergerLemmas` | the theorems about the merger |
| `identical_sources.dfy` | `IdenticalSources` | the merge of several copies of one list |
| `merge_proxy.dfy` | `MergeProxy` | the proxy over pure-data backends, and its theorems |

Modelling choices:

- **Sources.** Each source is the finite list its fetch function pops from,
  as in `MockFetcher`. A merger state is its slots plus what each source has
  left. The abstraction `Pendings` joins a slot's buffered value with its
  source's remainder, giving what that source still has to hand out.
- **Order.** Values are compared by an integer key. In the proxy the key is
  `processed_timestamp`; for the integer tests it is the identity. Python's
  `current < smallest` becomes `key(current) < key(smallest)`.
- **Tagged output.** Each value the merger hands out is recorded together
  with the index of the slot it came from (`Tagged(source, value)`). Two
  separate statements then say what the tests check:
  - the tagged output is sorted by (key, source): it ascends by key, and on
    equal keys the lower backend index comes first;
  - the projection onto each source is that source's own list (or a prefix
    of it, for a bounded pull): each backend keeps its own order, including
    among its own equal keys. Sorting by (key, source) alone does not say
    this, since it allows either order of two equal-key values from one
    source.
- **Specification of the merge.** `IsMergeOf` defines the merge of some
  sources: it keeps every source's values in source order, and it is sorted
  by (key, source). `MergeIsUnique` shows at most one sequence meets it. For
  ascending sources, `DrainIsTheMerge` shows the merger's output is that
  sequence; for a source that is not ascending, no sequence meets it.
- **Exhaustion.** When every slot is `None`, `_find_smallest`'s loop keeps
  replacing `smallest` by `None`, so it returns the LAST index together with
  `None`. `next()` then clears that slot, which changes nothing. `Scan`
  states this exactly.
- **Zero fetchers.** With no fetch functions, `_find_smallest` returns
  `(None, None)`, and line 81 fails when it indexes a list with `None`.
  `Select` and `Next` therefore require at least one slot. `Init` allows
  zero. `Filter` requires at least one backend, because it drives the merger.
- **Backends.** A backend is pure data (`Backend`): a logspace set, a message
  count and a list of records. A backend's `filter` answer is its whole list,
  which may be longer than `limit`, as `MockSSB.filter` returns it. The calls
  each backend receives are part of the proxy's answer (`Answer.calls`), in
  place of `MockSSB.calls`.

## Model

| member | source | states |
|---|---|---|
| Fetcher.Next | merge_proxy_test.py:261-265 | one fetch pops the list's head and hands it out; it returns `None` exactly when the list is empty, and then the list stays empty |
| Fetcher.Calls | merge_proxy_test.py:257-265 | the j-th of n fetches returns the j-th list element while the list lasts, and `None` every time after that |
| KWayMerger.Init | merge_proxy.py:62-66 | a new merger has one empty slot per fetch function and has fetched nothing: each source still has all its values to give |
| KWayMerger.Fill | merge_proxy.py:72-77 | afterwards a slot is empty only if its source is exhausted; a slot already holding a value is left alone and its source is not called; every other source is called at most once; no value is lost or invented |
| KWayMerger.Scan | merge_proxy.py:85-94 | after scanning the first n slots: an index exists iff n > 0; the value is the slot at that index; it is a value iff some scanned slot holds one, and then it is the first slot with the minimal key; with no value, the index is the last one scanned |
| KWayMerger.FindSmallest | merge_proxy.py:84-94 | the same over the whole slot list: the first minimal-key slot, or the last index with `None` when every slot is empty |
| KWayMerger.Select | merge_proxy.py:79-82 | returns the first minimal value and its slot, returns `None` iff every slot is empty, clears exactly the returned slot, and calls no source |
| KWayMerger.Next | merge_proxy.py:68-70 | returns `None` iff every source is exhausted, and then takes nothing; otherwise returns the first minimal head among the sources' heads and removes exactly that head; a source whose value is already buffered is not called |
| KWayMerger.Drain | merge_proxy.py:68-94 | calling `next()` until it returns `None` hands out exactly as many values as the sources hold together, each tagged with a valid source index |
| KWayMerger.Run | merge_proxy.py:68-77 | after `calls` calls to `next()`, no source has been called more than `calls` times |
| KWayMerger.Take | merge_proxy_test.py:452-464 | pulling at most `limit` values hands out at most `limit` values, each tagged with a valid source index |
| KWayMergerLemmas.DrainKeepsSourceOrder | merge_proxy_test.py:418-450 | the values the full merge takes from source i are source i's values, in source i's order |
| KWayMergerLemmas.DrainIsPermutation | merge_proxy_test.py:393-416 | the full merge is a permutation of all the sources' values together |
| KWayMergerLemmas.DrainIsSorted | merge_proxy_test.py:214-218 | when every source is ascending, the full merge is sorted by (key, source): ascending, and equal keys come in source-index order |
| KWayMergerLemmas.MergeIsUnique | merge_proxy.py:88-92 | at most one sequence keeps every source's order and is sorted by (key, source), so the lowest-index tie-break makes the merge fully determined |
| KWayMergerLemmas.DrainIsTheMerge | merge_proxy.py:61-94 | for ascending sources, the values a new merger hands out before `None` are THE merge of the sources |
| KWayMergerLemmas.TakeIsPrefixOfDrain | merge_proxy.py:68-70 | pulling up to `limit` values gives the first `limit` values of the full merge, or all of it if it is shorter |
| KWayMergerLemmas.TakeValues | merge_proxy_test.py:375-416 | pulling up to `limit` values hands out exactly `limit` of them if the sources hold more, all of them otherwise, and never a value more often than the sources hold it |
| KWayMergerLemmas.TakeIsSorted | merge_proxy_test.py:418-450 | for ascending sources, the values a bounded pull hands out are sorted by (key, source) |
| KWayMergerLemmas.TakeEverything | merge_proxy_test.py:349-357 | with room for everything, a bounded pull hands out the whole merge |
| KWayMergerLemmas.TakeKeepsSourceOrder | merge_proxy_test.py:418-450 | the values a bounded pull takes from source i are a prefix of what source i had left |
| KWayMergerLemmas.TakeReturnsEarliest | merge_proxy_test.py:452-464 | for ascending sources, every value a bounded pull leaves behind comes, in (key, source) order, after every value it handed out |
| KWayMergerLemmas.RunFollowsDrain | merge_proxy.py:79-82 | the answers of `calls` successive calls to `next()` are `Answers(merge, calls)`: the j-th call returns the j-th value of the full merge, and `None` on every call after the merge is used up |
| KWayMergerLemmas.TakeOfTruncatedSources | merge_proxy.py:72-77 | pulling `limit` values gives the same tagged values when every source is cut to its first `limit` values |
| KWayMergerLemmas.FirstCallsSeeOnlyPrefixes | merge_proxy.py:72-77 | the first n results of `next()` are the same when every source is cut to its first n values |
| KWayMergerLemmas.SingleSourceIsReproduced | merge_proxy_test.py:220-224 | a merger over one source hands out exactly that source's list, in order and whether sorted or not |
| IdenticalSources.IdenticalSourcesRepeatEachValue | merge_proxy_test.py:226-238 | n identical strictly ascending sources merge into each value repeated n times, in ascending order |
| MergeProxy.ListLogspaces | merge_proxy_test.py:275-308 | a name is listed iff some backend has it; a single backend's set is passed through unchanged |
| MergeProxy.ListLogspacesAppend | merge_proxy_test.py:284-295 | a proxy over two groups of backends lists the union of what proxies over each group list |
| MergeProxy.NumberOfMessages | merge_proxy_test.py:310-347 | every backend gets exactly one `number_of_messages` call with the caller's arguments; a single backend's count is passed through; backends holding nothing add nothing |
| MergeProxy.NumberOfMessagesAppend | merge_proxy_test.py:335-347 | the count over two groups of backends is the sum of the counts over each group |
| MergeProxy.NumberOfMessagesIgnoresOrder | merge_proxy_test.py:335-347 | the count does not depend on the order in which the backends are given |
| MergeProxy.Filter | merge_proxy_test.py:359-464 | every backend gets exactly one `filter` call with the caller's arguments, offset 0 and the caller's limit; the result has exactly `limit` records if the backends hold more, and otherwise all of them; it holds only records the backends hold, none more often than they do |
| MergeProxy.FilterPicksAPrefixOfTheMerge | merge_proxy_test.py:452-464 | `filter`'s tagged records are the first `limit` entries of the full merge of the backends' answers, and that merge is a permutation of all their records |
| MergeProxy.FilterSingleBackend | merge_proxy_test.py:349-357 | with one backend and room for all its records, `filter` returns that backend's list unchanged |
| MergeProxy.FilterIsSorted | merge_proxy_test.py:418-450 | for backends each ascending by timestamp, `filter`'s result is ascending by timestamp, and its tagged form is sorted by (timestamp, backend index) |
| MergeProxy.FilterKeepsBackendOrder | merge_proxy_test.py:418-450 | `filter`'s records, tagged with their backend, take from each backend a prefix of that backend's own list, in its order |
| MergeProxy.FilterReturnsEarliest | merge_proxy_test.py:452-464 | for ascending backends, every record `filter` leaves out comes, in (timestamp, backend index) order, after every record it returns |
| MergeProxy.FilterOfTruncatedBackends | merge_proxy_test.py:490-492 | `filter` gives the same answer when every backend answers only its first `limit` records |

## Left out

- `SSBAPI` (merge_proxy.py:11-58): the HTTP/JSON client for one backend, with login, logout and URL encoding. It is I/O. Backends are pure data in this model.
- Configuration loading (`MergeProxyConfig` and its tests): file parsing, outside the merge layer.
- Failing or slow backends, timeouts and concurrency: the tests give backends no error behaviour, so every backend answers.
- The `TypeError` tests for fetch functions that cannot be called (merge_proxy_test.py:196-199) and for constructor arguments that cannot be iterated: Dafny's types rule these inputs out.
- Fetch functions that return the same value forever (merge_proxy_test.py:201-205): every source is a finite list, as in `MockFetcher`. The first `next()` over such a fetcher returns its value, the same as over a one-element list.
- Zero fetch functions: `next()` fails on them, so `KWayMerger.Select` and `KWayMerger.Next` require at least one slot.
- MergeProxy.Filter: requires at least one backend, because the merger it drives fails without a source.
- The default arguments of the proxy's `filter` and `number_of_messages` (the time window and `limit=10`) are not fixed by the tests. Callers pass every argument.
- A global `offset` other than 0: the proxy always asks backends for offset 0, and the tests fix nothing else.
- The zipper test (merge_proxy_test.py:240-254) and the ten-source first-value test (merge_proxy_test.py:207-212) are not stated separately. They are instances of `KWayMergerLemmas.DrainIsTheMerge` and `KWayMerger.Next` for concrete lists.
- `MockSSB.__init__` sets `logspaces` while `set_logspaces` and `list_logspaces` use `_logspaces`. A backend whose logspaces were never set therefore fails in the test double. The model gives every backend a set, which is the evident intent.
- Sources that yield `None` as a value: Python uses `None` both as an element and as the exhausted answer. A fetcher such as `MockFetcher([None, 1])` would leave its slot empty, make `next()` return `None` early, and continue with 1 on a later call. The model's `Option` keeps "no value" apart from every element, so its sources never yield `None` as a value.
- Value types of backends: logspace names are modelled as strings and a record's payload as a string-to-string map. The tests also use integer names and integer payload fields. The proxy only unions, counts and carries these values, so their type plays no part in any contract.
