/** The merge proxy: several log-search backends presented as one.

    The class itself is an empty stub in the source; its behaviour is the one its
    test suite fixes. Each backend is pure data, as the test double `MockSSB`
    holds it: a set of logspace names, a message count and a list of log records.
    The proxy forwards every query unchanged to each backend, exactly once, and
    combines the answers: the union of the logspace sets, the sum of the counts,
    and for `filter` the k-way merge of the record lists by processed timestamp,
    cut to `limit` records. */
module MergeProxy {
  import opened Wrappers
  import opened Ordering
  import opened KWayMerger
  import KWayMergerLemmas

  /** A log record: the processed timestamp is the merge key, every other field
      is payload carried through untouched. */
  datatype LogRecord = LogRecord(processedTimestamp: int, fields: map<string, string>)

  function Timestamp(r: LogRecord): int {
    r.processedTimestamp
  }

  /** One backend, as the proxy sees it. */
  datatype Backend = Backend(logspaces: set<string>, numberOfMessages: int, logs: seq<LogRecord>)

  /** The positional arguments of `number_of_messages` and `filter`. */
  datatype QueryArgs = QueryArgs(logspace: string, from: int, to: int, expression: Option<string>)

  /** A call a backend receives. */
  datatype Call =
    | NumberOfMessagesCall(args: QueryArgs)
    | FilterCall(args: QueryArgs, offset: nat, limit: nat)

  /** The proxy's answer, and the calls every backend received, backend by backend. */
  datatype Answer<R> = Answer(result: R, calls: seq<seq<Call>>)

  /** `list_logspaces`: every name that some backend has, each once. */
  function ListLogspaces(backends: seq<Backend>): (r: set<string>)
    ensures forall name :: name in r <==> exists i | 0 <= i < |backends| :: name in backends[i].logspaces
    // a single backend is passed through
    ensures |backends| == 1 ==> r == backends[0].logspaces
  {
    if backends == [] then {} else backends[0].logspaces + ListLogspaces(backends[1..])
  }

  /** The sum of the backends' message counts. */
  function TotalMessages(backends: seq<Backend>): int {
    if backends == [] then 0 else backends[0].numberOfMessages + TotalMessages(backends[1..])
  }

  /** `number_of_messages`: every backend is asked once, with the caller's
      arguments, and the counts are added up. */
  function NumberOfMessages(backends: seq<Backend>, args: QueryArgs): (r: Answer<int>)
    ensures |r.calls| == |backends|
    ensures forall i | 0 <= i < |backends| :: r.calls[i] == [NumberOfMessagesCall(args)]
    // a single backend's count is passed through
    ensures |backends| == 1 ==> r.result == backends[0].numberOfMessages
    // backends holding nothing add nothing
    ensures (forall i | 0 <= i < |backends| :: backends[i].numberOfMessages == 0) ==> r.result == 0
  {
    NoMessages(backends);
    assert |backends| == 1 ==> backends[1..] == [] && TotalMessages(backends[1..]) == 0;
    Answer(TotalMessages(backends), seq(|backends|, _ => [NumberOfMessagesCall(args)]))
  }

  lemma {:induction false} NoMessages(backends: seq<Backend>)
    ensures (forall i | 0 <= i < |backends| :: backends[i].numberOfMessages == 0) ==> TotalMessages(backends) == 0
    decreases |backends|
  {
    if backends != [] {
      NoMessages(backends[1..]);
    }
  }

  /** What every backend answers to `filter`: all of its matching records, in
      its own order. A backend may answer with more than `limit` records. */
  function Responses(backends: seq<Backend>): (rs: seq<seq<LogRecord>>)
    ensures |rs| == |backends|
  {
    seq(|backends|, i requires 0 <= i < |backends| => backends[i].logs)
  }

  /** How many records the backends hold together. */
  function TotalLogs(backends: seq<Backend>): nat {
    |Flatten(Responses(backends))|
  }

  /** `filter`'s records tagged with the backend each came from: the first
      `limit` values of the k-way merge of the backends' answers by timestamp. */
  function FilterWithOrigins(backends: seq<Backend>, limit: nat): seq<Tagged<LogRecord>>
    requires |backends| > 0
  {
    Take(Init(Responses(backends)), Timestamp, limit)
  }

  /** `filter`: every backend is asked once, with the caller's arguments, offset
      0 and the caller's limit; the answers are merged by timestamp and the
      merge is cut to `limit` records. The merger it drives needs at least one
      source. */
  function Filter(backends: seq<Backend>, args: QueryArgs, limit: nat): (r: Answer<seq<LogRecord>>)
    requires |backends| > 0
    ensures |r.calls| == |backends|
    ensures forall i | 0 <= i < |backends| :: r.calls[i] == [FilterCall(args, 0, limit)]
    // exactly `limit` records when the backends hold more, all of them otherwise
    ensures |r.result| == if limit < TotalLogs(backends) then limit else TotalLogs(backends)
    // only records the backends hold, none twice
    ensures multiset(r.result) <= multiset(Flatten(Responses(backends)))
    // with room for everything, every record of every backend
    ensures TotalLogs(backends) <= limit ==> multiset(r.result) == multiset(Flatten(Responses(backends)))
  {
    KWayMergerLemmas.TakeValues(Init(Responses(backends)), Timestamp, limit);
    Answer(Values(FilterWithOrigins(backends, limit)), seq(|backends|, _ => [FilterCall(args, 0, limit)]))
  }

  /** `filter`'s records are the first `limit` values of the whole merge of the
      backends' answers, a merge that holds every record of every backend. */
  lemma FilterPicksAPrefixOfTheMerge(backends: seq<Backend>, limit: nat)
    requires |backends| > 0
    ensures var d := Drain(Init(Responses(backends)), Timestamp);
      && multiset(Values(d)) == multiset(Flatten(Responses(backends)))
      && FilterWithOrigins(backends, limit) == d[..if limit < |d| then limit else |d|]
  {
    var m := Init(Responses(backends));
    KWayMergerLemmas.TakeIsPrefixOfDrain(m, Timestamp, limit);
    KWayMergerLemmas.DrainIsPermutation(m, Timestamp);
  }

  /** A proxy over two groups of backends lists what proxies over each group list together. */
  lemma ListLogspacesAppend(a: seq<Backend>, b: seq<Backend>)
    ensures ListLogspaces(a + b) == ListLogspaces(a) + ListLogspaces(b)
  {
    forall name | name in ListLogspaces(a + b)
      ensures name in ListLogspaces(a) + ListLogspaces(b)
    {
      var i :| 0 <= i < |a + b| && name in (a + b)[i].logspaces;
      if i >= |a| {
        assert (a + b)[i] == b[i - |a|];
      }
    }
    forall name | name in ListLogspaces(a) + ListLogspaces(b)
      ensures name in ListLogspaces(a + b)
    {
      if name in ListLogspaces(a) {
        var i :| 0 <= i < |a| && name in a[i].logspaces;
        assert (a + b)[i] == a[i];
      } else {
        var i :| 0 <= i < |b| && name in b[i].logspaces;
        assert (a + b)[|a| + i] == b[i];
      }
    }
  }

  /** A proxy over two groups of backends counts what proxies over each group count together. */
  lemma NumberOfMessagesAppend(a: seq<Backend>, b: seq<Backend>, args: QueryArgs)
    ensures NumberOfMessages(a + b, args).result == NumberOfMessages(a, args).result + NumberOfMessages(b, args).result
  {
    TotalMessagesAppend(a, b);
  }

  lemma {:induction false} TotalMessagesAppend(a: seq<Backend>, b: seq<Backend>)
    ensures TotalMessages(a + b) == TotalMessages(a) + TotalMessages(b)
    decreases |a|
  {
    if a != [] {
      assert (a + b)[1..] == a[1..] + b;
      TotalMessagesAppend(a[1..], b);
    } else {
      assert a + b == b;
    }
  }

  /** Taking backend `j` out of the list takes its count out of the total. */
  lemma TotalMessagesWithout(b: seq<Backend>, j: nat)
    requires j < |b|
    ensures TotalMessages(b) == b[j].numberOfMessages + TotalMessages(b[..j] + b[j + 1..])
  {
    assert b == b[..j] + ([b[j]] + b[j + 1..]);
    TotalMessagesAppend(b[..j], [b[j]] + b[j + 1..]);
    TotalMessagesAppend([b[j]], b[j + 1..]);
    TotalMessagesAppend(b[..j], b[j + 1..]);
  }

  /** The order in which the backends are listed does not change the count. */
  lemma NumberOfMessagesIgnoresOrder(a: seq<Backend>, b: seq<Backend>, args: QueryArgs)
    requires multiset(a) == multiset(b)
    ensures NumberOfMessages(a, args).result == NumberOfMessages(b, args).result
  {
    TotalMessagesIgnoresOrder(a, b);
  }

  lemma {:induction false} TotalMessagesIgnoresOrder(a: seq<Backend>, b: seq<Backend>)
    requires multiset(a) == multiset(b)
    ensures TotalMessages(a) == TotalMessages(b)
    decreases |a|
  {
    if a == [] {
      assert |multiset(b)| == 0;
    } else {
      assert a[0] in multiset(b);
      var j :| 0 <= j < |b| && b[j] == a[0];
      var rest := b[..j] + b[j + 1..];
      TotalMessagesWithout(b, j);
      RemoveMatched(a, b, j);
      TotalMessagesIgnoresOrder(a[1..], rest);
    }
  }

  /** Matching the first element of `a` with an equal element of its
      permutation `b` leaves permutations of each other. */
  lemma RemoveMatched<X>(a: seq<X>, b: seq<X>, j: nat)
    requires multiset(a) == multiset(b) && a != [] && j < |b| && b[j] == a[0]
    ensures multiset(a[1..]) == multiset(b[..j] + b[j + 1..])
  {
    assert a == [a[0]] + a[1..];
    assert b == b[..j] + [b[j]] + b[j + 1..];
    assert multiset(b) == multiset(b[..j]) + multiset{b[j]} + multiset(b[j + 1..]);
    assert multiset(b[..j] + b[j + 1..]) == multiset(b[..j]) + multiset(b[j + 1..]);
    assert multiset(a) == multiset{a[0]} + multiset(a[1..]);
    assert multiset(a[1..]) == multiset(a) - multiset{a[0]};
    assert multiset(b[..j] + b[j + 1..]) == multiset(b) - multiset{b[j]};
  }

  /** With a single backend whose records fit within the limit, `filter` returns
      that backend's records unchanged and in the same order. */
  lemma FilterSingleBackend(backend: Backend, args: QueryArgs, limit: nat)
    requires |backend.logs| <= limit
    ensures Filter([backend], args, limit).result == backend.logs
  {
    assert Responses([backend]) == [backend.logs];
    assert Flatten([backend.logs]) == backend.logs;
    KWayMergerLemmas.TakeEverything(Init([backend.logs]), Timestamp, limit);
    KWayMergerLemmas.SingleSourceIsReproduced(backend.logs, Timestamp);
  }

  /** If every backend answers in timestamp order, `filter` returns records in
      timestamp order, and among equal timestamps a lower backend's records come first. */
  lemma FilterIsSorted(backends: seq<Backend>, args: QueryArgs, limit: nat)
    requires |backends| > 0
    requires forall i | 0 <= i < |backends| :: SortedBy(backends[i].logs, Timestamp)
    ensures LexSorted(FilterWithOrigins(backends, limit), Timestamp)
    ensures SortedBy(Filter(backends, args, limit).result, Timestamp)
  {
    KWayMergerLemmas.TakeIsSorted(Init(Responses(backends)), Timestamp, limit);
    LexSortedValues(FilterWithOrigins(backends, limit), Timestamp);
  }

  /** `filter` keeps every backend's order: the records it returns from backend
      `i` are the first records of backend `i`'s answer, in that order. */
  lemma FilterKeepsBackendOrder(backends: seq<Backend>, args: QueryArgs, limit: nat)
    requires |backends| > 0
    ensures Filter(backends, args, limit).result == Values(FilterWithOrigins(backends, limit))
    ensures forall t | t in FilterWithOrigins(backends, limit) :: t.source < |backends|
    ensures forall i | 0 <= i < |backends| :: Project(FilterWithOrigins(backends, limit), i) <= backends[i].logs
  {
    KWayMergerLemmas.TakeKeepsSourceOrder(Init(Responses(backends)), Timestamp, limit);
  }

  /** With every backend answering in timestamp order, `filter` returns the
      earliest records: a record of backend `i` that it leaves out has a later
      timestamp than every record returned, or an equal one and a backend no
      lower than theirs. */
  lemma FilterReturnsEarliest(backends: seq<Backend>, limit: nat, i: nat, j: nat)
    requires |backends| > 0
    requires forall k | 0 <= k < |backends| :: SortedBy(backends[k].logs, Timestamp)
    requires i < |backends|
    requires |Project(FilterWithOrigins(backends, limit), i)| <= j < |backends[i].logs|
    ensures forall t | t in FilterWithOrigins(backends, limit) :: Precedes(t, Tagged(i, backends[i].logs[j]), Timestamp)
  {
    KWayMergerLemmas.TakeReturnsEarliest(Init(Responses(backends)), Timestamp, limit, i, j);
  }

  /** Every backend's records cut down to the first `n`. */
  function TruncateLogs(backends: seq<Backend>, n: nat): seq<Backend> {
    seq(|backends|, i requires 0 <= i < |backends| =>
      var b := backends[i];
      Backend(b.logspaces, b.numberOfMessages, if |b.logs| <= n then b.logs else b.logs[..n]))
  }

  /** Asking every backend for only `limit` records is enough: backends that
      answer with at most `limit` records each give the same `filter` answer as
      backends that answer with everything they have. */
  lemma FilterOfTruncatedBackends(backends: seq<Backend>, args: QueryArgs, limit: nat)
    requires |backends| > 0
    ensures Filter(TruncateLogs(backends, limit), args, limit) == Filter(backends, args, limit)
  {
    assert Responses(TruncateLogs(backends, limit)) == KWayMergerLemmas.Truncate(Responses(backends), limit);
    KWayMergerLemmas.TakeOfTruncatedSources(Responses(backends), Timestamp, limit);
  }
}
