/** What the lazy k-way merge guarantees.

    The central facts: the merger emits every value of every source exactly once
    (`DrainKeepsSourceOrder`, `DrainIsPermutation`); if each source is sorted, the
    output is sorted by (key, source), which is sortedness plus the lowest-index
    tie-break (`DrainIsSorted`); and there is exactly one such arrangement
    (`MergeIsUnique`), so the merger computes THE merge (`DrainIsTheMerge`).

    The laziness bound: after k calls no source has been fetched from more than
    k times (the contract of `KWayMerger.Run`), so the first k answers depend only
    on the first k elements of every source (`FirstCallsSeeOnlyPrefixes`), and
    pulling `limit` values needs only `limit` values from every source
    (`TakeOfTruncatedSources`). */
module KWayMergerLemmas {
  import opened Wrappers
  import opened Ordering
  import opened KWayMerger
  import Fetcher

  /** `out` is a merge of `sources`: it emits exactly the values of every source,
      each source in its own order, and it is sorted by (key, source). */
  ghost predicate IsMergeOf<T>(out: seq<Tagged<T>>, sources: seq<seq<T>>, key: T -> int) {
    && (forall t | t in out :: t.source < |sources|)
    && (forall i | 0 <= i < |sources| :: Project(out, i) == sources[i])
    && LexSorted(out, key)
  }

  /** The merger emits source `i`'s values, all of them, in source `i`'s order. */
  lemma {:induction false} DrainKeepsSourceOrder<T>(m: Merger<T>, key: T -> int)
    requires m.WellFormed() && |m.slots| > 0
    ensures forall i | 0 <= i < |m.slots| :: Project(Drain(m, key), i) == Pendings(m)[i]
    decreases Size(m)
  {
    var s := Next(m, key);
    var ps := Pendings(m);
    if s.value.Some? {
      var k := s.source;
      FlattenPop(ps, k);
      DrainKeepsSourceOrder(s.state, key);
      var d := Drain(m, key);
      var rest := Drain(s.state, key);
      assert d == [Tagged(k, s.value.value)] + rest;
      assert d[1..] == rest;
      forall i | 0 <= i < |m.slots|
        ensures Project(d, i) == ps[i]
      {
        if i == k {
          assert ps[k] == [ps[k][0]] + ps[k][1..];
        }
      }
    }
  }

  /** The merger emits exactly the values the sources still hold, each as often as it occurs there. */
  lemma {:induction false} DrainIsPermutation<T>(m: Merger<T>, key: T -> int)
    requires m.WellFormed() && |m.slots| > 0
    ensures multiset(Values(Drain(m, key))) == multiset(Flatten(Pendings(m)))
    decreases Size(m)
  {
    var s := Next(m, key);
    var ps := Pendings(m);
    if s.value.None? {
      AllEmptyFlatten(ps);
    } else {
      FlattenPop(ps, s.source);
      DrainIsPermutation(s.state, key);
      var t := Tagged(s.source, s.value.value);
      var rest := Drain(s.state, key);
      assert Drain(m, key) == [t] + rest;
      ValuesCons(t, rest);
    }
  }

  /** A value left in a sorted source is no smaller than that source's head. */
  lemma HeadIsSmallest<T>(q: seq<T>, v: T, key: T -> int)
    requires SortedBy(q, key) && v in q
    ensures key(q[0]) <= key(v)
  { }

  /** If every source is sorted, the merger's output is sorted by (key, source):
      sorted by key, and among equal keys the lower source comes first. */
  lemma {:induction false} DrainIsSorted<T>(m: Merger<T>, key: T -> int)
    requires m.WellFormed() && |m.slots| > 0
    requires forall i | 0 <= i < |m.slots| :: SortedBy(Pendings(m)[i], key)
    ensures LexSorted(Drain(m, key), key)
    decreases Size(m)
  {
    var s := Next(m, key);
    if s.value.Some? {
      FlattenPop(Pendings(m), s.source);
      NextKeepsSourcesSorted(m, key);
      DrainIsSorted(s.state, key);
      NextPrecedesRest(m, key);
      LexSortedCons(Tagged(s.source, s.value.value), Drain(s.state, key), key);
    }
  }

  /** Taking a head off sorted sources leaves them sorted. */
  lemma NextKeepsSourcesSorted<T>(m: Merger<T>, key: T -> int)
    requires m.WellFormed() && |m.slots| > 0
    requires forall i | 0 <= i < |m.slots| :: SortedBy(Pendings(m)[i], key)
    ensures forall i | 0 <= i < |m.slots| :: SortedBy(Pendings(Next(m, key).state)[i], key)
  { }

  /** With sorted sources, the value `next` hands out comes, in (key, source)
      order, before everything the merger hands out after it. */
  lemma NextPrecedesRest<T>(m: Merger<T>, key: T -> int)
    requires m.WellFormed() && |m.slots| > 0
    requires forall i | 0 <= i < |m.slots| :: SortedBy(Pendings(m)[i], key)
    ensures var s := Next(m, key);
      s.value.Some? ==> forall u | u in Drain(s.state, key) :: Precedes(Tagged(s.source, s.value.value), u, key)
  {
    var s := Next(m, key);
    if s.value.Some? {
      DrainKeepsSourceOrder(s.state, key);
      HeadPrecedesRest(Pendings(m), s.source, Drain(s.state, key), key);
    }
  }

  /** The first minimum among the heads of sorted sources precedes, in
      (key, source) order, every value of any interleaving of what is left. */
  lemma HeadPrecedesRest<T>(ps: seq<seq<T>>, k: nat, rest: seq<Tagged<T>>, key: T -> int)
    requires k < |ps| && ps[k] != []
    requires forall i | 0 <= i < |ps| :: SortedBy(ps[i], key)
    requires IsFirstMinimum(Heads(ps), k, key)
    requires forall u | u in rest :: u.source < |ps|
    requires forall i | 0 <= i < |ps| :: Project(rest, i) == Pop(ps, k)[i]
    ensures forall u | u in rest :: Precedes(Tagged(k, ps[k][0]), u, key)
  {
    var t := Tagged(k, ps[k][0]);
    var ps' := Pop(ps, k);
    forall u | u in rest
      ensures Precedes(t, u, key)
    {
      ProjectHasMember(rest, u);
      var i := u.source;
      if i == k {
        assert ps[k] == [ps[k][0]] + ps'[k];
        HeadIsSmallest(ps[k], u.value, key);
      } else {
        assert ps'[i] == ps[i];
        HeadIsSmallest(ps[i], u.value, key);
        assert Heads(ps)[i] == Some(ps[i][0]);
      }
    }
  }

  /** There is at most one merge of a collection of sources. */
  lemma {:induction false} MergeIsUnique<T>(a: seq<Tagged<T>>, b: seq<Tagged<T>>, sources: seq<seq<T>>, key: T -> int)
    requires IsMergeOf(a, sources, key) && IsMergeOf(b, sources, key)
    ensures a == b
    decreases |a| + |b|
  {
    if a == [] || b == [] {
      if a != [] {
        EmptyMerge(b, a, sources, key);
      } else if b != [] {
        EmptyMerge(a, b, sources, key);
      }
    } else {
      var x := a[0];
      var y := b[0];
      assert x in a && y in b;
      assert Project(a, x.source) == [x.value] + Project(a[1..], x.source);
      assert Project(b, y.source) == [y.value] + Project(b[1..], y.source);
      assert x.value in Project(b, x.source);
      ProjectMembersComeFromSource(b, x.source, x.value);
      assert y.value in Project(a, y.source);
      ProjectMembersComeFromSource(a, y.source, y.value);
      assert Precedes(y, x, key) by {
        var p :| 0 <= p < |b| && b[p] == x;
        if p > 0 {
          assert Precedes(b[0], b[p], key);
        }
      }
      assert Precedes(x, y, key) by {
        var p :| 0 <= p < |a| && a[p] == y;
        if p > 0 {
          assert Precedes(a[0], a[p], key);
        }
      }
      var i := x.source;
      assert y.source == i;
      assert Project(a, i)[0] == x.value && Project(b, i)[0] == y.value;
      assert x == y;
      var sources' := sources[i := sources[i][1..]];
      TailIsMerge(a, sources, key);
      TailIsMerge(b, sources, key);
      MergeIsUnique(a[1..], b[1..], sources', key);
      assert a == [x] + a[1..] && b == [y] + b[1..];
    }
  }

  /** If `a` is empty, so is every other merge `b` of the same sources. */
  lemma EmptyMerge<T>(a: seq<Tagged<T>>, b: seq<Tagged<T>>, sources: seq<seq<T>>, key: T -> int)
    requires IsMergeOf(a, sources, key) && IsMergeOf(b, sources, key) && a == []
    ensures b == []
  {
    if b != [] {
      assert b[0] in b;
      ProjectHasMember(b, b[0]);
      assert false;
    }
  }

  /** Dropping the first element of a merge leaves a merge of what is left. */
  lemma TailIsMerge<T>(a: seq<Tagged<T>>, sources: seq<seq<T>>, key: T -> int)
    requires IsMergeOf(a, sources, key) && a != []
    ensures a[0].source < |sources| && sources[a[0].source] != []
    ensures IsMergeOf(a[1..], sources[a[0].source := sources[a[0].source][1..]], key)
  { }

  /** Fed with sorted sources, the merger computes the one merge of them. */
  lemma DrainIsTheMerge<T>(sources: seq<seq<T>>, key: T -> int)
    requires |sources| > 0
    requires forall i | 0 <= i < |sources| :: SortedBy(sources[i], key)
    ensures IsMergeOf(Drain(Init(sources), key), sources, key)
  {
    DrainKeepsSourceOrder(Init(sources), key);
    DrainIsSorted(Init(sources), key);
  }

  /** Pulling at most `limit` values gives the first `limit` values of the whole merge. */
  lemma {:induction false} TakeIsPrefixOfDrain<T>(m: Merger<T>, key: T -> int, limit: nat)
    requires m.WellFormed() && |m.slots| > 0
    ensures var d := Drain(m, key);
      Take(m, key, limit) == d[..if limit < |d| then limit else |d|]
    decreases limit
  {
    var d := Drain(m, key);
    var s := Next(m, key);
    if limit > 0 && s.value.Some? {
      FlattenPop(Pendings(m), s.source);
      var t := Tagged(s.source, s.value.value);
      var d' := Drain(s.state, key);
      assert d == [t] + d';
      if limit > 1 {
        TakeIsPrefixOfDrain(s.state, key, limit - 1);
        ConsPrefix(t, d', limit - 1);
      }
    }
  }

  /** The values `Take` emits: `limit` of them, or all the sources hold if
      that is fewer, and none more often than the sources hold it. */
  lemma TakeValues<T>(m: Merger<T>, key: T -> int, limit: nat)
    requires m.WellFormed() && |m.slots| > 0
    ensures var v := Values(Take(m, key, limit));
      && |v| == (if limit < Size(m) then limit else Size(m))
      && multiset(v) <= multiset(Flatten(Pendings(m)))
      && (Size(m) <= limit ==> multiset(v) == multiset(Flatten(Pendings(m))))
  {
    var d := Drain(m, key);
    TakeIsPrefixOfDrain(m, key, limit);
    DrainIsPermutation(m, key);
    PrefixValues(d, if limit < |d| then limit else |d|, Flatten(Pendings(m)));
  }

  /** With sorted sources, what `Take` emits is sorted by (key, source). */
  lemma TakeIsSorted<T>(m: Merger<T>, key: T -> int, limit: nat)
    requires m.WellFormed() && |m.slots| > 0
    requires forall i | 0 <= i < |m.slots| :: SortedBy(Pendings(m)[i], key)
    ensures LexSorted(Take(m, key, limit), key)
  {
    TakeIsPrefixOfDrain(m, key, limit);
    DrainIsSorted(m, key);
  }

  /** With room for everything, `Take` emits the whole merge. */
  lemma TakeEverything<T>(m: Merger<T>, key: T -> int, limit: nat)
    requires m.WellFormed() && |m.slots| > 0 && Size(m) <= limit
    ensures Take(m, key, limit) == Drain(m, key)
  {
    var d := Drain(m, key);
    TakeIsPrefixOfDrain(m, key, limit);
    assert d[..|d|] == d;
  }

  /** Taking `n + 1` from `[t] + d` is `t` followed by taking `n` from `d`. */
  lemma ConsPrefix<X>(t: X, d: seq<X>, n: nat)
    ensures var c := [t] + d;
      c[..if n + 1 < |c| then n + 1 else |c|] == [t] + d[..if n < |d| then n else |d|]
  { }

  /** What `Take` emits from each source is a prefix of that source, in order. */
  lemma TakeKeepsSourceOrder<T>(m: Merger<T>, key: T -> int, limit: nat)
    requires m.WellFormed() && |m.slots| > 0
    ensures forall i | 0 <= i < |m.slots| :: Project(Take(m, key, limit), i) <= Pendings(m)[i]
  {
    var d := Drain(m, key);
    var n := if limit < |d| then limit else |d|;
    TakeIsPrefixOfDrain(m, key, limit);
    DrainKeepsSourceOrder(m, key);
    forall i | 0 <= i < |m.slots|
      ensures Project(Take(m, key, limit), i) <= Pendings(m)[i]
    {
      ProjectOfPrefix(d, n, i);
    }
  }

  /** With sorted sources, `Take` emits the least values under (key, source):
      a value it leaves out comes after every value it emits. */
  lemma TakeReturnsEarliest<T>(m: Merger<T>, key: T -> int, limit: nat, i: nat, j: nat)
    requires m.WellFormed() && |m.slots| > 0
    requires forall k | 0 <= k < |m.slots| :: SortedBy(Pendings(m)[k], key)
    requires i < |m.slots| && |Project(Take(m, key, limit), i)| <= j < |Pendings(m)[i]|
    ensures forall t | t in Take(m, key, limit) :: Precedes(t, Tagged(i, Pendings(m)[i][j]), key)
  {
    var d := Drain(m, key);
    var n := if limit < |d| then limit else |d|;
    TakeIsPrefixOfDrain(m, key, limit);
    DrainKeepsSourceOrder(m, key);
    DrainIsSorted(m, key);
    PrefixPrecedesRest(d, n, i, j, key);
  }

  /** What `calls` successive calls of `next` answer when the rest of the merge
      is `d`: its values in order, then the sentinel on every later call. */
  function Answers<T>(d: seq<Tagged<T>>, calls: nat): (r: seq<Option<T>>)
    ensures |r| == calls
  {
    seq(calls, j requires 0 <= j < calls => if j < |d| then Some(d[j].value) else None)
  }

  lemma AnswersCons<T>(t: Tagged<T>, d: seq<Tagged<T>>, n: nat)
    ensures Answers([t] + d, n + 1) == [Some(t.value)] + Answers(d, n)
  {
    var l := Answers([t] + d, n + 1);
    var r := [Some(t.value)] + Answers(d, n);
    forall j | 0 <= j < n + 1
      ensures l[j] == r[j]
    {
      if j > 0 {
        assert r[j] == Answers(d, n)[j - 1];
      }
    }
  }

  lemma AnswersEmpty<T>(n: nat)
    ensures Answers<T>([], n + 1) == [None] + Answers<T>([], n)
  { }

  /** The answers of successive calls of `next` are the values of the merge in
      order, then the sentinel on every later call. */
  lemma {:induction false} RunFollowsDrain<T>(m: Merger<T>, key: T -> int, calls: nat)
    requires m.WellFormed() && |m.slots| > 0
    ensures Run(m, key, calls).outputs == Answers(Drain(m, key), calls)
    decreases calls
  {
    if calls > 0 {
      var s := Next(m, key);
      DrainStep(m, key);
      RunStep(m, key, calls);
      if calls > 1 {
        RunFollowsDrain(s.state, key, calls - 1);
      }
      if s.value.None? {
        AnswersEmpty<T>(calls - 1);
      } else {
        AnswersCons(Tagged(s.source, s.value.value), Drain(s.state, key), calls - 1);
      }
    }
  }

  /** The first of `calls` calls of `next`, then the other calls. */
  lemma RunStep<T>(m: Merger<T>, key: T -> int, calls: nat)
    requires m.WellFormed() && |m.slots| > 0 && calls > 0
    ensures var s := Next(m, key);
      Run(m, key, calls).outputs == [s.value] + Run(s.state, key, calls - 1).outputs
  { }

  /** One call of `next` seen from the merge: it answers the merge's first
      value, and the merger afterwards hands out the rest. */
  lemma DrainStep<T>(m: Merger<T>, key: T -> int)
    requires m.WellFormed() && |m.slots| > 0
    ensures var s := Next(m, key);
      && (s.value.None? ==> Drain(m, key) == [] && Drain(s.state, key) == [])
      && (s.value.Some? ==> Drain(m, key) == [Tagged(s.source, s.value.value)] + Drain(s.state, key))
  { }

  /** Every source cut down to its first `n` values. */
  function Truncate<T>(sources: seq<seq<T>>, n: nat): seq<seq<T>> {
    seq(|sources|, i requires 0 <= i < |sources| => if |sources[i]| <= n then sources[i] else sources[i][..n])
  }

  /** Two mergers that will answer the same for the next `n` calls: the same
      slots, and every source of `m'` is a prefix of the one of `m` that is either
      all of it or holds at least `n` values still to give. */
  ghost predicate Agree<T>(m: Merger<T>, m': Merger<T>, n: nat) {
    && m.WellFormed() && m'.WellFormed() && m.slots == m'.slots
    && forall i | 0 <= i < |m.slots| ::
         && m'.sources[i] <= m.sources[i]
         && (m'.sources[i] == m.sources[i] || n <= |Fetcher.Unread(m'.slots[i], m'.sources[i])|)
  }

  lemma FillAgrees<T>(m: Merger<T>, m': Merger<T>, n: nat)
    requires Agree(m, m', n) && 0 < n
    ensures Agree(Fill(m), Fill(m'), n)
  { }

  /** One call on agreeing mergers: the same answer from the same slot, and
      agreement for one call fewer. */
  lemma AgreeStep<T>(m: Merger<T>, m': Merger<T>, n: nat, key: T -> int)
    requires Agree(m, m', n) && 0 < n && |m.slots| > 0
    ensures Next(m, key).value == Next(m', key).value
    ensures Next(m, key).source == Next(m', key).source
    ensures Agree(Next(m, key).state, Next(m', key).state, n - 1)
  {
    FillAgrees(m, m', n);
    var f := Fill(m);
    var f' := Fill(m');
    var s := Select(f, key);
    var s' := Select(f', key);
    assert s == Next(m, key) && s' == Next(m', key);
    assert s.value == s'.value && s.source == s'.source;
    forall i | 0 <= i < |m.slots|
      ensures s'.state.sources[i] == s.state.sources[i] || n - 1 <= |Fetcher.Unread(s'.state.slots[i], s'.state.sources[i])|
    { }
  }

  lemma {:induction false} TakeAgrees<T>(m: Merger<T>, m': Merger<T>, n: nat, key: T -> int)
    requires Agree(m, m', n) && |m.slots| > 0
    ensures Take(m, key, n) == Take(m', key, n)
    decreases n
  {
    if n > 0 {
      AgreeStep(m, m', n, key);
      if n > 1 {
        TakeAgrees(Next(m, key).state, Next(m', key).state, n - 1, key);
      }
    }
  }

  lemma {:induction false} RunAgrees<T>(m: Merger<T>, m': Merger<T>, n: nat, calls: nat, key: T -> int)
    requires Agree(m, m', n) && |m.slots| > 0 && calls <= n
    ensures Run(m, key, calls).outputs == Run(m', key, calls).outputs
    decreases calls
  {
    if calls > 0 {
      AgreeStep(m, m', n, key);
      RunStep(m, key, calls);
      RunStep(m', key, calls);
      if calls > 1 {
        RunAgrees(Next(m, key).state, Next(m', key).state, n - 1, calls - 1, key);
      }
    }
  }

  lemma InitAgrees<T>(sources: seq<seq<T>>, n: nat)
    ensures Agree(Init(sources), Init(Truncate(sources, n)), n)
  { }

  /** The laziness theorem: pulling `limit` values from the merge of the full
      sources gives the same values, from the same sources, as pulling them from
      the merge of every source's first `limit` values. */
  lemma TakeOfTruncatedSources<T>(sources: seq<seq<T>>, key: T -> int, limit: nat)
    requires |sources| > 0
    ensures Take(Init(sources), key, limit) == Take(Init(Truncate(sources, limit)), key, limit)
  {
    InitAgrees(sources, limit);
    TakeAgrees(Init(sources), Init(Truncate(sources, limit)), limit, key);
  }

  /** The first `calls` answers of `next` depend only on the first `calls` values of every source. */
  lemma FirstCallsSeeOnlyPrefixes<T>(sources: seq<seq<T>>, key: T -> int, calls: nat)
    requires |sources| > 0
    ensures Run(Init(sources), key, calls).outputs == Run(Init(Truncate(sources, calls)), key, calls).outputs
  {
    InitAgrees(sources, calls);
    RunAgrees(Init(sources), Init(Truncate(sources, calls)), calls, calls, key);
  }

  /** A merger over a single source gives that source back unchanged, sorted or not. */
  lemma SingleSourceIsReproduced<T>(s: seq<T>, key: T -> int)
    ensures Values(Drain(Init([s]), key)) == s
  {
    var d := Drain(Init([s]), key);
    DrainKeepsSourceOrder(Init([s]), key);
    forall p | 0 <= p < |d|
      ensures d[p].source == 0
    {
      assert d[p] in d;
    }
    ProjectAll(d, 0);
  }
}
