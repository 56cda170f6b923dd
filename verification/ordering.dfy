/** Orderings and views shared by the merger and its theorems.

    Every element the merger emits is tagged with the index of the source it
    came from. The merger orders elements by an integer key and breaks ties by
    the lower source index, so its output is sorted by the pair (key, source). */
module Ordering {
  import opened Wrappers

  /** An emitted element together with the index of the source it came from. */
  datatype Tagged<T> = Tagged(source: nat, value: T)

  /** `s` is non-decreasing under `key`. */
  predicate SortedBy<T>(s: seq<T>, key: T -> int) {
    forall i, j | 0 <= i < j < |s| :: key(s[i]) <= key(s[j])
  }

  /** `s` is strictly increasing under `key`. */
  predicate StrictlySortedBy<T>(s: seq<T>, key: T -> int) {
    forall i, j | 0 <= i < j < |s| :: key(s[i]) < key(s[j])
  }

  /** `a` may come before `b`: a smaller key, or an equal key from a source
      that is not later. */
  predicate Precedes<T>(a: Tagged<T>, b: Tagged<T>, key: T -> int) {
    key(a.value) < key(b.value) || (key(a.value) == key(b.value) && a.source <= b.source)
  }

  /** `s` is sorted by (key, source). */
  predicate LexSorted<T>(s: seq<Tagged<T>>, key: T -> int) {
    forall i, j | 0 <= i < j < |s| :: Precedes(s[i], s[j], key)
  }

  /** The values of `s`, tags dropped. */
  function Values<T>(s: seq<Tagged<T>>): seq<T> {
    seq(|s|, p requires 0 <= p < |s| => s[p].value)
  }

  /** The values `s` took from source `i`, in the order `s` emits them. */
  function Project<T>(s: seq<Tagged<T>>, i: nat): seq<T> {
    if s == [] then []
    else (if s[0].source == i then [s[0].value] else []) + Project(s[1..], i)
  }

  /** All sources one after another. */
  function Flatten<T>(ps: seq<seq<T>>): seq<T> {
    if ps == [] then [] else ps[0] + Flatten(ps[1..])
  }

  /** The first element of every source, `None` for an empty one. */
  function Heads<T>(ps: seq<seq<T>>): seq<Option<T>> {
    seq(|ps|, i requires 0 <= i < |ps| => if ps[i] == [] then None else Some(ps[i][0]))
  }

  /** Source `k` with its first element removed. */
  function Pop<T>(ps: seq<seq<T>>, k: nat): seq<seq<T>>
    requires k < |ps| && ps[k] != []
  {
    ps[k := ps[k][1..]]
  }

  /** Slot `k` holds a value with the smallest key among all values held, and
      no earlier slot holds a value with that key. */
  predicate IsFirstMinimum<T>(slots: seq<Option<T>>, k: nat, key: T -> int) {
    && k < |slots|
    && slots[k].Some?
    && (forall j | 0 <= j < |slots| && slots[j].Some? :: key(slots[k].value) <= key(slots[j].value))
    && (forall j | 0 <= j < k && slots[j].Some? :: key(slots[k].value) < key(slots[j].value))
  }

  /** The tie-break makes the choice deterministic: at most one slot is the
      first minimum. */
  lemma FirstMinimumUnique<T>(slots: seq<Option<T>>, a: nat, b: nat, key: T -> int)
    requires IsFirstMinimum(slots, a, key) && IsFirstMinimum(slots, b, key)
    ensures a == b
  { }

  lemma {:induction false} ProjectAppend<T>(a: seq<Tagged<T>>, b: seq<Tagged<T>>, i: nat)
    ensures Project(a + b, i) == Project(a, i) + Project(b, i)
    decreases |a|
  {
    if a == [] {
      assert a + b == b;
    } else {
      var h := if a[0].source == i then [a[0].value] else [];
      assert (a + b)[0] == a[0];
      assert (a + b)[1..] == a[1..] + b;
      ProjectAppend(a[1..], b, i);
      assert Project(a + b, i) == h + (Project(a[1..], i) + Project(b, i));
      assert Project(a, i) == h + Project(a[1..], i);
    }
  }

  /** Whatever `s` emits from source `t.source` shows up in that source's projection. */
  lemma {:induction false} ProjectHasMember<T>(s: seq<Tagged<T>>, t: Tagged<T>)
    requires t in s
    ensures t.value in Project(s, t.source)
    decreases |s|
  {
    if s[0] != t {
      ProjectHasMember(s[1..], t);
    }
  }

  /** A projection only holds values that `s` emitted from that source. */
  lemma {:induction false} ProjectMembersComeFromSource<T>(s: seq<Tagged<T>>, i: nat, v: T)
    requires v in Project(s, i)
    ensures Tagged(i, v) in s
    decreases |s|
  {
    if s[0] != Tagged(i, v) {
      ProjectMembersComeFromSource(s[1..], i, v);
    }
  }

  /** Projecting onto a source that `s` never names gives nothing. */
  lemma {:induction false} ProjectOther<T>(s: seq<Tagged<T>>, i: nat)
    requires forall p | 0 <= p < |s| :: s[p].source != i
    ensures Project(s, i) == []
    decreases |s|
  {
    if s != [] {
      ProjectOther(s[1..], i);
    }
  }

  /** When every element of `s` comes from source `i`, its projection onto `i`
      is all of its values. */
  lemma {:induction false} ProjectAll<T>(s: seq<Tagged<T>>, i: nat)
    requires forall p | 0 <= p < |s| :: s[p].source == i
    ensures Project(s, i) == Values(s)
    decreases |s|
  {
    if s != [] {
      ProjectAll(s[1..], i);
      assert Values(s) == [s[0].value] + Values(s[1..]);
    }
  }

  lemma ValuesCons<T>(t: Tagged<T>, s: seq<Tagged<T>>)
    ensures Values([t] + s) == [t.value] + Values(s)
    ensures multiset(Values([t] + s)) == multiset{t.value} + multiset(Values(s))
  {
    assert Values([t] + s) == [t.value] + Values(s);
  }

  lemma ValuesAppend<T>(a: seq<Tagged<T>>, b: seq<Tagged<T>>)
    ensures Values(a + b) == Values(a) + Values(b)
  { }

  /** Two sorted runs, the first wholly before the second, make one sorted run. */
  lemma LexSortedAppend<T>(a: seq<Tagged<T>>, b: seq<Tagged<T>>, key: T -> int)
    requires LexSorted(a, key) && LexSorted(b, key)
    requires forall x, y | x in a && y in b :: Precedes(x, y, key)
    ensures LexSorted(a + b, key)
  { }

  /** In a sequence sorted by (key, source), everything in a prefix precedes
      every value of a source that the prefix has not reached yet. */
  lemma PrefixPrecedesRest<T>(d: seq<Tagged<T>>, n: nat, i: nat, j: nat, key: T -> int)
    requires LexSorted(d, key) && n <= |d|
    requires |Project(d[..n], i)| <= j < |Project(d, i)|
    ensures forall t | t in d[..n] :: Precedes(t, Tagged(i, Project(d, i)[j]), key)
  {
    var q := LocateBeyondPrefix(d, n, i, j);
    forall t | t in d[..n]
      ensures Precedes(t, d[q], key)
    {
      var p :| 0 <= p < n && d[..n][p] == t;
      assert d[p] == t;
    }
  }

  /** The `j`-th value of source `i` lies beyond a prefix that holds fewer than
      `j + 1` values of that source. */
  lemma LocateBeyondPrefix<T>(d: seq<Tagged<T>>, n: nat, i: nat, j: nat) returns (q: nat)
    requires n <= |d| && |Project(d[..n], i)| <= j < |Project(d, i)|
    ensures n <= q < |d| && d[q] == Tagged(i, Project(d, i)[j])
  {
    var left := Project(d, i)[j];
    assert d == d[..n] + d[n..];
    ProjectAppend(d[..n], d[n..], i);
    assert left == Project(d[n..], i)[j - |Project(d[..n], i)|];
    ProjectMembersComeFromSource(d[n..], i, left);
    var r :| 0 <= r < |d[n..]| && d[n..][r] == Tagged(i, left);
    q := n + r;
  }

  /** A prefix of a sequence whose values are a permutation of `all` holds
      `n` of those values, none more often than `all` does. */
  lemma PrefixValues<T>(d: seq<Tagged<T>>, n: nat, all: seq<T>)
    requires n <= |d| && multiset(Values(d)) == multiset(all)
    ensures |Values(d[..n])| == n
    ensures multiset(Values(d[..n])) <= multiset(all)
    ensures n == |d| ==> multiset(Values(d[..n])) == multiset(all)
  {
    assert d == d[..n] + d[n..];
    ValuesAppend(d[..n], d[n..]);
  }

  /** The projection of a prefix is a prefix of the projection. */
  lemma ProjectOfPrefix<T>(s: seq<Tagged<T>>, n: nat, i: nat)
    requires n <= |s|
    ensures Project(s[..n], i) <= Project(s, i)
  {
    assert s == s[..n] + s[n..];
    ProjectAppend(s[..n], s[n..], i);
  }

  /** Removing the first element of one source removes exactly that element
      from the whole collection. */
  lemma {:induction false} FlattenPop<T>(ps: seq<seq<T>>, k: nat)
    requires k < |ps| && ps[k] != []
    ensures multiset(Flatten(ps)) == multiset(Flatten(Pop(ps, k))) + multiset{ps[k][0]}
    ensures |Flatten(Pop(ps, k))| + 1 == |Flatten(ps)|
    decreases |ps|
  {
    var q := Pop(ps, k);
    if k == 0 {
      assert q[1..] == ps[1..];
      assert ps[0] == [ps[0][0]] + ps[0][1..];
    } else {
      assert q[1..] == Pop(ps[1..], k - 1);
      FlattenPop(ps[1..], k - 1);
    }
    assert |multiset(Flatten(ps))| == |Flatten(ps)|;
  }

  /** A sequence sorted by (key, source) is sorted by key. */
  lemma LexSortedValues<T>(s: seq<Tagged<T>>, key: T -> int)
    requires LexSorted(s, key)
    ensures SortedBy(Values(s), key)
  { }

  /** Prepending an element that precedes everything keeps a sequence sorted by (key, source). */
  lemma LexSortedCons<T>(t: Tagged<T>, s: seq<Tagged<T>>, key: T -> int)
    requires LexSorted(s, key)
    requires forall u | u in s :: Precedes(t, u, key)
    ensures LexSorted([t] + s, key)
  { }
}
