/** The merge of several copies of one list: every value comes out once per
    copy before the next value comes out at all. */
module IdenticalSources {
  import opened Ordering
  import opened KWayMerger
  import opened KWayMergerLemmas

  /** Every value of `s`, each repeated `n` times in a row. */
  function Stutter<T>(s: seq<T>, n: nat): seq<T> {
    if s == [] then [] else seq(n, _ => s[0]) + Stutter(s[1..], n)
  }

  /** `x` once from each of the sources 0, ..., `n - 1`, in that order. */
  function Row<T>(x: T, n: nat): seq<Tagged<T>> {
    seq(n, p requires 0 <= p < n => Tagged(p, x))
  }

  /** For every value of `s` in turn, that value from each of `n` sources. */
  function Rounds<T>(s: seq<T>, n: nat): seq<Tagged<T>> {
    if s == [] then [] else Row(s[0], n) + Rounds(s[1..], n)
  }

  lemma {:induction false} RowProject<T>(x: T, n: nat, i: nat)
    ensures Project(Row(x, n), i) == if i < n then [x] else []
    decreases n
  {
    if n > 0 {
      assert Row(x, n) == Row(x, n - 1) + [Tagged(n - 1, x)];
      ProjectAppend(Row(x, n - 1), [Tagged(n - 1, x)], i);
      RowProject(x, n - 1, i);
    }
  }

  lemma {:induction false} RoundsProject<T>(s: seq<T>, n: nat, i: nat)
    requires i < n
    ensures Project(Rounds(s, n), i) == s
    decreases |s|
  {
    if s != [] {
      ProjectAppend(Row(s[0], n), Rounds(s[1..], n), i);
      RowProject(s[0], n, i);
      RoundsProject(s[1..], n, i);
      assert s == [s[0]] + s[1..];
    }
  }

  lemma {:induction false} RoundsMembers<T>(s: seq<T>, n: nat)
    ensures forall t | t in Rounds(s, n) :: t.value in s && t.source < n
    decreases |s|
  {
    if s != [] {
      RoundsMembers(s[1..], n);
    }
  }

  lemma {:induction false} RoundsSorted<T>(s: seq<T>, n: nat, key: T -> int)
    requires StrictlySortedBy(s, key)
    ensures LexSorted(Rounds(s, n), key)
    decreases |s|
  {
    if s != [] {
      var row := Row(s[0], n);
      var rest := Rounds(s[1..], n);
      RoundsSorted(s[1..], n, key);
      RoundsMembers(s[1..], n);
      forall x, y | x in row && y in rest
        ensures Precedes(x, y, key)
      {
        var p :| 1 <= p < |s| && s[p] == y.value;
      }
      LexSortedAppend(row, rest, key);
    }
  }

  lemma {:induction false} RoundsValues<T>(s: seq<T>, n: nat)
    ensures Values(Rounds(s, n)) == Stutter(s, n)
    decreases |s|
  {
    if s != [] {
      RoundsValues(s[1..], n);
      ValuesAppend(Row(s[0], n), Rounds(s[1..], n));
      assert Values(Row(s[0], n)) == seq(n, _ => s[0]);
    }
  }

  /** Merging `n` copies of a strictly increasing list yields each of its values
      `n` times, in order. */
  lemma IdenticalSourcesRepeatEachValue<T>(s: seq<T>, n: nat, key: T -> int)
    requires 0 < n && StrictlySortedBy(s, key)
    ensures Values(Drain(Init(seq(n, _ => s)), key)) == Stutter(s, n)
  {
    var sources := seq(n, _ => s);
    var r := Rounds(s, n);
    RoundsMembers(s, n);
    RoundsSorted(s, n, key);
    RoundsValues(s, n);
    forall i | 0 <= i < n
      ensures Project(r, i) == sources[i]
    {
      RoundsProject(s, n, i);
    }
    assert IsMergeOf(r, sources, key);
    DrainIsTheMerge(sources, key);
    MergeIsUnique(Drain(Init(sources), key), r, sources, key);
  }
}
