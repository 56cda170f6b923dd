/** The lazy k-way merge (`KWayMerger`).

    The merger keeps one pending slot per source. Every call of `Next` refills
    each empty slot by fetching once from its source, picks the slot holding the
    smallest value (the lowest index on a tie), empties that slot and returns its
    value. `None` plays two roles: an empty slot, and the answer of an exhausted
    source or of an exhausted merger.

    The state is the pair (slots, sources), where `sources[i]` is the part of
    source `i` that has not been fetched yet. What source `i` still has to give
    is its slot's value, if any, followed by `sources[i]`: `Pendings(m)[i]`. */
module KWayMerger {
  import opened Wrappers
  import opened Ordering
  import Fetcher

  datatype Merger<T> = Merger(slots: seq<Option<T>>, sources: seq<seq<T>>) {
    predicate WellFormed() {
      |slots| == |sources|
    }

    /** Every empty slot belongs to an exhausted source. */
    predicate Filled() {
      WellFormed() && forall i | 0 <= i < |slots| :: slots[i].None? ==> sources[i] == []
    }
  }

  /** What every source still has to give. */
  function Pendings<T>(m: Merger<T>): (ps: seq<seq<T>>)
    requires m.WellFormed()
    ensures |ps| == |m.slots|
  {
    seq(|m.slots|, i requires 0 <= i < |m.slots| => Fetcher.Unread(m.slots[i], m.sources[i]))
  }

  /** How many values the merger still has to emit. */
  function Size<T>(m: Merger<T>): nat
    requires m.WellFormed()
  {
    |Flatten(Pendings(m))|
  }

  /** A new merger: every slot empty, nothing fetched yet. */
  function Init<T>(sources: seq<seq<T>>): (m: Merger<T>)
    ensures m.WellFormed() && |m.slots| == |sources|
    // every slot starts empty and no source has been fetched from
    ensures forall i | 0 <= i < |m.slots| :: m.slots[i].None?
    ensures m.sources == sources
    ensures Pendings(m) == sources
  {
    Merger(seq(|sources|, _ => None), sources)
  }

  /** The refill of one slot: a slot that holds a value is left alone, an empty
      slot is fetched into once. */
  function Refill<T>(slot: Option<T>, source: seq<T>): Fetcher.Fetched<T> {
    if slot.Some? then Fetcher.Fetched(slot, source) else Fetcher.Next(source)
  }

  /** `_fill_up_empty_next_value_slots`. */
  function Fill<T>(m: Merger<T>): (r: Merger<T>)
    requires m.WellFormed()
    ensures r.Filled() && |r.slots| == |m.slots|
    // nothing is lost or reordered
    ensures Pendings(r) == Pendings(m)
    // a slot already holding a value is not fetched into again
    ensures forall i | 0 <= i < |m.slots| && m.slots[i].Some? :: r.slots[i] == m.slots[i] && r.sources[i] == m.sources[i]
    // every fetcher is called at most once
    ensures forall i | 0 <= i < |m.slots| :: |m.sources[i]| <= |r.sources[i]| + 1
  {
    Merger(
      seq(|m.slots|, i requires 0 <= i < |m.slots| => Refill(m.slots[i], m.sources[i]).value),
      seq(|m.slots|, i requires 0 <= i < |m.slots| => Refill(m.slots[i], m.sources[i]).remaining))
  }

  /** After a refill the slots are exactly the heads of what the sources still have to give. */
  lemma FilledSlotsAreHeads<T>(m: Merger<T>)
    requires m.Filled()
    ensures m.slots == Heads(Pendings(m))
  { }

  /** The result of `_find_smallest`: the index of the slot chosen (`None` when
      there are no slots) and the value it holds. */
  datatype Smallest<T> = Smallest(index: Option<nat>, value: Option<T>)

  /** The loop of `_find_smallest` after it has looked at the first `n` slots.
      A slot replaces the current choice when nothing real is chosen yet, or when
      it holds a value with a strictly smaller key. */
  function Scan<T>(slots: seq<Option<T>>, n: nat, key: T -> int): (r: Smallest<T>)
    requires n <= |slots|
    ensures r.index.None? <==> n == 0
    ensures r.index.Some? ==> r.index.value < n && r.value == slots[r.index.value]
    ensures r.value.Some? <==> exists j :: 0 <= j < n && slots[j].Some?
    ensures r.value.Some? ==> IsFirstMinimum(slots[..n], r.index.value, key)
    // when nothing real has been seen, the last slot looked at is the choice
    ensures 0 < n && r.value.None? ==> r.index == Some(n - 1)
  {
    if n == 0 then Smallest(None, None)
    else
      var acc := Scan(slots, n - 1, key);
      var current := slots[n - 1];
      if acc.value.None? || (current.Some? && key(current.value) < key(acc.value.value)) then
        Smallest(Some(n - 1), current)
      else
        acc
  }

  /** `_find_smallest`. */
  function FindSmallest<T>(slots: seq<Option<T>>, key: T -> int): (r: Smallest<T>)
    ensures r.index.None? <==> slots == []
    ensures r.index.Some? ==> r.index.value < |slots| && r.value == slots[r.index.value]
    // a real value is chosen whenever some slot holds one: an exhausted slot never wins
    ensures r.value.Some? <==> exists j :: 0 <= j < |slots| && slots[j].Some?
    // the smallest key, the lowest index among equal keys
    ensures r.value.Some? ==> IsFirstMinimum(slots, r.index.value, key)
    // with every slot empty, the last slot is the choice
    ensures slots != [] && r.value.None? ==> r.index == Some(|slots| - 1)
  {
    assert slots[..|slots|] == slots;
    Scan(slots, |slots|, key)
  }

  /** The outcome of one call: the value returned, the slot it came from, and
      the merger afterwards. */
  datatype Step<T> = Step(value: Option<T>, source: nat, state: Merger<T>)

  /** `_return_and_drop_smallest_from_next_values`. With no slots at all the
      source fails (it indexes the slot list with `None`), hence the requirement. */
  function Select<T>(m: Merger<T>, key: T -> int): (r: Step<T>)
    requires m.WellFormed() && |m.slots| > 0
    ensures r.source < |m.slots| && r.value == m.slots[r.source]
    ensures r.value.Some? ==> IsFirstMinimum(m.slots, r.source, key)
    ensures r.value.None? <==> forall i | 0 <= i < |m.slots| :: m.slots[i].None?
    // only the winning slot is emptied; nothing is fetched
    ensures r.state.sources == m.sources && |r.state.slots| == |m.slots|
    ensures r.state.slots[r.source].None?
    ensures forall i | 0 <= i < |m.slots| && i != r.source :: r.state.slots[i] == m.slots[i]
  {
    var s := FindSmallest(m.slots, key);
    var k := s.index.value;
    Step(s.value, k, Merger(m.slots[k := None], m.sources))
  }

  /** `KWayMerger.next`. */
  function Next<T>(m: Merger<T>, key: T -> int): (r: Step<T>)
    requires m.WellFormed() && |m.slots| > 0
    ensures r.state.WellFormed() && |r.state.slots| == |m.slots| && r.source < |m.slots|
    // the sentinel is returned exactly when every source is used up, and then nothing changes
    ensures r.value.None? <==> forall i | 0 <= i < |m.slots| :: Pendings(m)[i] == []
    ensures r.value.None? ==> Pendings(r.state) == Pendings(m)
    // otherwise the first minimum among the sources' heads is removed from its source and returned
    ensures r.value.Some? ==>
      && IsFirstMinimum(Heads(Pendings(m)), r.source, key)
      && r.value == Heads(Pendings(m))[r.source]
      && Pendings(r.state) == Pop(Pendings(m), r.source)
    // laziness: a source whose slot holds a value is not fetched from, any other at most once
    ensures forall i | 0 <= i < |m.slots| && m.slots[i].Some? :: r.state.sources[i] == m.sources[i]
    ensures forall i | 0 <= i < |m.slots| :: |m.sources[i]| <= |r.state.sources[i]| + 1
  {
    var f := Fill(m);
    FilledSlotsAreHeads(f);
    var r := Select(f, key);
    SelectFromFilled(f, r);
    r
  }

  /** Emptying one slot of a filled merger takes exactly that slot's head off
      its source; emptying an empty slot changes nothing. */
  lemma SelectFromFilled<T>(f: Merger<T>, r: Step<T>)
    requires f.WellFormed() && f.Filled() && r.source < |f.slots|
    requires r.value == f.slots[r.source]
    requires r.state.sources == f.sources && |r.state.slots| == |f.slots|
    requires r.state.slots[r.source].None?
    requires forall i | 0 <= i < |f.slots| && i != r.source :: r.state.slots[i] == f.slots[i]
    ensures r.value.None? ==> Pendings(r.state) == Pendings(f)
    ensures r.value.Some? ==> Pendings(f)[r.source] != [] && Pendings(r.state) == Pop(Pendings(f), r.source)
  { }

  /** Every value a merger emits, tagged with its source, from now until it
      answers with the sentinel. */
  function Drain<T>(m: Merger<T>, key: T -> int): (out: seq<Tagged<T>>)
    requires m.WellFormed() && |m.slots| > 0
    ensures |out| == Size(m)
    ensures forall t | t in out :: t.source < |m.slots|
    decreases Size(m)
  {
    var s := Next(m, key);
    if s.value.None? then
      AllEmptyFlatten(Pendings(m));
      []
    else
      var ps := Pendings(m);
      FlattenPop(ps, s.source);
      assert Size(s.state) < Size(m);
      [Tagged(s.source, s.value.value)] + Drain(s.state, key)
  }

  /** Sources that are all exhausted hold nothing together. */
  lemma {:induction false} AllEmptyFlatten<T>(ps: seq<seq<T>>)
    requires forall i | 0 <= i < |ps| :: ps[i] == []
    ensures Flatten(ps) == []
    decreases |ps|
  {
    if ps != [] {
      AllEmptyFlatten(ps[1..]);
    }
  }

  /** The answers of `calls` successive calls of `next`, and the merger afterwards. */
  datatype Trace<T> = Trace(outputs: seq<Option<T>>, state: Merger<T>)

  function Run<T>(m: Merger<T>, key: T -> int, calls: nat): (r: Trace<T>)
    requires m.WellFormed() && |m.slots| > 0
    ensures |r.outputs| == calls
    ensures r.state.WellFormed() && |r.state.slots| == |m.slots|
    // laziness bound: after `calls` calls no source has been fetched from more than `calls` times
    ensures forall i | 0 <= i < |m.slots| :: |m.sources[i]| <= |r.state.sources[i]| + calls
    decreases calls
  {
    if calls == 0 then Trace([], m)
    else
      var s := Next(m, key);
      var t := Run(s.state, key, calls - 1);
      Trace([s.value] + t.outputs, t.state)
  }

  /** Pull up to `limit` values, stopping early at the sentinel: how a caller
      that wants at most `limit` values drives the merger. */
  function Take<T>(m: Merger<T>, key: T -> int, limit: nat): (out: seq<Tagged<T>>)
    requires m.WellFormed() && |m.slots| > 0
    ensures |out| <= limit
    ensures forall t | t in out :: t.source < |m.slots|
    decreases limit
  {
    if limit == 0 then []
    else
      var s := Next(m, key);
      if s.value.None? then [] else [Tagged(s.source, s.value.value)] + Take(s.state, key, limit - 1)
  }
}
