/**
 The slab behind the schedule runner: a vector of cells whose dead cells are threaded into a free
 list (`src/schedule_runner.rs`, module `index_map`).

 `IndexMap` is the structure as the program lays it out.  `Slab` is what it means: a finite map from
 indices to elements, together with the stack of freed indices.  Every operation of the class is
 proved equal to an operation on `Slab`, and the lemmas at the end speak of whole histories.
 */
module IndexMaps {
  import opened Options

  datatype Entry<+E> = Element(elem: E) | Empty(next: Option<nat>)

  /** The meaning of an `IndexMap`: live elements by index, and freed indices, latest first. */
  datatype Slab<E> = Slab(live: map<nat, E>, free: seq<nat>) {

    /** How many cells have ever been allocated. */
    function Capacity(): nat {
      |live| + |free|
    }

    /** The allocated indices are exactly `0..Capacity()`; each is live or free, once. */
    ghost predicate WellFormed() {
      && Distinct(free)
      && (forall i <- free :: i !in live)
      && (forall i: nat :: i in live || i in free <==> i < Capacity())
    }

    function InsertIndex(): nat {
      if free == [] then |live| else free[0]
    }

    function Inserted(e: E): Slab<E> {
      Slab(live[InsertIndex() := e], if free == [] then [] else free[1..])
    }

    function Removed(i: nat): Slab<E> {
      if i in live then Slab(live - {i}, [i] + free) else this
    }

    function Updated(i: nat, e: E): Slab<E> {
      if i in live then Slab(live[i := e], free) else this
    }

    /** Examines the indices from `i` up to `n`, removing each live element that fails `keep`. */
    function RetainedFrom(keep: (nat, E) -> bool, i: nat, n: nat): Slab<E>
      requires i <= n
      decreases n - i
    {
      if i == n then this
      else (if i in live && !keep(i, live[i]) then Removed(i) else this).RetainedFrom(keep, i + 1, n)
    }

    function Retained(keep: (nat, E) -> bool): Slab<E> {
      RetainedFrom(keep, 0, Capacity())
    }
  }

  ghost predicate Distinct(s: seq<nat>) {
    forall j, k :: 0 <= j < k < |s| ==> s[j] != s[k]
  }

  function HeadOf(free: seq<nat>): Option<nat> {
    if free == [] then None else Some(free[0])
  }

  /**
   `free` is the path that starts at `next` and follows the pointers stored in empty cells.  It ends
   in `None`, never repeats a cell, and passes through every empty cell.
   */
  ghost predicate Threaded<E>(entries: seq<Entry<E>>, next: Option<nat>, free: seq<nat>) {
    && next == HeadOf(free)
    && Distinct(free)
    && Chain(entries, free)
    && (forall i :: 0 <= i < |entries| && entries[i].Empty? ==> i in free)
  }

  /** Each cell of the path is empty and points to the next one; the last points nowhere. */
  ghost predicate Chain<E>(entries: seq<Entry<E>>, free: seq<nat>) {
    free != [] ==>
      && free[0] < |entries|
      && entries[free[0]] == Empty(HeadOf(free[1..]))
      && Chain(entries, free[1..])
  }

  function LiveOf<E>(entries: seq<Entry<E>>): map<nat, E> {
    map i: nat | i < |entries| && entries[i].Element? :: entries[i].elem
  }

  /** The live pairs at or after `from`, in index order. */
  function Items<E>(entries: seq<Entry<E>>, from: nat): seq<(nat, E)>
    requires from <= |entries|
    decreases |entries| - from
  {
    if from == |entries| then []
    else
      match entries[from]
      case Empty(_) => Items(entries, from + 1)
      case Element(e) => [(from, e)] + Items(entries, from + 1)
  }

  class IndexMap<E> {
    var entries: seq<Entry<E>>
    var nextEmpty: Option<nat>
    ghost var free: seq<nat>

    ghost predicate Valid()
      reads this
    {
      Threaded(entries, nextEmpty, free)
    }

    ghost function View(): Slab<E>
      reads this
    {
      Slab(LiveOf(entries), free)
    }

    constructor ()
      ensures Valid() && View() == Slab(map[], []) && entries == []
    {
      entries, nextEmpty, free := [], None, [];
    }

    /** Takes the first free cell, or grows the vector when there is none. */
    method Insert(element: E) returns (index: nat)
      requires Valid()
      modifies this
      ensures Valid() && index == old(View().InsertIndex()) && View() == old(View().Inserted(element))
      ensures index !in old(View().live) && View().live == old(View().live)[index := element]
      ensures entries == old(if nextEmpty.None? then entries + [Element(element)]
                             else entries[nextEmpty.value := Element(element)])
    {
      ThreadedIsWellFormed(entries, nextEmpty, free);
      match nextEmpty
      case None =>
        GrowThread(entries, element);
        index := |entries|;
        entries := entries + [Element(element)];
      case Some(head) =>
        PopThread(entries, free, element);
        index := head;
        var empty := entries[index];
        entries := entries[index := Element(element)];
        nextEmpty := empty.next;
        free := free[1..];
    }

    /** Frees the cell at `idx`, making it the head of the free list, if it holds an element. */
    method RemoveEntry(idx: nat) returns (r: Option<E>)
      requires Valid() && idx < |entries|
      modifies this
      ensures Valid() && View() == old(View().Removed(idx)) && |entries| == |old(entries)|
      ensures entries == old(entries)[idx := entries[idx]]
      ensures r == old(if idx in View().live then Some(View().live[idx]) else None)
    {
      match entries[idx]
      case Element(elem) =>
        PushThread(entries, free, idx);
        entries := entries[idx := Empty(nextEmpty)];
        nextEmpty := Some(idx);
        free := [idx] + free;
        r := Some(elem);
      case Empty(_) =>
        r := None;
    }

    method Remove(idx: nat) returns (r: Option<E>)
      requires Valid() && idx < |entries|
      modifies this
      ensures Valid() && View() == old(View().Removed(idx)) && |entries| == |old(entries)|
      ensures View().live == old(View().live) - {idx}
      ensures r == old(if idx in View().live then Some(View().live[idx]) else None)
    {
      r := RemoveEntry(idx);
    }

    /**
     Removes every element that fails `keep`; the survivors stay where they are.  A test with state of
     its own is asked about each index at most once, so its answers are a function of the index too.
     */
    method Retain(keep: (nat, E) -> bool)
      requires Valid()
      modifies this
      ensures Valid() && View() == old(View().Retained(keep)) && |entries| == |old(entries)|
      ensures View().live == Kept(old(View().live), keep, 0)
    {
      ghost var before := View();
      ThreadedIsWellFormed(entries, nextEmpty, free);
      hide Threaded, Kept, HeadOf, Distinct;
      for idx := 0 to |entries|
        invariant Valid() && |entries| == |old(entries)| == before.Capacity()
        invariant View().RetainedFrom(keep, idx, |entries|) == before.Retained(keep)
      {
        RetainOne(View(), keep, idx, |entries|);
        var retain := match entries[idx] case Element(elem) => keep(idx, elem) case Empty(_) => true;
        if !retain {
          var _ := RemoveEntry(idx);
        }
      }
      RetainOne(View(), keep, |entries|, |entries|);
      assert View() == before.Retained(keep);
      RetainedKeepsExactly(before, keep, 0, |entries|);
    }

    /** Indexing panics on a dead cell, so the caller must name a live one. */
    method Index(idx: nat) returns (elem: E)
      requires Valid() && idx in View().live
      ensures elem == View().live[idx]
    {
      elem := entries[idx].elem;
    }

    /** Writing through the reference that mutable indexing or mutable iteration hands out. */
    method IndexMut(idx: nat, elem: E)
      requires Valid() && idx in View().live
      modifies this
      ensures Valid() && View() == old(View().Updated(idx, elem)) && entries == old(entries)[idx := Element(elem)]
    {
      ChainCells(entries, free);
      ChainFrame(entries, entries[idx := Element(elem)], free);
      entries := entries[idx := Element(elem)];
    }

    static method FromIter(items: seq<E>) returns (m: IndexMap<E>)
      ensures fresh(m) && m.Valid() && m.View().free == []
      ensures Items(m.entries, 0) == seq(|items|, i requires 0 <= i < |items| => (i, items[i]))
    {
      m := new IndexMap();
      for n := 0 to |items|
        invariant fresh(m) && m.Valid() && m.free == []
        invariant m.entries == seq(n, i requires 0 <= i < n => Element(items[i]))
      {
        var _ := m.Insert(items[n]);
        assert LiveOf(m.entries) == LiveOf(m.entries);
      }
      ItemsOfElements(m.entries, items, 0);
    }
  }

  /** Both iterators of the source: a position that skips dead cells. */
  class Iter<E> {
    const indexMap: IndexMap<E>
    var index: nat

    constructor (indexMap: IndexMap<E>)
      ensures this.indexMap == indexMap && index == 0
    {
      this.indexMap, index := indexMap, 0;
    }

    method Next() returns (r: Option<(nat, E)>)
      requires index <= |indexMap.entries|
      modifies this
      ensures old(index) <= index <= |indexMap.entries|
      ensures r.Some? ==> index == r.value.0 + 1 && indexMap.entries[r.value.0] == Element(r.value.1)
      ensures forall i :: old(index) <= i < (if r.Some? then r.value.0 else index) ==> indexMap.entries[i].Empty?
      ensures r.None? ==> index == |indexMap.entries|
      ensures Items(indexMap.entries, old(index)) ==
              (if r.Some? then [r.value] else []) + Items(indexMap.entries, index)
    {
      while index < |indexMap.entries|
        invariant old(index) <= index <= |indexMap.entries|
        invariant forall i :: old(index) <= i < index ==> indexMap.entries[i].Empty?
        invariant Items(indexMap.entries, old(index)) == Items(indexMap.entries, index)
      {
        var i := index;
        index := index + 1;
        match indexMap.entries[i]
        case Empty(_) =>
        case Element(e) => return Some((i, e));
      }
      return None;
    }
  }

  // ---- The free list under a write to one cell ----

  lemma {:induction false} ChainCells<E>(entries: seq<Entry<E>>, free: seq<nat>)
    requires Chain(entries, free)
    ensures forall i <- free :: i < |entries| && entries[i].Empty?
  {
    if free != [] {
      ChainCells(entries, free[1..]);
      assert forall i <- free :: i == free[0] || i in free[1..];
    }
  }

  lemma {:induction false} ChainFrame<E>(entries: seq<Entry<E>>, entries': seq<Entry<E>>, free: seq<nat>)
    requires Chain(entries, free)
    requires forall i <- free :: i < |entries| ==> i < |entries'| && entries'[i] == entries[i]
    ensures Chain(entries', free)
  {
    if free != [] {
      assert free[0] in free && forall i <- free[1..] :: i in free;
      ChainFrame(entries, entries', free[1..]);
    }
  }

  lemma GrowThread<E>(entries: seq<Entry<E>>, e: E)
    requires Threaded(entries, None, [])
    ensures Threaded(entries + [Element(e)], None, [])
    ensures LiveOf(entries + [Element(e)]) == LiveOf(entries)[|entries| := e]
  {
  }

  lemma PopThread<E>(entries: seq<Entry<E>>, free: seq<nat>, e: E)
    requires Threaded(entries, HeadOf(free), free) && free != []
    ensures Threaded(entries[free[0] := Element(e)], HeadOf(free[1..]), free[1..])
    ensures LiveOf(entries[free[0] := Element(e)]) == LiveOf(entries)[free[0] := e]
  {
    ChainCells(entries, free);
    ChainFrame(entries, entries[free[0] := Element(e)], free[1..]);
    assert forall i <- free :: i == free[0] || i in free[1..];
  }

  lemma PushThread<E>(entries: seq<Entry<E>>, free: seq<nat>, idx: nat)
    requires Threaded(entries, HeadOf(free), free) && idx < |entries| && entries[idx].Element?
    ensures Threaded(entries[idx := Empty(HeadOf(free))], Some(idx), [idx] + free)
    ensures LiveOf(entries[idx := Empty(HeadOf(free))]) == LiveOf(entries) - {idx}
  {
    var entries' := entries[idx := Empty(HeadOf(free))];
    ChainCells(entries, free);
    ChainFrame(entries, entries', free);
    assert ([idx] + free)[1..] == free;
    assert forall i <- free :: i in [idx] + free;
  }

  // ---- The layout determines the meaning ----

  lemma {:induction false} RangeCount(n: nat, range: set<nat>)
    requires forall i: nat :: i in range <==> i < n
    ensures |range| == n
  {
    if n == 0 {
      assert range == {};
    } else {
      RangeCount(n - 1, range - {n - 1});
    }
  }

  lemma {:induction false} DistinctCount(s: seq<nat>, members: set<nat>)
    requires Distinct(s) && forall i: nat :: i in members <==> i in s
    ensures |members| == |s|
  {
    if s == [] {
      assert members == {};
    } else {
      assert forall i :: i in s <==> i == s[0] || i in s[1..];
      DistinctCount(s[1..], members - {s[0]});
    }
  }

  /** A threaded vector has as many cells as it has live elements and freed indices together. */
  lemma ThreadedIsWellFormed<E>(entries: seq<Entry<E>>, next: Option<nat>, free: seq<nat>)
    requires Threaded(entries, next, free)
    ensures Slab(LiveOf(entries), free).WellFormed()
    ensures Slab(LiveOf(entries), free).Capacity() == |entries|
  {
    ChainCells(entries, free);
    CountCells(entries, free);
  }

  lemma CountCells<E>(entries: seq<Entry<E>>, free: seq<nat>)
    requires Distinct(free) && forall i: nat :: i in free <==> i < |entries| && entries[i].Empty?
    ensures |LiveOf(entries)| + |free| == |entries|
  {
    var live := LiveOf(entries).Keys;
    var dead := set i | i in free;
    assert forall i: nat :: i in live + dead <==> i < |entries|;
    DistinctCount(free, dead);
    RangeCount(|entries|, live + dead);
    assert live !! dead;
  }

  /** Following the pointers from `next_empty` can only trace one path. */
  lemma {:induction false} ChainUnique<E>(entries: seq<Entry<E>>, a: seq<nat>, b: seq<nat>)
    requires Chain(entries, a) && Chain(entries, b) && HeadOf(a) == HeadOf(b)
    ensures a == b
  {
    if a != [] && b != [] {
      ChainUnique(entries, a[1..], b[1..]);
    }
  }

  // ---- Operations on the meaning ----

  /** What a filter leaves of `live` when it spares every index below `from`. */
  function Kept<E>(live: map<nat, E>, keep: (nat, E) -> bool, from: nat): map<nat, E> {
    map i | i in live && (i < from || keep(i, live[i])) :: live[i]
  }

  lemma InsertedWellFormed<E>(s: Slab<E>, e: E)
    requires s.WellFormed()
    ensures s.Inserted(e).WellFormed() && s.InsertIndex() !in s.live
    ensures s.Inserted(e).Capacity() == if s.free == [] then s.Capacity() + 1 else s.Capacity()
  {
    if s.free != [] {
      assert forall i :: i in s.free <==> i == s.free[0] || i in s.free[1..];
    }
  }

  lemma RemovedWellFormed<E>(s: Slab<E>, i: nat)
    requires s.WellFormed()
    ensures s.Removed(i).WellFormed() && s.Removed(i).Capacity() == s.Capacity()
  {
  }

  lemma RetainOne<E>(s: Slab<E>, keep: (nat, E) -> bool, i: nat, n: nat)
    requires i <= n
    ensures s.RetainedFrom(keep, i, n) ==
              if i == n then s
              else (if i in s.live && !keep(i, s.live[i]) then s.Removed(i) else s).RetainedFrom(keep, i + 1, n)
  {
  }

  /** `retain` drops exactly the live elements that fail the test, wherever they are. */
  lemma {:induction false} RetainedKeepsExactly<E>(s: Slab<E>, keep: (nat, E) -> bool, i: nat, n: nat)
    requires s.WellFormed() && i <= n == s.Capacity()
    ensures var r := s.RetainedFrom(keep, i, n);
      && r.WellFormed() && r.Capacity() == s.Capacity()
      && r.live == Kept(s.live, keep, i)
    decreases n - i
  {
    if i < n {
      RemovedWellFormed(s, i);
      var next := if i in s.live && !keep(i, s.live[i]) then s.Removed(i) else s;
      RetainedKeepsExactly(next, keep, i + 1, n);
    }
  }

  // ---- Whole histories ----

  datatype Op<!E> = Insert(e: E) | Remove(i: nat) | Update(i: nat, e: E) | Retain(keep: (nat, E) -> bool)

  function Apply<E>(s: Slab<E>, op: Op<E>): Slab<E> {
    match op
    case Insert(e) => s.Inserted(e)
    case Remove(i) => s.Removed(i)
    case Update(i, e) => s.Updated(i, e)
    case Retain(keep) => s.Retained(keep)
  }

  function ApplyAll<E>(ops: seq<Op<E>>): Slab<E> {
    if ops == [] then Slab(map[], []) else Apply(ApplyAll(ops[..|ops| - 1]), ops[|ops| - 1])
  }

  /** The largest number of elements that were ever live at once. */
  function Peak<E>(ops: seq<Op<E>>): nat {
    if ops == [] then 0
    else
      var before, now := Peak(ops[..|ops| - 1]), |ApplyAll(ops).live|;
      if before < now then now else before
  }

  /** Dead cells are never wasted: the vector is exactly as long as the peak population. */
  lemma {:induction false} CapacityIsPeak<E>(ops: seq<Op<E>>)
    ensures ApplyAll(ops).WellFormed()
    ensures ApplyAll(ops).Capacity() == Peak(ops)
  {
    if ops != [] {
      var s, op := ApplyAll(ops[..|ops| - 1]), ops[|ops| - 1];
      CapacityIsPeak(ops[..|ops| - 1]);
      match op
      case Insert(e) => InsertedWellFormed(s, e);
      case Remove(i) => RemovedWellFormed(s, i);
      case Update(i, e) => assert s.Updated(i, e).live.Keys == s.live.Keys;
      case Retain(keep) => RetainedKeepsExactly(s, keep, 0, s.Capacity());
    }
  }

  function RemoveAll<E>(s: Slab<E>, indices: seq<nat>): Slab<E>
    decreases |indices|
  {
    if indices == [] then s else RemoveAll(s.Removed(indices[0]), indices[1..])
  }

  /** The indices that successive insertions of `elems` are given, and the slab they leave. */
  function InsertAll<E>(s: Slab<E>, elems: seq<E>): (seq<nat>, Slab<E>)
    decreases |elems|
  {
    if elems == [] then ([], s)
    else
      var rest := InsertAll(s.Inserted(elems[0]), elems[1..]);
      ([s.InsertIndex()] + rest.0, rest.1)
  }

  function Reverse(s: seq<nat>): seq<nat> {
    if s == [] then [] else Reverse(s[1..]) + [s[0]]
  }

  lemma {:induction false} RemoveAllPushes<E>(s: Slab<E>, indices: seq<nat>)
    requires Distinct(indices) && forall i <- indices :: i in s.live
    ensures RemoveAll(s, indices).free == Reverse(indices) + s.free
    decreases |indices|
  {
    if indices == [] {
      assert Reverse(indices) + s.free == s.free;
    } else {
      RemoveAllPushes(s.Removed(indices[0]), indices[1..]);
      assert Reverse(indices[1..]) + ([indices[0]] + s.free) == Reverse(indices) + s.free;
    }
  }

  lemma {:induction false} InsertAllPops<E>(s: Slab<E>, elems: seq<E>)
    requires |elems| <= |s.free|
    ensures InsertAll(s, elems).0 == s.free[..|elems|] && InsertAll(s, elems).1.free == s.free[|elems|..]
    decreases |elems|
  {
    if elems != [] {
      InsertAllPops(s.Inserted(elems[0]), elems[1..]);
      assert s.free[..|elems|] == [s.free[0]] + s.free[1..][..|elems| - 1];
    }
  }

  /** Freed indices come back last freed first, and the older free cells are left as they were. */
  lemma LastFreedFirstReused<E>(s: Slab<E>, indices: seq<nat>, elems: seq<E>)
    requires Distinct(indices) && (forall i <- indices :: i in s.live) && |elems| == |indices|
    ensures InsertAll(RemoveAll(s, indices), elems).0 == Reverse(indices)
    ensures InsertAll(RemoveAll(s, indices), elems).1.free == s.free
  {
    RemoveAllPushes(s, indices);
    ReverseLength(indices);
    InsertAllPops(RemoveAll(s, indices), elems);
  }

  lemma ReverseLength(s: seq<nat>)
    ensures |Reverse(s)| == |s|
  {
  }

  // ---- Iteration ----

  /** Iteration yields live pairs only, in strictly ascending order of index, so none of them twice. */
  lemma {:induction false} ItemsAscend<E>(entries: seq<Entry<E>>, from: nat)
    requires from <= |entries|
    ensures var items := Items(entries, from);
      && (forall k :: 0 <= k < |items| ==>
            from <= items[k].0 < |entries| && entries[items[k].0] == Element(items[k].1))
      && (forall j, k :: 0 <= j < k < |items| ==> items[j].0 < items[k].0)
    decreases |entries| - from
  {
    if from < |entries| {
      ItemsAscend(entries, from + 1);
      if entries[from].Element? {
        assert Items(entries, from) == [(from, entries[from].elem)] + Items(entries, from + 1);
      }
    }
  }

  /** Iteration misses no live pair. */
  lemma {:induction false} ItemsComplete<E>(entries: seq<Entry<E>>, from: nat, i: nat)
    requires from <= i && i in LiveOf(entries)
    ensures (i, LiveOf(entries)[i]) in Items(entries, from)
    decreases i - from
  {
    if from == i {
      assert Items(entries, i)[0] == (i, LiveOf(entries)[i]);
    } else {
      ItemsComplete(entries, from + 1, i);
    }
  }

  lemma {:induction false} ItemsOfElements<E>(entries: seq<Entry<E>>, items: seq<E>, from: nat)
    requires entries == seq(|items|, i requires 0 <= i < |items| => Element(items[i])) && from <= |items|
    ensures Items(entries, from) == seq(|items| - from, i requires 0 <= i < |items| - from => (from + i, items[from + i]))
    decreases |items| - from
  {
    if from < |items| {
      ItemsOfElements(entries, items, from + 1);
    }
  }
}
