/** The timeline object, its `add`, `query` and `forget`, against the slot tables of module Timeline. */
module SpeakerTimelines {
  import opened Wrappers
  import opened Sequences
  import opened Timeline

  function OverlapMs(startA: int, endA: int, startB: int, endB: int): (n: nat) {
    var end := if endA <= endB then endA else endB;
    var start := if startA >= startB then startA else startB;
    if end - start > 0 then end - start else 0
  }

  predicate Within(t: int, start: int, end: int) { start <= t < end }

  /** The milliseconds that lie in both ranges. */
  ghost function Shared(startA: int, endA: int, startB: int, endB: int): set<int> {
    set t: int | startA <= t < endA && Within(t, startB, endB)
  }

  lemma {:induction false} SharedSize(start: int, end: int)
    requires start <= end
    ensures |Shared(start, end, start, end)| == end - start
    decreases end - start
  {
    if start < end {
      SharedSize(start + 1, end);
      assert Shared(start, end, start, end) == Shared(start + 1, end, start + 1, end) + {start};
    } else {
      assert Shared(start, end, start, end) == {};
    }
  }

  /** The overlap is the number of milliseconds shared. */
  lemma OverlapIsShared(startA: int, endA: int, startB: int, endB: int)
    ensures OverlapMs(startA, endA, startB, endB) == |Shared(startA, endA, startB, endB)|
  {
    var start, end := if startA >= startB then startA else startB, if endA <= endB then endA else endB;
    if start <= end {
      SharedSize(start, end);
      assert Shared(startA, endA, startB, endB) == Shared(start, end, start, end);
    } else {
      assert Shared(startA, endA, startB, endB) == {};
    }
  }

  /** The segments of one session among those handed to `add`, in their order. */
  function Of(xs: seq<Segment>, key: Key): seq<Segment> {
    if xs == [] then []
    else if xs[0].KeyOf() == key then [xs[0]] + Of(xs[1..], key)
    else Of(xs[1..], key)
  }

  /** The segments that end at or after the cutoff. */
  function Kept(xs: seq<Segment>, cutoff: int): seq<Segment> {
    if xs == [] then []
    else Kept(xs[..|xs| - 1], cutoff) + (if xs[|xs| - 1].endMs >= cutoff then [xs[|xs| - 1]] else [])
  }

  /** The segments that overlap a range, in list order. */
  function Overlapping(xs: seq<Segment>, startMs: int, endMs: int): (r: seq<Segment>)
    ensures forall x :: x in r <==> x in xs && OverlapMs(startMs, endMs, x.startMs, x.endMs) > 0
    ensures |r| <= |xs|
  {
    if xs == [] then []
    else if OverlapMs(startMs, endMs, xs[0].startMs, xs[0].endMs) > 0
    then [xs[0]] + Overlapping(xs[1..], startMs, endMs)
    else Overlapping(xs[1..], startMs, endMs)
  }

  lemma {:induction false} OverlappingAppend(xs: seq<Segment>, x: Segment, from: int, to: int)
    ensures Overlapping(xs + [x], from, to)
         == if OverlapMs(from, to, x.startMs, x.endMs) > 0 then Overlapping(xs, from, to) + [x] else Overlapping(xs, from, to)
    decreases |xs|
  {
    if xs == [] {
      assert xs + [x] == [x] && [x][1..] == [];
    } else {
      assert (xs + [x])[1..] == xs[1..] + [x];
      OverlappingAppend(xs[1..], x, from, to);
    }
  }

  /** What a caller gets: the segments that share time with a non-empty range, nothing else. */
  lemma OverlappingMeans(xs: seq<Segment>, startMs: int, endMs: int)
    ensures forall x :: x in Overlapping(xs, startMs, endMs) <==>
              x in xs && x.startMs < endMs && startMs < x.endMs && startMs < endMs && x.startMs < x.endMs
  {
  }

  ghost function AtLeast(m: map<Slot, Segment>, cutoff: int): map<Slot, Segment> {
    map s: Slot | s in m && s.1 >= cutoff :: m[s]
  }

  /** Pruning the sorted list is listing the pruned table. */
  lemma {:induction false} KeptListed(m: map<Slot, Segment>, cutoff: int)
    requires Keyed(m)
    ensures Kept(Listed(m), cutoff) == Listed(AtLeast(m, cutoff))
    decreases |m|
  {
    if m == map[] {
      assert AtLeast(m, cutoff) == map[];
    } else {
      var last := LastSlot(m.Keys);
      var rest := m - {last};
      assert rest.Keys == m.Keys - {last};
      KeptListed(rest, cutoff);
      assert Listed(m)[..|Listed(m)| - 1] == Listed(rest);
      AtLeastWithoutLast(m, cutoff, last);
      if last.1 >= cutoff { ListedWithLast(m, AtLeast(m, cutoff), AtLeast(rest, cutoff), last); }
    }
  }

  lemma AtLeastWithoutLast(m: map<Slot, Segment>, cutoff: int, last: Slot)
    requires last in m
    ensures AtLeast(m - {last}, cutoff) == AtLeast(m, cutoff) - {last}
    ensures last.1 < cutoff ==> AtLeast(m - {last}, cutoff) == AtLeast(m, cutoff)
  {
  }

  lemma ListedWithLast(m: map<Slot, Segment>, kept: map<Slot, Segment>, rest: map<Slot, Segment>, last: Slot)
    requires IsLast(m.Keys, last) && kept.Keys <= m.Keys && last in kept && rest == kept - {last}
    ensures Listed(kept) == Listed(rest) + [kept[last]]
  {
    LastUnique(kept.Keys, LastSlot(kept.Keys), last);
  }

  lemma LastListed(m: map<Slot, Segment>)
    requires Keyed(m) && m != map[]
    ensures Listed(m) != [] && Listed(m)[|Listed(m)| - 1].SlotOf() == LastSlot(m.Keys)
  {
    var last := LastSlot(m.Keys);
    assert Listed(m) == Listed(m - {last}) + [m[last]];
  }

  lemma PrunedIsAtLeast(m: map<Slot, Segment>, retention: int)
    requires Keyed(m) && m != map[]
    ensures Listed(m) != [] && Pruned(m, retention) == AtLeast(m, Listed(m)[|Listed(m)| - 1].endMs - retention)
  {
    LastListed(m);
  }

  lemma ListedPruned(m: map<Slot, Segment>, retention: int)
    requires Keyed(m) && m != map[]
    ensures Listed(m) != []
    ensures Kept(Listed(m), Listed(m)[|Listed(m)| - 1].endMs - retention) == Listed(Pruned(m, retention))
  {
    PrunedIsAtLeast(m, retention);
    KeptListed(m, Listed(m)[|Listed(m)| - 1].endMs - retention);
  }

  lemma {:induction false} TableKeyed(xs: seq<Segment>)
    ensures Keyed(TableOf(xs))
  {
    if xs != [] { TableKeyed(xs[..|xs| - 1]); }
  }

  function ListIn(segments: map<Key, seq<Segment>>, key: Key): seq<Segment> {
    if key in segments then segments[key] else []
  }

  /** A session's list after `add` of its segments `xs`. */
  ghost function ListAfter(stored: seq<Segment>, xs: seq<Segment>, retentionMs: int): seq<Segment> {
    if xs == [] then stored else Listed(Added(TableOf(stored), retentionMs, xs))
  }

  class SpeakerTimeline {
    const retentionMs: int
    var segments: map<Key, seq<Segment>>

    constructor (retentionMs: int)
      ensures this.retentionMs == retentionMs && segments == map[]
    {
      this.retentionMs := retentionMs;
      segments := map[];
    }

    /** `add`: each session named in the batch gets the listing of its updated table; the others
        keep theirs. */
    method Add(batch: seq<Segment>)
      modifies this
      ensures forall k :: Of(batch, k) != [] ==>
                ListIn(segments, k) == Listed(Added(TableOf(ListIn(old(segments), k)), retentionMs, Of(batch, k)))
      ensures forall k :: Of(batch, k) == [] ==> ListIn(segments, k) == ListIn(old(segments), k)
      ensures segments.Keys == old(segments).Keys + set x | x in batch :: x.KeyOf()
    {
      var todo := set x | x in batch :: x.KeyOf();
      forall k ensures k in todo <==> Of(batch, k) != [] { OfNonEmpty(batch, k); }
      while todo != {}
        invariant forall k :: ListIn(segments, k) == ListAfter(ListIn(old(segments), k), if k in todo then [] else Of(batch, k), retentionMs)
        invariant forall k :: k in todo ==> Of(batch, k) != []
        invariant segments.Keys + todo == old(segments).Keys + set x | x in batch :: x.KeyOf()
        decreases todo
      {
        var key :| key in todo;
        todo := todo - {key};
        var updated := Merge(ListIn(segments, key), Of(batch, key), retentionMs);
        segments := segments[key := updated];
      }
    }

    /** `query`: the stored segments that share time with the range, in stored order. */
    method Query(key: Key, startMs: int, endMs: int) returns (found: seq<Segment>)
      ensures found == Overlapping(ListIn(segments, key), startMs, endMs)
      ensures forall x :: x in found <==>
                x in ListIn(segments, key) && x.startMs < endMs && startMs < x.endMs && startMs < endMs && x.startMs < x.endMs
      ensures InSlotOrder(ListIn(segments, key)) ==> InSlotOrder(found)
    {
      var stored := ListIn(segments, key);
      found := Filter(stored, startMs, endMs);
      OverlappingMeans(stored, startMs, endMs);
      if InSlotOrder(stored) { OverlappingInOrder(stored, startMs, endMs); }
    }

    method Forget(key: Key)
      modifies this
      ensures segments == old(segments) - {key}
    {
      segments := segments - {key};
    }
  }

  lemma {:induction false} OverlappingInOrder(xs: seq<Segment>, startMs: int, endMs: int)
    requires InSlotOrder(xs)
    ensures InSlotOrder(Overlapping(xs, startMs, endMs))
    decreases |xs|
  {
    if xs != [] {
      OverlappingInOrder(xs[1..], startMs, endMs);
      PrependFirst(xs[0], Overlapping(xs[1..], startMs, endMs), xs);
    }
  }

  lemma PrependFirst(x: Segment, rest: seq<Segment>, xs: seq<Segment>)
    requires InSlotOrder(xs) && InSlotOrder(rest) && xs != [] && x == xs[0] && forall y :: y in rest ==> y in xs[1..]
    ensures InSlotOrder([x] + rest)
  {
    var all := [x] + rest;
    forall j | 1 <= j < |all| ensures SlotLe(x.SlotOf(), all[j].SlotOf()) && x.SlotOf() != all[j].SlotOf() {
      assert all[j] == rest[j - 1] && rest[j - 1] in xs[1..];
      var k :| 0 <= k < |xs| - 1 && xs[1..][k] == all[j];
      assert xs[k + 1] == all[j];
    }
  }

  lemma {:induction false} OfNonEmpty(batch: seq<Segment>, k: Key)
    ensures Of(batch, k) != [] <==> exists x :: x in batch && x.KeyOf() == k
  {
    if batch != [] {
      OfNonEmpty(batch[1..], k);
      assert batch == [batch[0]] + batch[1..];
    }
  }

  lemma {:induction false} OfAll(batch: seq<Segment>, k: Key)
    requires forall x :: x in batch ==> x.KeyOf() == k
    ensures Of(batch, k) == batch
    ensures forall j :: j != k ==> Of(batch, j) == []
  {
    if batch != [] { OfAll(batch[1..], k); }
  }

  /** The comprehension of `query`. */
  method Filter(stored: seq<Segment>, startMs: int, endMs: int) returns (found: seq<Segment>)
    ensures found == Overlapping(stored, startMs, endMs)
  {
    found := [];
    for i := 0 to |stored|
      invariant found == Overlapping(stored[..i], startMs, endMs)
    {
      TakeOneMore(stored, i + 1);
      OverlappingAppend(stored[..i], stored[i], startMs, endMs);
      if OverlapMs(startMs, endMs, stored[i].startMs, stored[i].endMs) > 0 { found := found + [stored[i]]; }
    }
    assert stored[..|stored|] == stored;
  }

  method ReadTable(stored: seq<Segment>) returns (current: map<Slot, Segment>)
    ensures current == TableOf(stored)
  {
    current := map[];
    for i := 0 to |stored|
      invariant current == TableOf(stored[..i])
    {
      assert stored[..i + 1][..i] == stored[..i];
      current := current[stored[i].SlotOf() := stored[i]];
    }
    assert stored[..|stored|] == stored;
  }

  method ReplaceSlots(table: map<Slot, Segment>, batch: seq<Segment>) returns (current: map<Slot, Segment>)
    ensures current == PutAll(table, batch)
  {
    current := table;
    for i := 0 to |batch|
      invariant current == PutAll(table, batch[..i])
    {
      assert batch[..i + 1][..i] == batch[..i];
      var segment := batch[i];
      var slot := segment.SlotOf();
      if slot !in current || segment.revision >= current[slot].revision {
        current := current[slot := segment];
      }
    }
    assert batch[..|batch|] == batch;
  }

  /** The body of `add` for one session: table of the stored list, replacements, sort, prune. */
  method Merge(stored: seq<Segment>, batch: seq<Segment>, retentionMs: int) returns (ordered: seq<Segment>)
    ensures ordered == Listed(Added(TableOf(stored), retentionMs, batch))
  {
    var table := ReadTable(stored);
    var current := ReplaceSlots(table, batch);
    TableKeyed(stored);
    PutAllKeys(table, batch);
    ordered := SortAndPrune(current, retentionMs);
  }

  method SortAndPrune(current: map<Slot, Segment>, retentionMs: int) returns (ordered: seq<Segment>)
    requires Keyed(current)
    ensures ordered == Listed(Pruned(current, retentionMs))
  {
    ordered := SortValues(current);
    if current != map[] {
      ListedPruned(current, retentionMs);
      ordered := Keep(ordered, ordered[|ordered| - 1].endMs - retentionMs);
    }
  }

  method Keep(xs: seq<Segment>, cutoff: int) returns (r: seq<Segment>)
    ensures r == Kept(xs, cutoff)
  {
    r := [];
    for i := 0 to |xs|
      invariant r == Kept(xs[..i], cutoff)
    {
      assert xs[..i + 1][..i] == xs[..i];
      if xs[i].endMs >= cutoff { r := r + [xs[i]]; }
    }
    assert xs[..|xs|] == xs;
  }

  /** Sorting the table's segments by slot. */
  method SortValues(m: map<Slot, Segment>) returns (ordered: seq<Segment>)
    ensures ordered == Listed(m)
  {
    var rest := m;
    ordered := [];
    while rest != map[]
      invariant Listed(m) == Listed(rest) + ordered
      decreases |rest|
    {
      var last := FindLast(rest.Keys);
      LastUnique(rest.Keys, LastSlot(rest.Keys), last);
      assert (rest - {last}).Keys == rest.Keys - {last};
      ordered := [rest[last]] + ordered;
      rest := rest - {last};
    }
  }

  method FindLast(slots: set<Slot>) returns (last: Slot)
    requires slots != {}
    ensures IsLast(slots, last)
  {
    last :| last in slots;
    var todo := slots;
    while todo != {}
      invariant last in slots && todo <= slots
      invariant forall s :: s in slots && s !in todo ==> SlotLe(s, last)
      decreases todo
    {
      var s :| s in todo;
      todo := todo - {s};
      if SlotLe(last, s) { last := s; }
    }
  }

  // ---------------------------------------------------------------- whole runs of the object

  /** What the object stores for a session after a sequence of `add` calls, as its contract says. */
  ghost function StoredAfter(retention: int, batches: seq<seq<Segment>>): seq<Segment> {
    if batches == [] then []
    else
      var before := StoredAfter(retention, batches[..|batches| - 1]);
      Listed(Added(TableOf(before), retention, batches[|batches| - 1]))
  }

  lemma {:induction false} StoredIsListed(retention: int, batches: seq<seq<Segment>>)
    ensures Keyed(AfterAdds(retention, batches))
    ensures StoredAfter(retention, batches) == Listed(AfterAdds(retention, batches))
  {
    if batches != [] {
      var front := batches[..|batches| - 1];
      StoredIsListed(retention, front);
      TableOfListed(AfterAdds(retention, front));
      PutAllKeys(AfterAdds(retention, front), batches[|batches| - 1]);
    }
  }

  /** `x` is the latest of the highest revision among the segments of its time range in `all`. */
  ghost predicate Stands(all: seq<Segment>, x: Segment) {
    exists i: nat :: i < |all| && all[i] == x
      && forall j: nat :: j < |all| && all[j].startMs == x.startMs && all[j].endMs == x.endMs ==>
           (all[j].revision <= x.revision && (j > i ==> all[j].revision < x.revision))
  }

  /** `y` is of the time range that sorts last: the latest start, and of those the latest end. */
  ghost predicate SortsLast(all: seq<Segment>, y: Segment) {
    y in all && forall x :: x in all ==> x.startMs < y.startMs || (x.startMs == y.startMs && x.endMs <= y.endMs)
  }

  /** Membership in the stored list, in terms of everything ever added: the standing segments that end no
      more than the retention before the one that sorts last. */
  lemma StoredMeans(retention: int, batches: seq<seq<Segment>>, x: Segment, y: Segment)
    requires EndsFollowStarts(PutAll(map[], Everything(batches)).Keys) && SortsLast(Everything(batches), y)
    ensures x in StoredAfter(retention, batches) <==> Stands(Everything(batches), x) && x.endMs + retention >= y.endMs
  {
    var all := Everything(batches);
    var m := PutAll(map[], all);
    TimelineEqualsRebuild(retention, batches);
    PutAllKeys(map[], all);
    StandsIff(all, x);
    var i :| 0 <= i < |all| && all[i] == y;
    assert y.SlotOf() in m;
    LastIs(all, y);
    ListedSorts(Pruned(m, retention));
  }

  lemma LastIs(all: seq<Segment>, y: Segment)
    requires SortsLast(all, y)
    ensures PutAll(map[], all) != map[] && LastSlot(PutAll(map[], all).Keys) == y.SlotOf()
  {
    var m := PutAll(map[], all);
    PutAllKeys(map[], all);
    var i :| 0 <= i < |all| && all[i] == y;
    assert y.SlotOf() in m;
    forall s | s in m.Keys ensures SlotLe(s, y.SlotOf()) {
      var j :| 0 <= j < |all| && all[j].SlotOf() == s;
      assert all[j] in all;
    }
    LastUnique(m.Keys, LastSlot(m.Keys), y.SlotOf());
  }

  lemma StandsIff(all: seq<Segment>, x: Segment)
    ensures Stands(all, x) <==> x.SlotOf() in PutAll(map[], all) && PutAll(map[], all)[x.SlotOf()] == x
  {
    PutAllWinner(all, x.SlotOf());
    if Stands(all, x) {
      var i: nat :| i < |all| && all[i] == x
        && forall j: nat :: j < |all| && all[j].startMs == x.startMs && all[j].endMs == x.endMs ==>
             (all[j].revision <= x.revision && (j > i ==> all[j].revision < x.revision));
      assert all[i].SlotOf() == x.SlotOf();
      var k: nat :| Timeline.Wins(all, k, x.SlotOf()) && PutAll(map[], all)[x.SlotOf()] == all[k];
      assert k == i;
    }
    if x.SlotOf() in PutAll(map[], all) && PutAll(map[], all)[x.SlotOf()] == x {
      var k: nat :| Timeline.Wins(all, k, x.SlotOf()) && PutAll(map[], all)[x.SlotOf()] == all[k];
      forall j: nat | j < |all| && all[j].startMs == x.startMs && all[j].endMs == x.endMs
        ensures all[j].revision <= x.revision && (j > k ==> all[j].revision < x.revision)
      {
        assert all[j].SlotOf() == x.SlotOf();
      }
    }
  }

  /** The stored list after any run is the rebuilt one: latest highest-revision segment per slot of
      everything added, sorted, pruned once to the retention. */
  lemma TimelineEqualsRebuild(retention: int, batches: seq<seq<Segment>>)
    requires EndsFollowStarts(PutAll(map[], Everything(batches)).Keys)
    ensures StoredAfter(retention, batches) == Listed(Pruned(PutAll(map[], Everything(batches)), retention))
    ensures InSlotOrder(StoredAfter(retention, batches))
  {
    StoredIsListed(retention, batches);
    IncrementalEqualsRebuild(retention, batches);
    ListedSorts(AfterAdds(retention, batches));
  }
}
