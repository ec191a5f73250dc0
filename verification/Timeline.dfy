/** The speaker timeline: slots replaced by revision, sorted, pruned to a retention window, and the
    proof that the incremental list is the one rebuilt from everything ever added. */
module Timeline {
  import opened Wrappers

  type Key = (string, string)
  type Slot = (int, int)

  datatype Segment = Segment(
    tenant: string, session: string, startMs: int, endMs: int,
    speakerId: string, confidence: real, revision: int)
  {
    function SlotOf(): Slot { (startMs, endMs) }
    function KeyOf(): Key { (tenant, session) }
  }

  // ---------------------------------------------------------------- slots in order

  predicate SlotLe(a: Slot, b: Slot) { a.0 < b.0 || (a.0 == b.0 && a.1 <= b.1) }

  lemma {:induction false} LastExists(slots: set<Slot>) returns (last: Slot)
    requires slots != {}
    ensures last in slots && forall s :: s in slots ==> SlotLe(s, last)
    decreases |slots|
  {
    var s :| s in slots;
    var rest := slots - {s};
    if rest == {} {
      last := s;
      assert slots == {s};
    } else {
      last := LastExists(rest);
      if SlotLe(last, s) { last := s; }
      assert forall x :: x in slots ==> x == s || x in rest;
    }
  }

  ghost predicate IsLast(slots: set<Slot>, last: Slot) {
    last in slots && forall s :: s in slots ==> SlotLe(s, last)
  }

  /** The slot that sorts last. */
  ghost function LastSlot(slots: set<Slot>): (last: Slot)
    requires slots != {}
    ensures IsLast(slots, last)
  {
    assert exists l :: IsLast(slots, l) by { var l := LastExists(slots); assert IsLast(slots, l); }
    var last :| IsLast(slots, last);
    last
  }

  lemma LastUnique(slots: set<Slot>, a: Slot, b: Slot)
    requires IsLast(slots, a) && IsLast(slots, b)
    ensures a == b
  {
    assert SlotLe(a, b) && SlotLe(b, a);
  }

  /** Every segment stands under its own slot. */
  ghost predicate Keyed(m: map<Slot, Segment>) {
    forall s :: s in m ==> m[s].SlotOf() == s
  }

  /** The segments of a slot table in slot order. */
  ghost function Listed(m: map<Slot, Segment>): (xs: seq<Segment>)
    decreases |m|
  {
    if m == map[] then []
    else
      var last := LastSlot(m.Keys);
      assert |m - {last}| < |m| by { assert (m - {last}).Keys == m.Keys - {last}; }
      Listed(m - {last}) + [m[last]]
  }

  ghost predicate InSlotOrder(xs: seq<Segment>) {
    forall i, j :: 0 <= i < j < |xs| ==> SlotLe(xs[i].SlotOf(), xs[j].SlotOf()) && xs[i].SlotOf() != xs[j].SlotOf()
  }

  /** `Listed` is a list of exactly the table's segments, strictly sorted by slot. */
  lemma {:induction false} ListedSorts(m: map<Slot, Segment>)
    requires Keyed(m)
    ensures InSlotOrder(Listed(m)) && |Listed(m)| == |m|
    ensures forall x :: x in Listed(m) <==> x.SlotOf() in m && m[x.SlotOf()] == x
    decreases |m|
  {
    if m != map[] {
      var last := LastSlot(m.Keys);
      var rest := m - {last};
      assert rest.Keys == m.Keys - {last};
      ListedSorts(rest);
      AppendLast(Listed(rest), m[last]);
    }
  }

  lemma AppendLast(xs: seq<Segment>, x: Segment)
    requires InSlotOrder(xs) && forall y :: y in xs ==> SlotLe(y.SlotOf(), x.SlotOf()) && y.SlotOf() != x.SlotOf()
    ensures InSlotOrder(xs + [x])
  {
    forall i | 0 <= i < |xs| ensures SlotLe(xs[i].SlotOf(), x.SlotOf()) && xs[i].SlotOf() != x.SlotOf() {
      assert xs[i] in xs;
    }
  }

  /** The table of a list; later entries win, as in a dict display. */
  function TableOf(xs: seq<Segment>): map<Slot, Segment> {
    if xs == [] then map[] else TableOf(xs[..|xs| - 1])[xs[|xs| - 1].SlotOf() := xs[|xs| - 1]]
  }

  lemma {:induction false} TableOfListed(m: map<Slot, Segment>)
    requires Keyed(m)
    ensures TableOf(Listed(m)) == m
    decreases |m|
  {
    if m != map[] {
      var last := LastSlot(m.Keys);
      assert (m - {last}).Keys == m.Keys - {last};
      TableOfListed(m - {last});
      assert Listed(m)[..|Listed(m)| - 1] == Listed(m - {last});
      assert (m - {last})[last := m[last]] == m;
    }
  }

  // ---------------------------------------------------------------- adding

  function Found(m: map<Slot, Segment>, s: Slot): Option<Segment> { if s in m then Some(m[s]) else None }

  /** One segment: it replaces its slot's segment unless that has a higher revision. */
  function Put(m: map<Slot, Segment>, x: Segment): map<Slot, Segment> {
    if x.SlotOf() !in m || x.revision >= m[x.SlotOf()].revision then m[x.SlotOf() := x] else m
  }

  function PutAll(m: map<Slot, Segment>, xs: seq<Segment>): map<Slot, Segment> {
    if xs == [] then m else Put(PutAll(m, xs[..|xs| - 1]), xs[|xs| - 1])
  }

  /** Ends at or after the last slot's end minus the retention. */
  ghost predicate Retained(slots: set<Slot>, retention: int, s: Slot)
    requires slots != {}
  {
    s.1 >= LastSlot(slots).1 - retention
  }

  ghost function Pruned(m: map<Slot, Segment>, retention: int): map<Slot, Segment> {
    if m == map[] then m else map s | s in m && Retained(m.Keys, retention, s) :: m[s]
  }

  /** The table after one `add` of the segments `xs` of a session. */
  ghost function Added(m: map<Slot, Segment>, retention: int, xs: seq<Segment>): map<Slot, Segment> {
    Pruned(PutAll(m, xs), retention)
  }

  /** For each slot the latest among the segments of highest revision. */
  lemma {:induction false} PutAllWinner(xs: seq<Segment>, s: Slot)
    ensures s in PutAll(map[], xs) <==> exists i :: 0 <= i < |xs| && xs[i].SlotOf() == s
    ensures s in PutAll(map[], xs) ==> exists i: nat :: Wins(xs, i, s) && PutAll(map[], xs)[s] == xs[i]
  {
    PutAllKeys(map[], xs);
    if s in PutAll(map[], xs) { var i := WinnerIndex(xs, s); }
  }

  lemma {:induction false} WinnerIndex(xs: seq<Segment>, s: Slot) returns (i: nat)
    requires s in PutAll(map[], xs)
    ensures Wins(xs, i, s) && PutAll(map[], xs)[s] == xs[i]
    decreases |xs|
  {
    var front, x := xs[..|xs| - 1], xs[|xs| - 1];
    assert xs == front + [x];
    if s in PutAll(map[], front) {
      var k := WinnerIndex(front, s);
      WinnerAfter(front, x, k, s);
      i := if x.SlotOf() == s && x.revision >= front[k].revision then |front| else k;
    } else {
      PutAllKeys(map[], front);
      i := |front|;
      OnlyWinner(front, x, s);
    }
  }

  lemma OnlyWinner(front: seq<Segment>, x: Segment, s: Slot)
    requires x.SlotOf() == s && !exists i :: 0 <= i < |front| && front[i].SlotOf() == s
    ensures Wins(front + [x], |front|, s)
  {
    var xs := front + [x];
    assert forall j :: 0 <= j < |front| ==> xs[j] == front[j];
  }

  lemma WinnerAfter(front: seq<Segment>, x: Segment, i: nat, s: Slot)
    requires Wins(front, i, s)
    ensures Wins(front + [x], if x.SlotOf() == s && x.revision >= front[i].revision then |front| else i, s)
  {
    var xs := front + [x];
    assert forall j :: 0 <= j < |front| ==> xs[j] == front[j];
  }

  ghost predicate Wins(xs: seq<Segment>, i: nat, s: Slot) {
    i < |xs| && xs[i].SlotOf() == s
    && forall j :: 0 <= j < |xs| && xs[j].SlotOf() == s ==>
         xs[j].revision <= xs[i].revision && (j > i ==> xs[j].revision < xs[i].revision)
  }

  lemma {:induction false} PutAllKeys(m: map<Slot, Segment>, xs: seq<Segment>)
    requires Keyed(m)
    ensures Keyed(PutAll(m, xs))
    ensures forall s :: s in PutAll(m, xs) <==> s in m || exists i :: 0 <= i < |xs| && xs[i].SlotOf() == s
  {
    if xs != [] { PutAllKeys(m, xs[..|xs| - 1]); }
  }

  /** A slot's outcome depends only on what stood there before. */
  lemma {:induction false} PutAllLocal(m: map<Slot, Segment>, p: map<Slot, Segment>, xs: seq<Segment>, s: Slot)
    requires Found(m, s) == Found(p, s)
    ensures Found(PutAll(m, xs), s) == Found(PutAll(p, xs), s)
  {
    if xs != [] { PutAllLocal(m, p, xs[..|xs| - 1], s); }
  }

  lemma {:induction false} PutAllSplit(m: map<Slot, Segment>, xs: seq<Segment>, ys: seq<Segment>)
    ensures PutAll(m, xs + ys) == PutAll(PutAll(m, xs), ys)
  {
    if ys == [] {
      assert xs + ys == xs;
    } else {
      PutAllSplit(m, xs, ys[..|ys| - 1]);
      assert (xs + ys)[..|xs + ys| - 1] == xs + ys[..|ys| - 1];
    }
  }

  // ---------------------------------------------------------------- incremental equals rebuild

  /** Segments that start later never end earlier. */
  ghost predicate EndsFollowStarts(slots: set<Slot>) {
    forall a, b :: a in slots && b in slots && a.0 < b.0 ==> a.1 <= b.1
  }

  /** Under that hypothesis the last slot ends last of all. */
  lemma LastEndsLast(slots: set<Slot>)
    requires slots != {} && EndsFollowStarts(slots)
    ensures forall s :: s in slots ==> s.1 <= LastSlot(slots).1
  {
    var last := LastSlot(slots);
    forall s | s in slots ensures s.1 <= last.1 { assert SlotLe(s, last); }
  }

  lemma PrunedKeepsLast(m: map<Slot, Segment>, retention: nat)
    requires m != map[]
    ensures LastSlot(m.Keys) in Pruned(m, retention)
  {
  }

  /** Adding to a pruned table and to the full table leaves the same last slot. */
  lemma SameLast(m: map<Slot, Segment>, retention: nat, xs: seq<Segment>)
    requires Keyed(m) && m != map[]
    ensures var (full, inc) := (PutAll(m, xs), PutAll(Pruned(m, retention), xs));
            full != map[] && inc != map[] && LastSlot(inc.Keys) == LastSlot(full.Keys)
  {
    var p := Pruned(m, retention);
    var full, inc := PutAll(m, xs), PutAll(p, xs);
    PrunedKeepsLast(m, retention);
    PutAllKeys(m, xs);
    PutAllKeys(p, xs);
    var l, last := LastSlot(m.Keys), LastSlot(full.Keys);
    assert l in inc && l in full;
    assert last in inc by {
      if last in m { assert SlotLe(last, l) && SlotLe(l, last); }
    }
    forall s | s in inc.Keys ensures SlotLe(s, last) { assert s in full; }
    LastUnique(inc.Keys, LastSlot(inc.Keys), last);
  }

  /** With a negative retention everything is pruned away at once. */
  lemma NegativeRetentionEmpties(m: map<Slot, Segment>, retention: int)
    requires retention < 0 && EndsFollowStarts(m.Keys)
    ensures Pruned(m, retention) == map[]
  {
    if m != map[] { LastEndsLast(m.Keys); }
  }

  lemma NoRetainedForgotten(m: map<Slot, Segment>, retention: nat, xs: seq<Segment>)
    requires Keyed(m) && m != map[] && EndsFollowStarts(PutAll(m, xs).Keys)
    ensures PutAll(m, xs) != map[]
    ensures forall s :: s in m && s !in Pruned(m, retention) ==> !Retained(PutAll(m, xs).Keys, retention, s)
  {
    PutAllKeys(m, xs);
    assert LastSlot(m.Keys) in PutAll(m, xs);
    LastEndsLast(PutAll(m, xs).Keys);
  }

  /** Pruning early loses nothing: adding to the pruned table gives what pruning the full table
      gives. */
  lemma AddToPruned(m: map<Slot, Segment>, retention: int, xs: seq<Segment>)
    requires Keyed(m) && EndsFollowStarts(PutAll(m, xs).Keys)
    ensures Added(Pruned(m, retention), retention, xs) == Pruned(PutAll(m, xs), retention)
  {
    if retention < 0 {
      var full, inc := PutAll(m, xs), PutAll(Pruned(m, retention), xs);
      PutAllKeys(m, xs);
      PutAllKeys(Pruned(m, retention), xs);
      assert inc.Keys <= full.Keys;
      NegativeRetentionEmpties(full, retention);
      NegativeRetentionEmpties(inc, retention);
    } else if m != map[] {
      NoRetainedForgotten(m, retention, xs);
      AddEqualsRebuildIff(m, retention, xs);
    }
  }

  /** The table after a sequence of `add` calls for one session. */
  ghost function AfterAdds(retention: int, batches: seq<seq<Segment>>): map<Slot, Segment> {
    if batches == [] then map[]
    else Added(AfterAdds(retention, batches[..|batches| - 1]), retention, batches[|batches| - 1])
  }

  function Everything(batches: seq<seq<Segment>>): seq<Segment> {
    if batches == [] then [] else Everything(batches[..|batches| - 1]) + batches[|batches| - 1]
  }

  /** The incremental timeline equals a rebuild: after any sequence of `add` calls what is stored is
      the latest highest-revision segment per slot of everything ever added, pruned once. */
  lemma {:induction false} IncrementalEqualsRebuild(retention: int, batches: seq<seq<Segment>>)
    requires EndsFollowStarts(PutAll(map[], Everything(batches)).Keys)
    ensures AfterAdds(retention, batches) == Pruned(PutAll(map[], Everything(batches)), retention)
  {
    if batches != [] {
      var front, batch := batches[..|batches| - 1], batches[|batches| - 1];
      var all := Everything(front);
      PutAllSplit(map[], all, batch);
      PutAllKeys(map[], all);
      PutAllKeys(PutAll(map[], all), batch);
      IncrementalEqualsRebuild(retention, front);
      AddToPruned(PutAll(map[], all), retention, batch);
    }
  }

  // ---------------------------------------------------------------- exactly when

  /** A new segment for the slot that the old one would not survive. */
  ghost predicate Overtaken(xs: seq<Segment>, stored: Segment) {
    exists i :: 0 <= i < |xs| && xs[i].SlotOf() == stored.SlotOf() && xs[i].revision >= stored.revision
  }

  lemma {:induction false} OvertakenIff(m: map<Slot, Segment>, p: map<Slot, Segment>, xs: seq<Segment>, s: Slot)
    requires Keyed(m) && s in m && s !in p
    ensures Found(PutAll(m, xs), s) == Found(PutAll(p, xs), s) <==> Overtaken(xs, m[s])
    ensures s in PutAll(m, xs)
    ensures !Overtaken(xs, m[s]) ==> PutAll(m, xs)[s] == m[s]
    ensures s in PutAll(p, xs) ==> (Overtaken(xs, m[s]) || PutAll(p, xs)[s].revision < m[s].revision)
    ensures s in PutAll(p, xs) && Overtaken(xs, m[s]) ==> PutAll(p, xs)[s].revision >= m[s].revision
  {
    if xs != [] {
      var front, x := xs[..|xs| - 1], xs[|xs| - 1];
      OvertakenIff(m, p, front, s);
      assert forall i :: 0 <= i < |front| ==> xs[i] == front[i];
      assert Overtaken(xs, m[s]) <==> Overtaken(front, m[s]) || (x.SlotOf() == s && x.revision >= m[s].revision);
    }
  }

  /** For one `add`, without any hypothesis on the segments: the result is the rebuilt one exactly
      when every forgotten segment still lies below the new cutoff or is overtaken in this batch. */
  lemma AddEqualsRebuildIff(m: map<Slot, Segment>, retention: nat, xs: seq<Segment>)
    requires Keyed(m) && m != map[]
    ensures PutAll(m, xs) != map[]
    ensures Added(Pruned(m, retention), retention, xs) == Pruned(PutAll(m, xs), retention)
       <==> forall s :: s in m && s !in Pruned(m, retention) ==>
              !Retained(PutAll(m, xs).Keys, retention, s) || Overtaken(xs, m[s])
  {
    var p := Pruned(m, retention);
    var full, inc := PutAll(m, xs), PutAll(p, xs);
    SameLast(m, retention, xs);
    forall s ensures Found(full, s) == Found(inc, s) <==> (s in m && s !in p ==> Overtaken(xs, m[s])) {
      if s in m && s !in p { OvertakenIff(m, p, xs, s); } else { PutAllLocal(m, p, xs, s); }
    }
    forall s ensures Found(Pruned(full, retention), s) == Found(Pruned(inc, retention), s)
        <==> (Retained(full.Keys, retention, s) ==> Found(full, s) == Found(inc, s)) {}
    TablesEqualIff(Pruned(full, retention), Pruned(inc, retention));
    forall s | s in m ensures s in full { PutAllKeys(m, xs); }
  }

  /** Adding `xs` to the history `m` brings back no forgotten segment. */
  ghost predicate NothingLost(m: map<Slot, Segment>, retention: nat, xs: seq<Segment>) {
    forall s :: s in m && s !in Pruned(m, retention) ==>
      ((PutAll(m, xs) != map[] && !Retained(PutAll(m, xs).Keys, retention, s)) || Overtaken(xs, m[s]))
  }

  /** What a rebuild after the first `k` calls would store. */
  ghost function History(batches: seq<seq<Segment>>, k: nat): map<Slot, Segment>
    requires k <= |batches|
  {
    PutAll(map[], Everything(batches[..k]))
  }

  ghost predicate Rebuilt(retention: nat, batches: seq<seq<Segment>>, k: nat)
    requires k <= |batches|
  {
    AfterAdds(retention, batches[..k]) == Pruned(History(batches, k), retention)
  }

  /** From a rebuilt table one more call gives a rebuilt table exactly when it loses nothing. */
  lemma NextRebuiltIff(retention: nat, batches: seq<seq<Segment>>, k: nat)
    requires k < |batches| && Rebuilt(retention, batches, k)
    ensures Rebuilt(retention, batches, k + 1) <==> NothingLost(History(batches, k), retention, batches[k])
  {
    var m, xs := History(batches, k), batches[k];
    assert batches[..k + 1][..k] == batches[..k];
    PutAllSplit(map[], Everything(batches[..k]), xs);
    PutAllKeys(map[], Everything(batches[..k]));
    if m != map[] { AddEqualsRebuildIff(m, retention, xs); }
  }

  /** Over whole runs, without any hypothesis on the segments: the timeline is the rebuilt one after
      every call exactly when no call brings back a forgotten segment. */
  lemma {:induction false} AlwaysRebuiltIff(retention: nat, batches: seq<seq<Segment>>, n: nat)
    requires n <= |batches|
    ensures (forall k: nat :: k <= n ==> Rebuilt(retention, batches, k))
       <==> (forall k: nat :: k < n ==> NothingLost(History(batches, k), retention, batches[k]))
    decreases n
  {
    if n == 0 {
      assert batches[..0] == [];
    } else {
      AlwaysRebuiltIff(retention, batches, n - 1);
      if forall k: nat :: k <= n - 1 ==> Rebuilt(retention, batches, k) {
        NextRebuiltIff(retention, batches, n - 1);
      }
    }
  }

  lemma TablesEqualIff(a: map<Slot, Segment>, b: map<Slot, Segment>)
    ensures a == b <==> forall s :: Found(a, s) == Found(b, s)
  {
    if forall s :: Found(a, s) == Found(b, s) {
      assert forall s :: s in a <==> s in b by {
        forall s ensures s in a <==> s in b { assert Found(a, s) == Found(b, s); }
      }
      forall s | s in a ensures a[s] == b[s] { assert Found(a, s) == Found(b, s); }
    }
  }

  function Span(startMs: int, endMs: int): Segment {
    Segment("tenant", "session", startMs, endMs, "spk_001", 1.0, 1)
  }

  lemma PutOne(m: map<Slot, Segment>, x: Segment)
    ensures PutAll(m, [x]) == Put(m, x)
  {
    assert [x][..0] == [];
  }

  const FIRST := map[(0, 20) := Span(0, 20), (1, 100) := Span(1, 100)]

  lemma FirstForgets()
    ensures (0, 20) !in Pruned(FIRST, 10)
  {
    assert IsLast(FIRST.Keys, (1, 100));
    LastUnique(FIRST.Keys, LastSlot(FIRST.Keys), (1, 100));
  }

  lemma SecondWouldRetain()
    ensures var m := PutAll(FIRST, [Span(2, 15)]); m != map[] && Retained(m.Keys, 10, (0, 20))
  {
    PutOne(FIRST, Span(2, 15));
    var m := FIRST[(2, 15) := Span(2, 15)];
    assert IsLast(m.Keys, (2, 15));
    LastUnique(m.Keys, LastSlot(m.Keys), (2, 15));
  }

  /** Where a later start does end earlier, pruning early does lose a segment: with a retention of
      10 the slot (0, 20) is pruned by (1, 100) although (2, 15) would bring it back. */
  lemma EarlyPruningCanLose()
    ensures Added(Added(map[], 10, [Span(0, 20), Span(1, 100)]), 10, [Span(2, 15)])
         != Pruned(PutAll(map[], [Span(0, 20), Span(1, 100)] + [Span(2, 15)]), 10)
  {
    PutAllSplit(map[], [Span(0, 20)], [Span(1, 100)]);
    PutOne(map[], Span(0, 20));
    PutOne(Put(map[], Span(0, 20)), Span(1, 100));
    assert [Span(0, 20)] + [Span(1, 100)] == [Span(0, 20), Span(1, 100)];
    assert PutAll(map[], [Span(0, 20), Span(1, 100)]) == FIRST;
    PutAllSplit(map[], [Span(0, 20), Span(1, 100)], [Span(2, 15)]);
    FirstForgets();
    SecondWouldRetain();
    AddEqualsRebuildIff(FIRST, 10, [Span(2, 15)]);
  }
}
