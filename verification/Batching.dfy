/** One batch of the micro-batcher: the order in which a bucket is served, the greedy
    selection under the two caps, and the exchange argument that makes it optimal. */
module Batching {
  import opened Arithmetic
  import opened Sequences

  type Session = (string, string)
  type Matrix = seq<seq<real>>

  datatype FeatureChunk = FeatureChunk(
    tenant: string, session: string, chunkId: string,
    startMs: int, endMs: int, features: Matrix, speechRatio: real)

  datatype Queued = Queued(chunk: FeatureChunk, deadlineAt: real, enqueuedAt: real, ordinal: nat) {
    function SessionKey(): Session { (chunk.tenant, chunk.session) }
  }

  // ---------------------------------------------------------------- service order

  /** The key order (deadline, enqueue time, ordinal). */
  predicate Before(a: Queued, b: Queued) {
    || a.deadlineAt < b.deadlineAt
    || (a.deadlineAt == b.deadlineAt
        && (a.enqueuedAt < b.enqueuedAt
            || (a.enqueuedAt == b.enqueuedAt && a.ordinal < b.ordinal)))
  }

  ghost predicate InOrder(q: seq<Queued>) {
    forall i, j :: 0 <= i < j < |q| ==> Before(q[i], q[j])
  }

  ghost predicate DistinctOrdinals(q: seq<Queued>) {
    forall i, j :: 0 <= i < j < |q| ==> q[i].ordinal != q[j].ordinal
  }

  function Insert(x: Queued, q: seq<Queued>): seq<Queued> {
    if q == [] || Before(x, q[0]) then [x] + q else [q[0]] + Insert(x, q[1..])
  }

  function Ordered(q: seq<Queued>): seq<Queued> {
    if q == [] then [] else Insert(q[0], Ordered(q[1..]))
  }

  lemma {:induction false} InsertPermutes(x: Queued, q: seq<Queued>)
    ensures multiset(Insert(x, q)) == multiset{x} + multiset(q)
  {
    if q != [] && !Before(x, q[0]) {
      InsertPermutes(x, q[1..]);
      assert q == [q[0]] + q[1..];
    }
  }

  lemma {:induction false} InsertKeepsOrder(x: Queued, q: seq<Queued>)
    requires InOrder(q)
    requires forall y :: y in q ==> y.ordinal != x.ordinal
    ensures InOrder(Insert(x, q))
  {
    if q != [] && !Before(x, q[0]) {
      var rest := Insert(x, q[1..]);
      InsertKeepsOrder(x, q[1..]);
      InsertPermutes(x, q[1..]);
      forall y | y in rest ensures Before(q[0], y) {
        assert y in multiset(rest);
      }
    }
  }

  /** Sorting yields a permutation in strictly increasing key order. */
  lemma {:induction false} OrderedSorts(q: seq<Queued>)
    requires DistinctOrdinals(q)
    ensures InOrder(Ordered(q))
    ensures multiset(Ordered(q)) == multiset(q)
  {
    if q != [] {
      OrderedSorts(q[1..]);
      assert q == [q[0]] + q[1..];
      forall y | y in Ordered(q[1..]) ensures y.ordinal != q[0].ordinal {
        assert y in multiset(q[1..]);
      }
      InsertKeepsOrder(q[0], Ordered(q[1..]));
      InsertPermutes(q[0], Ordered(q[1..]));
    }
  }

  /** Two sequences in key order with the same elements are the same sequence, so
      whatever sorting algorithm is used yields `Ordered`. */
  lemma {:induction false} SortUnique(a: seq<Queued>, b: seq<Queued>)
    requires InOrder(a) && InOrder(b) && multiset(a) == multiset(b)
    ensures a == b
  {
    if a == [] {
      assert |multiset(a)| == |multiset(b)|;
    } else {
      assert a[0] in multiset(b) && b != [];
      HeadsAgree(a, b);
      Headless(a);
      Headless(b);
      SortUnique(a[1..], b[1..]);
      assert a == [a[0]] + a[1..] && b == [b[0]] + b[1..];
    }
  }

  lemma HeadsAgree(a: seq<Queued>, b: seq<Queued>)
    requires InOrder(a) && InOrder(b) && multiset(a) == multiset(b) && a != [] && b != []
    ensures a[0] == b[0]
  {
    assert a[0] in multiset(b) && b[0] in multiset(a);
  }

  lemma Headless(a: seq<Queued>)
    requires a != []
    ensures multiset(a[1..]) == multiset(a) - multiset{a[0]}
  {
    assert a == [a[0]] + a[1..];
  }

  // ---------------------------------------------------------------- session counts

  function SessionsOf(q: seq<Queued>): (r: seq<Session>)
    ensures |r| == |q| && forall i :: 0 <= i < |q| ==> r[i] == q[i].SessionKey()
  {
    seq(|q|, i requires 0 <= i < |q| => q[i].SessionKey())
  }

  function Count(xs: seq<Session>, s: Session): (n: nat)
    ensures n <= |xs|
  {
    if xs == [] then 0
    else Count(xs[..|xs| - 1], s) + (if xs[|xs| - 1] == s then 1 else 0)
  }

  lemma CountAppend(xs: seq<Session>, x: Session, s: Session)
    ensures Count(xs + [x], s) == Count(xs, s) + (if x == s then 1 else 0)
  {
    assert (xs + [x])[..|xs|] == xs;
  }


  ghost predicate NoRepeats(ss: seq<Session>) {
    forall i, j :: 0 <= i < j < |ss| ==> ss[i] != ss[j]
  }

  /** The sum over sessions `ss` of min(cap, number of occurrences in `xs`). */
  function CappedSum(ss: seq<Session>, xs: seq<Session>, cap: int): int {
    if ss == [] then 0
    else Min(cap, Count(xs, ss[0])) + CappedSum(ss[1..], xs, cap)
  }

  lemma {:induction false} CappedSumUnchanged(ss: seq<Session>, xs: seq<Session>, x: Session, cap: int)
    requires x !in ss
    ensures CappedSum(ss, xs + [x], cap) == CappedSum(ss, xs, cap)
  {
    if ss != [] {
      CountAppend(xs, x, ss[0]);
      CappedSumUnchanged(ss[1..], xs, x, cap);
    }
  }

  /** One more occurrence of `x` raises the sum by one while `x` is below the cap. */
  lemma {:induction false} CappedSumAppend(ss: seq<Session>, xs: seq<Session>, x: Session, cap: int)
    requires NoRepeats(ss) && x in ss
    ensures CappedSum(ss, xs + [x], cap)
         == CappedSum(ss, xs, cap) + (if Count(xs, x) < cap then 1 else 0)
  {
    CountAppend(xs, x, ss[0]);
    if x == ss[0] {
      CappedSumUnchanged(ss[1..], xs, x, cap);
    } else {
      CappedSumAppend(ss[1..], xs, x, cap);
    }
  }

  lemma {:induction false} CappedSumEmpty(ss: seq<Session>, cap: int)
    requires cap >= 0
    ensures CappedSum(ss, [], cap) == 0
  {
    if ss != [] { CappedSumEmpty(ss[1..], cap); }
  }

  /** When no session exceeds the cap the capped sum is just the length. */
  lemma {:induction false} CappedSumIsLength(ss: seq<Session>, xs: seq<Session>, cap: nat)
    requires NoRepeats(ss) && (forall x :: x in xs ==> x in ss)
    requires forall s :: s in ss ==> Count(xs, s) <= cap
    ensures CappedSum(ss, xs, cap) == |xs|
  {
    if xs == [] {
      CappedSumEmpty(ss, cap);
    } else {
      var front, x := xs[..|xs| - 1], xs[|xs| - 1];
      assert xs == front + [x];
      forall s | s in ss ensures Count(front, s) <= cap { CountAppend(front, x, s); }
      CappedSumIsLength(ss, front, cap);
      CountAppend(front, x, x);
      CappedSumAppend(ss, front, x, cap);
    }
  }

  lemma {:induction false} CappedSumMonotone(ss: seq<Session>, xs: seq<Session>, ys: seq<Session>, cap: int)
    requires forall s :: s in ss ==> Min(cap, Count(xs, s)) <= Min(cap, Count(ys, s))
    ensures CappedSum(ss, xs, cap) <= CappedSum(ss, ys, cap)
  {
    if ss != [] { CappedSumMonotone(ss[1..], xs, ys, cap); }
  }

  // ---------------------------------------------------------------- greedy selection

  /** The requests among the first `n` of `o` that the greedy loop has selected. */
  function Picked(o: seq<Queued>, n: nat, cap: nat, max: nat): (p: seq<Queued>)
    requires n <= |o|
    ensures |p| <= n
  {
    if n == 0 then []
    else
      var p := Picked(o, n - 1, cap, max);
      if |p| < max && Count(SessionsOf(p), o[n - 1].SessionKey()) < cap
      then p + [o[n - 1]] else p
  }

  function Batch(queue: seq<Queued>, cap: nat, max: nat): seq<Queued> {
    Picked(Ordered(queue), |Ordered(queue)|, cap, max)
  }

  lemma SessionsAppend(p: seq<Queued>, x: Queued)
    ensures SessionsOf(p + [x]) == SessionsOf(p) + [x.SessionKey()]
  {
  }

  /** `p` respects the caps and, below the global cap, holds the full share of session `s` out of `f`. */
  predicate Shares(p: seq<Queued>, f: seq<Queued>, cap: nat, max: nat, s: Session) {
    && |p| <= max && Count(SessionsOf(p), s) <= Min(cap, Count(SessionsOf(f), s))
    && (|p| < max ==> Count(SessionsOf(p), s) == Min(cap, Count(SessionsOf(f), s)))
  }

  /** The caps hold, and below the global cap every session holds its full share. */
  lemma {:induction false} PickedShares(o: seq<Queued>, n: nat, cap: nat, max: nat, s: Session)
    requires n <= |o|
    ensures Shares(Picked(o, n, cap, max), o[..n], cap, max, s)
    decreases n
  {
    if n > 0 {
      PickedShares(o, n - 1, cap, max, s);
      PickedShares(o, n - 1, cap, max, o[n - 1].SessionKey());
      SharesStep(Picked(o, n - 1, cap, max), o[..n - 1], o[n - 1], cap, max, s);
      TakeOneMore(o, n);
    }
  }

  lemma SharesStep(p: seq<Queued>, f: seq<Queued>, x: Queued, cap: nat, max: nat, s: Session)
    requires Shares(p, f, cap, max, s) && Shares(p, f, cap, max, x.SessionKey())
    ensures Shares(if |p| < max && Count(SessionsOf(p), x.SessionKey()) < cap then p + [x] else p, f + [x], cap, max, s)
  {
    OneMore(f, x, s);
    OneMore(p, x, s);
  }

  lemma OneMore(q: seq<Queued>, x: Queued, s: Session)
    ensures Count(SessionsOf(q + [x]), s) == Count(SessionsOf(q), s) + (if x.SessionKey() == s then 1 else 0)
  {
    SessionsAppend(q, x);
    CountAppend(SessionsOf(q), x.SessionKey(), s);
  }

  lemma {:induction false} CountPositive(xs: seq<Session>, s: Session)
    ensures Count(xs, s) > 0 <==> s in xs
  {
    if xs != [] {
      CountPositive(xs[..|xs| - 1], s);
      assert xs == xs[..|xs| - 1] + [xs[|xs| - 1]];
    }
  }

  lemma PickedSessions(o: seq<Queued>, n: nat, cap: nat, max: nat, s: Session)
    requires n <= |o| && s in SessionsOf(Picked(o, n, cap, max))
    ensures s in SessionsOf(o)
  {
    PickedShares(o, n, cap, max, s);
    CountPositive(SessionsOf(Picked(o, n, cap, max)), s);
    CountPositive(SessionsOf(o[..n]), s);
  }

  ghost predicate Covers(ss: seq<Session>, o: seq<Queued>) {
    NoRepeats(ss) && forall s :: s in SessionsOf(o) ==> s in ss
  }

  /** After any prefix the greedy selection has the largest size the caps allow. */
  lemma PickedSize(o: seq<Queued>, n: nat, cap: nat, max: nat, ss: seq<Session>)
    requires n <= |o| && Covers(ss, o)
    ensures |Picked(o, n, cap, max)| == Min(max, CappedSum(ss, SessionsOf(o[..n]), cap))
  {
    var xs := SessionsOf(Picked(o, n, cap, max));
    forall s | s in ss
      ensures Count(xs, s) <= Min(cap, Count(SessionsOf(o[..n]), s))
      ensures |xs| < max ==> Count(xs, s) == Min(cap, Count(SessionsOf(o[..n]), s))
    {
      PickedShares(o, n, cap, max, s);
    }
    forall s | s in xs ensures s in ss { PickedSessions(o, n, cap, max, s); }
    CappedSumIsLength(ss, xs, cap);
    CappedSumMonotone(ss, xs, SessionsOf(o[..n]), cap);
    if |xs| < max {
      CappedSumMonotone(ss, SessionsOf(o[..n]), xs, cap);
    }
    PickedShares(o, n, cap, max, ("", ""));
  }

  // ---------------------------------------------------------------- the rival selection

  /** A sub-collection of a prefix uses each session at most as often as the prefix. */
  lemma {:induction false} SubCount(o: seq<Queued>, sub: seq<Queued>, s: Session)
    requires InOrder(o) && InOrder(sub)
    requires forall x :: x in sub ==> x in o
    ensures Count(SessionsOf(sub), s) <= Count(SessionsOf(o), s)
  {
    if sub != [] {
      assert sub[0] in o;
      var front, x := o[..|o| - 1], o[|o| - 1];
      var rest, y := sub[..|sub| - 1], sub[|sub| - 1];
      assert o == front + [x] && sub == rest + [y];
      SessionsAppend(front, x);
      CountAppend(SessionsOf(front), x.SessionKey(), s);
      RestInFront(front, x, rest, y);
      if x == y {
        SubCount(front, rest, s);
        SessionsAppend(rest, x);
        CountAppend(SessionsOf(rest), x.SessionKey(), s);
      } else {
        SubCount(front, sub, s);
      }
    }
  }

  lemma RestInFront(front: seq<Queued>, x: Queued, rest: seq<Queued>, y: Queued)
    requires InOrder(front + [x]) && InOrder(rest + [y])
    requires forall z :: z in rest + [y] ==> z in front + [x]
    ensures InOrder(front) && InOrder(rest)
    ensures forall z :: z in rest ==> z in front
    ensures y != x ==> y in front
  {
    var o, sub := front + [x], rest + [y];
    forall i, j | 0 <= i < j < |front| ensures Before(front[i], front[j]) { assert Before(o[i], o[j]); }
    forall i, j | 0 <= i < j < |rest| ensures Before(rest[i], rest[j]) { assert Before(sub[i], sub[j]); }
    assert y in sub;
    forall z | z in rest ensures z in front {
      var i :| 0 <= i < |rest| && rest[i] == z;
      assert Before(sub[i], sub[|rest|]);
      assert z in sub;
    }
  }

  /** Any selection within the caps out of a prefix is no larger than the greedy one. */
  lemma NoLargerInPrefix(o: seq<Queued>, n: nat, cap: nat, max: nat, sub: seq<Queued>, ss: seq<Session>)
    requires n <= |o| && InOrder(o) && InOrder(sub) && Covers(ss, o)
    requires forall x :: x in sub ==> x in o[..n]
    requires |sub| <= max && forall s :: Count(SessionsOf(sub), s) <= cap
    ensures |sub| <= |Picked(o, n, cap, max)|
  {
    var xs := SessionsOf(sub);
    forall s | s in xs ensures s in ss {
      var i :| 0 <= i < |xs| && xs[i] == s;
      assert sub[i] in o[..n];
      var k :| 0 <= k < n && o[k] == sub[i];
      assert SessionsOf(o)[k] == s;
    }
    forall s | s in ss ensures Min(cap, Count(xs, s)) <= Min(cap, Count(SessionsOf(o[..n]), s)) {
      SubCount(o[..n], sub, s);
    }
    CappedSumIsLength(ss, xs, cap);
    CappedSumMonotone(ss, xs, SessionsOf(o[..n]), cap);
    PickedSize(o, n, cap, max, ss);
  }

  lemma {:induction false} PickedInOrder(o: seq<Queued>, n: nat, cap: nat, max: nat)
    requires n <= |o| && InOrder(o)
    ensures InOrder(Picked(o, n, cap, max))
    ensures forall x :: x in Picked(o, n, cap, max) ==> x in o[..n]
  {
    if n > 0 {
      PickedInOrder(o, n - 1, cap, max);
      var p := Picked(o, n - 1, cap, max);
      assert o[..n] == o[..n - 1] + [o[n - 1]];
      forall i | 0 <= i < |p| ensures Before(p[i], o[n - 1]) { assert p[i] in o[..n - 1]; }
    }
  }

  lemma {:induction false} PickedExtends(o: seq<Queued>, n: nat, m: nat, cap: nat, max: nat)
    requires n <= m <= |o|
    ensures Picked(o, n, cap, max) <= Picked(o, m, cap, max)
  {
    if n < m { PickedExtends(o, n, m - 1, cap, max); }
  }

  lemma CountPrefix(xs: seq<Session>, k: nat, s: Session)
    requires k <= |xs|
    ensures Count(xs[..k], s) <= Count(xs, s)
    decreases |xs| - k
  {
    if k < |xs| {
      CountPrefix(xs, k + 1, s);
      assert xs[..k + 1][..k] == xs[..k];
    } else {
      assert xs[..k] == xs;
    }
  }

  function DistinctSessions(o: seq<Queued>): (ss: seq<Session>)
    ensures NoRepeats(ss)
    ensures forall s :: s in ss <==> s in SessionsOf(o)
  {
    if o == [] then []
    else
      var rest := DistinctSessions(o[1..]);
      var s := o[0].SessionKey();
      assert SessionsOf(o) == [s] + SessionsOf(o[1..]);
      if s in rest then rest else [s] + rest
  }

  /** The batch respects both caps and has exactly the largest size they allow. */
  lemma BatchSize(queue: seq<Queued>, cap: nat, max: nat, ss: seq<Session>)
    requires DistinctOrdinals(queue) && Covers(ss, queue)
    ensures |Batch(queue, cap, max)| == Min(max, CappedSum(ss, SessionsOf(queue), cap))
    ensures forall s :: Count(SessionsOf(Batch(queue, cap, max)), s) <= cap
  {
    var o := Ordered(queue);
    OrderedSorts(queue);
    SessionsPermuted(queue, o);
    forall s | s in SessionsOf(o) ensures s in ss {
      CountPositive(SessionsOf(o), s);
      CountPositive(SessionsOf(queue), s);
    }
    assert o[..|o|] == o;
    PickedSize(o, |o|, cap, max, ss);
    CappedSumMonotone(ss, SessionsOf(o), SessionsOf(queue), cap);
    CappedSumMonotone(ss, SessionsOf(queue), SessionsOf(o), cap);
    forall s ensures Count(SessionsOf(Batch(queue, cap, max)), s) <= cap {
      PickedShares(o, |o|, cap, max, s);
    }
  }

  lemma SessionsPermuted(a: seq<Queued>, b: seq<Queued>)
    requires multiset(a) == multiset(b)
    ensures forall s :: Count(SessionsOf(a), s) == Count(SessionsOf(b), s)
  {
    forall s ensures Count(SessionsOf(a), s) == Count(SessionsOf(b), s) { CountPermuted(a, b, s); }
  }

  lemma {:induction false} CountPermuted(a: seq<Queued>, b: seq<Queued>, s: Session)
    requires multiset(a) == multiset(b)
    ensures Count(SessionsOf(a), s) == Count(SessionsOf(b), s)
  {
    if a == [] {
      assert |multiset(a)| == |multiset(b)|;
    } else {
      var front, x := a[..|a| - 1], a[|a| - 1];
      assert a == front + [x];
      assert x in multiset(b);
      var j :| 0 <= j < |b| && b[j] == x;
      assert b == b[..j] + [x] + b[j + 1..];
      var rest := b[..j] + b[j + 1..];
      assert multiset(rest) == multiset(b) - multiset{x} == multiset(front);
      CountPermuted(front, rest, s);
      SessionsAppend(front, x);
      CountAppend(SessionsOf(front), x.SessionKey(), s);
      CountMiddle(b[..j], x, b[j + 1..], s);
    }
  }

  lemma {:induction false} CountMiddle(l: seq<Queued>, x: Queued, r: seq<Queued>, s: Session)
    ensures Count(SessionsOf(l + [x] + r), s)
         == Count(SessionsOf(l + r), s) + (if x.SessionKey() == s then 1 else 0)
  {
    if r == [] {
      assert l + [x] + r == l + [x] && l + r == l;
      SessionsAppend(l, x);
      CountAppend(SessionsOf(l), x.SessionKey(), s);
    } else {
      var front, y := r[..|r| - 1], r[|r| - 1];
      CountMiddle(l, x, front, s);
      assert l + [x] + r == (l + [x] + front) + [y] && l + r == (l + front) + [y];
      SessionsAppend(l + [x] + front, y);
      SessionsAppend(l + front, y);
      CountAppend(SessionsOf(l + [x] + front), y.SessionKey(), s);
      CountAppend(SessionsOf(l + front), y.SessionKey(), s);
    }
  }

  /** EDF optimality: no selection of the bucket within the caps is larger, and its
      i-th request never precedes the i-th request of the batch. */
  lemma BatchOptimal(queue: seq<Queued>, cap: nat, max: nat, other: seq<Queued>)
    requires DistinctOrdinals(queue) && InOrder(other)
    requires forall x :: x in other ==> x in queue
    requires |other| <= max && forall s :: Count(SessionsOf(other), s) <= cap
    ensures |other| <= |Batch(queue, cap, max)|
    ensures forall i :: 0 <= i < |other| ==> !Before(other[i], Batch(queue, cap, max)[i])
  {
    var o := Ordered(queue);
    OrderedSorts(queue);
    forall x | x in other ensures x in o { assert x in multiset(queue); }
    var ss := DistinctSessions(o);
    assert o[..|o|] == o;
    NoLargerInPrefix(o, |o|, cap, max, other, ss);
    forall i | 0 <= i < |other| ensures !Before(other[i], Batch(queue, cap, max)[i]) {
      BatchOptimalAt(o, cap, max, other, ss, i);
    }
  }

  /** What a selection holds up to its i-th request stands no later than that request. */
  lemma HeadInPrefix(o: seq<Queued>, other: seq<Queued>, i: nat, p: nat)
    requires InOrder(o) && InOrder(other) && i < |other| && p < |o| && o[p] == other[i]
    requires forall x :: x in other ==> x in o
    ensures forall k :: 0 <= k <= i ==> other[k] in o[..p + 1]
  {
    forall k | 0 <= k <= i ensures other[k] in o[..p + 1] {
      assert other[k] in o;
      var q :| 0 <= q < |o| && o[q] == other[k];
      assert k == i || Before(other[k], other[i]);
      assert q <= p;
      assert o[..p + 1][q] == other[k];
    }
  }

  lemma BatchOptimalAt(o: seq<Queued>, cap: nat, max: nat, other: seq<Queued>, ss: seq<Session>, i: nat)
    requires InOrder(o) && InOrder(other) && Covers(ss, o) && i < |other|
    requires forall x :: x in other ==> x in o
    requires |other| <= max && forall s :: Count(SessionsOf(other), s) <= cap
    ensures i < |Picked(o, |o|, cap, max)|
    ensures !Before(other[i], Picked(o, |o|, cap, max)[i])
  {
    assert other[i] in o;
    var p: nat :| p < |o| && o[p] == other[i];
    PrefixReaches(o, cap, max, other, ss, i, p);
    PickedExtends(o, p + 1, |o|, cap, max);
    PickedNotAfter(o, cap, max, p, i);
  }

  /** The greedy selection out of the prefix that ends with `other`'s i-th request has an i-th request. */
  lemma PrefixReaches(o: seq<Queued>, cap: nat, max: nat, other: seq<Queued>, ss: seq<Session>, i: nat, p: nat)
    requires InOrder(o) && InOrder(other) && Covers(ss, o) && i < |other|
    requires forall x :: x in other ==> x in o
    requires |other| <= max && forall s :: Count(SessionsOf(other), s) <= cap
    requires p < |o| && o[p] == other[i]
    ensures i < |Picked(o, p + 1, cap, max)|
  {
    HeadInPrefix(o, other, i, p);
    PrefixWithinCap(other, cap, i);
    NoLargerInPrefix(o, p + 1, cap, max, other[..i + 1], ss);
  }

  lemma PickedNotAfter(o: seq<Queued>, cap: nat, max: nat, p: nat, i: nat)
    requires InOrder(o) && p < |o| && i < |Picked(o, p + 1, cap, max)|
    ensures !Before(o[p], Picked(o, p + 1, cap, max)[i])
  {
    PickedInOrder(o, p + 1, cap, max);
    NotAfterPrefix(o, p, Picked(o, p + 1, cap, max)[i]);
  }

  lemma PrefixWithinCap(other: seq<Queued>, cap: nat, i: nat)
    requires i < |other| && forall s :: Count(SessionsOf(other), s) <= cap
    ensures var sessions := SessionsOf(other[..i + 1]); forall s :: Count(sessions, s) <= cap
  {
    var sessions := SessionsOf(other[..i + 1]);
    assert sessions == SessionsOf(other)[..i + 1];
    forall s ensures Count(sessions, s) <= cap { CountPrefix(SessionsOf(other), i + 1, s); }
  }

  lemma NotAfterPrefix(o: seq<Queued>, p: nat, g: Queued)
    requires InOrder(o) && p < |o| && g in o[..p + 1]
    ensures !Before(o[p], g)
  {
    var k :| 0 <= k <= p && o[k] == g;
    assert k == p || Before(o[k], o[p]);
  }

  // ---------------------------------------------------------------- what is left behind

  /** `[item for item in queue if id(item) not in selected_ids]` */
  function Without(queue: seq<Queued>, batch: seq<Queued>): (r: seq<Queued>)
    ensures forall x :: x in r <==> x in queue && x !in batch
    ensures |r| <= |queue|
  {
    if queue == [] then []
    else if queue[0] in batch then Without(queue[1..], batch)
    else [queue[0]] + Without(queue[1..], batch)
  }

  lemma {:induction false} WithoutDistinct(queue: seq<Queued>, batch: seq<Queued>)
    requires DistinctOrdinals(queue)
    ensures DistinctOrdinals(Without(queue, batch))
  {
    if queue != [] {
      WithoutDistinct(queue[1..], batch);
      forall x | x in Without(queue[1..], batch) ensures x.ordinal != queue[0].ordinal {
        assert x in queue[1..];
      }
    }
  }

  /** A non-empty bucket yields a non-empty batch that starts with its earliest request;
      everything else stays behind. */
  lemma BatchTakes(queue: seq<Queued>, cap: nat, max: nat)
    requires DistinctOrdinals(queue) && queue != [] && cap > 0 && max > 0
    ensures var b := Batch(queue, cap, max);
            && b != []
            && InOrder(b) && DistinctOrdinals(b)
            && (forall x :: x in b ==> x in queue)
            && (forall x :: x in queue ==> x == b[0] || Before(b[0], x))
            && (forall x :: x in queue <==> x in b || x in Without(queue, b))
            && |Without(queue, b)| < |queue|
  {
    var o := Ordered(queue);
    OrderedSorts(queue);
    PickedInOrder(o, |o|, cap, max);
    var b := Batch(queue, cap, max);
    assert queue[0] in multiset(o);
    BatchHead(o, cap, max);
    forall x | x in b ensures x in queue { assert x in multiset(o); }
    forall x | x in queue ensures x == o[0] || Before(o[0], x) {
      assert x in multiset(o);
    }
    OrderedDistinct(b, queue);
    assert b[0] in queue;
    WithoutShorter(queue, b, b[0]);
  }

  /** The loop selects the first request. */
  lemma BatchHead(o: seq<Queued>, cap: nat, max: nat)
    requires o != [] && cap > 0 && max > 0
    ensures var b := Picked(o, |o|, cap, max); b != [] && b[0] == o[0]
  {
    assert Picked(o, 0, cap, max) == [];
    assert Picked(o, 1, cap, max) == [o[0]];
    PickedExtends(o, 1, |o|, cap, max);
  }

  lemma OrderedDistinct(b: seq<Queued>, queue: seq<Queued>)
    requires InOrder(b) && DistinctOrdinals(queue) && forall x :: x in b ==> x in queue
    ensures DistinctOrdinals(b)
  {
    forall i, j | 0 <= i < j < |b| ensures b[i].ordinal != b[j].ordinal {
      assert b[i] in queue && b[j] in queue && Before(b[i], b[j]);
    }
  }

  lemma {:induction false} WithoutShorter(queue: seq<Queued>, batch: seq<Queued>, x: Queued)
    requires x in queue && x in batch
    ensures |Without(queue, batch)| < |queue|
  {
    if x != queue[0] { WithoutShorter(queue[1..], batch, x); }
  }
}
