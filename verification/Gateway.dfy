/** Admission of audio packets by session, client epoch and sequence number, and the accounting
    of everything admitted or reported missing over whole runs. */
module Gateway {
  import opened Wrappers

  type Key = (string, string)

  datatype Cursor = Cursor(epoch: nat, lastSeq: nat)
  datatype Status = Accepted | GapAccepted | Duplicate | StaleEpoch

  /** `missing` is an inclusive range of sequence numbers. */
  datatype Decision = Decision(status: Status, expectedNextSeq: nat, missing: Option<(nat, nat)>) {
    predicate IsAccepted() { status.Accepted? || status.GapAccepted? }
    predicate ReportsMissing(q: nat) { missing.Some? && missing.value.0 <= q <= missing.value.1 }
  }

  /** `accept` on one session's cursor. */
  function Admit(cursor: Option<Cursor>, epoch: nat, seqNo: nat): (Cursor, Decision) {
    if cursor.None? || epoch > cursor.value.epoch then
      (Cursor(epoch, seqNo),
       if seqNo > 0 then Decision(GapAccepted, seqNo + 1, Some((0, seqNo - 1))) else Decision(Accepted, seqNo + 1, None))
    else
      var c := cursor.value;
      if epoch < c.epoch then (c, Decision(StaleEpoch, c.lastSeq + 1, None))
      else if seqNo <= c.lastSeq then (c, Decision(Duplicate, c.lastSeq + 1, None))
      else
        (Cursor(c.epoch, seqNo),
         if seqNo > c.lastSeq + 1 then Decision(GapAccepted, seqNo + 1, Some((c.lastSeq + 1, seqNo - 1)))
         else Decision(Accepted, seqNo + 1, None))
  }

  function CursorOf(cursors: map<Key, Cursor>, key: Key): Option<Cursor> {
    if key in cursors then Some(cursors[key]) else None
  }

  class EventGateway {
    var cursors: map<Key, Cursor>

    constructor ()
      ensures cursors == map[]
    {
      cursors := map[];
    }

    /** Only the packet's own session is touched, and a rejected packet changes nothing. */
    method Accept(key: Key, epoch: nat, seqNo: nat) returns (d: Decision)
      modifies this
      ensures var (c, e) := Admit(CursorOf(old(cursors), key), epoch, seqNo);
              cursors == old(cursors)[key := c] && d == e
      ensures !d.IsAccepted() ==> cursors == old(cursors)
    {
      if key !in cursors || epoch > cursors[key].epoch {
        var missing := if seqNo > 0 then Some((0, seqNo - 1)) else None;
        var status := if missing.Some? then GapAccepted else Accepted;
        cursors := cursors[key := Cursor(epoch, seqNo)];
        return Decision(status, seqNo + 1, missing);
      }
      var cursor := cursors[key];
      if epoch < cursor.epoch { return Decision(StaleEpoch, cursor.lastSeq + 1, None); }
      if seqNo <= cursor.lastSeq { return Decision(Duplicate, cursor.lastSeq + 1, None); }
      var missing: Option<(nat, nat)> := None;
      var status := Accepted;
      if seqNo > cursor.lastSeq + 1 {
        missing := Some((cursor.lastSeq + 1, seqNo - 1));
        status := GapAccepted;
      }
      cursors := cursors[key := cursor.(lastSeq := seqNo)];
      return Decision(status, seqNo + 1, missing);
    }

    method Forget(key: Key)
      modifies this
      ensures cursors == old(cursors) - {key}
    {
      cursors := cursors - {key};
    }
  }

  /** `p` continues the session: it is the first packet, of a newer epoch, or further on in the same one. */
  predicate Continues(cursor: Option<Cursor>, epoch: nat, seqNo: nat) {
    cursor == None || epoch > cursor.value.epoch || (epoch == cursor.value.epoch && seqNo > cursor.value.lastSeq)
  }

  /** A number the session is waiting for: from zero on in a new epoch, after the last one otherwise. */
  predicate Awaited(cursor: Option<Cursor>, epoch: nat, q: nat) {
    cursor == None || epoch != cursor.value.epoch || q > cursor.value.lastSeq
  }

  /** The decision on one packet: it is accepted exactly when it continues the session, which it then leads;
      the missing numbers are exactly those awaited before it, and make the gap; a rejected packet is stale
      or a duplicate; and the number expected next follows the session's last one. */
  lemma DecisionMeans(cursor: Option<Cursor>, epoch: nat, seqNo: nat, q: nat)
    ensures var (c, d) := Admit(cursor, epoch, seqNo);
            && (d.IsAccepted() <==> Continues(cursor, epoch, seqNo))
            && (if d.IsAccepted() then c == Cursor(epoch, seqNo) else cursor == Some(c))
            && (d.ReportsMissing(q) <==> d.IsAccepted() && q < seqNo && Awaited(cursor, epoch, q))
            && (d.status == GapAccepted <==> d.missing.Some?)
            && (d.status == StaleEpoch <==> cursor.Some? && epoch < cursor.value.epoch)
            && (d.status == Duplicate <==> cursor.Some? && epoch == cursor.value.epoch && seqNo <= cursor.value.lastSeq)
            && d.expectedNextSeq == c.lastSeq + 1
            && (d.missing.Some? ==> d.missing.value.0 <= d.missing.value.1)
  {
  }

  // ---------------------------------------------------------------- runs of one session

  datatype Packet = Packet(epoch: nat, seqNo: nat)

  /** The cursor before the i-th packet of a session that starts unknown. */
  function CursorAt(ps: seq<Packet>, i: nat): Option<Cursor>
    requires i <= |ps|
  {
    if i == 0 then None else Some(Admit(CursorAt(ps, i - 1), ps[i - 1].epoch, ps[i - 1].seqNo).0)
  }

  function DecisionAt(ps: seq<Packet>, i: nat): Decision
    requires i < |ps|
  {
    Admit(CursorAt(ps, i), ps[i].epoch, ps[i].seqNo).1
  }

  predicate LexLe(a: Cursor, b: Cursor) { a.epoch < b.epoch || (a.epoch == b.epoch && a.lastSeq <= b.lastSeq) }
  predicate LexLess(a: Packet, b: Packet) { a.epoch < b.epoch || (a.epoch == b.epoch && a.seqNo < b.seqNo) }

  /** The cursor never moves backwards. */
  lemma {:induction false} CursorMonotone(ps: seq<Packet>, i: nat, j: nat)
    requires 0 < i <= j <= |ps|
    ensures CursorAt(ps, i).Some? && CursorAt(ps, j).Some?
    ensures LexLe(CursorAt(ps, i).value, CursorAt(ps, j).value)
    decreases j
  {
    if i < j { CursorMonotone(ps, i, j - 1); }
  }

  /** Accepted packets come in strictly increasing (epoch, sequence) order, so none is admitted twice. */
  lemma AcceptedIncrease(ps: seq<Packet>, i: nat, j: nat)
    requires i < j < |ps| && DecisionAt(ps, i).IsAccepted() && DecisionAt(ps, j).IsAccepted()
    ensures LexLess(ps[i], ps[j])
  {
    CursorMonotone(ps, i + 1, j);
    assert CursorAt(ps, i + 1).value == Cursor(ps[i].epoch, ps[i].seqNo);
  }

  /** Among the first `n` packets one with number `q` was accepted in epoch `e`. */
  predicate AcceptedIn(ps: seq<Packet>, n: nat, e: nat, q: nat)
    requires n <= |ps|
  {
    n > 0 && (AcceptedIn(ps, n - 1, e, q) || (ps[n - 1] == Packet(e, q) && DecisionAt(ps, n - 1).IsAccepted()))
  }

  /** Among the first `n` packets one of epoch `e` made the gateway report `q` missing. */
  predicate MissingIn(ps: seq<Packet>, n: nat, e: nat, q: nat)
    requires n <= |ps|
  {
    n > 0 && (MissingIn(ps, n - 1, e, q) || (ps[n - 1].epoch == e && DecisionAt(ps, n - 1).ReportsMissing(q)))
  }

  lemma {:induction false} AcceptedMeans(ps: seq<Packet>, n: nat, e: nat, q: nat)
    requires n <= |ps|
    ensures AcceptedIn(ps, n, e, q)
       <==> exists i :: 0 <= i < n && ps[i] == Packet(e, q) && DecisionAt(ps, i).IsAccepted()
    decreases n
  {
    if n > 0 { AcceptedMeans(ps, n - 1, e, q); }
  }

  lemma {:induction false} MissingMeans(ps: seq<Packet>, n: nat, e: nat, q: nat)
    requires n <= |ps|
    ensures MissingIn(ps, n, e, q)
       <==> exists i :: 0 <= i < n && ps[i].epoch == e && DecisionAt(ps, i).ReportsMissing(q)
    decreases n
  {
    if n > 0 { MissingMeans(ps, n - 1, e, q); }
  }

  /** No epoch above the cursor's has been seen. */
  lemma {:induction false} NothingAhead(ps: seq<Packet>, n: nat, e: nat, q: nat)
    requires n <= |ps| && (CursorAt(ps, n).None? || e > CursorAt(ps, n).value.epoch)
    ensures !AcceptedIn(ps, n, e, q) && !MissingIn(ps, n, e, q)
    decreases n
  {
    if n > 0 {
      NothingAhead(ps, n - 1, e, q);
    }
  }

  /** Exactly one of `a` and `m` up to `last`, neither beyond. */
  predicate ExactlyOne(a: bool, m: bool, q: nat, last: nat) {
    (a || m <==> q <= last) && !(a && m)
  }

  /** One admission, for one number `q`: `a` and `m` say whether it had been accepted or reported
      missing in the epoch the cursor is in afterwards. */
  lemma AdmitAccounts(cursor: Option<Cursor>, p: Packet, q: nat, a: bool, m: bool)
    requires var (c, d) := Admit(cursor, p.epoch, p.seqNo);
             if cursor.None? || c.epoch > cursor.value.epoch then !a && !m
             else ExactlyOne(a, m, q, cursor.value.lastSeq)
    ensures var (c, d) := Admit(cursor, p.epoch, p.seqNo);
            ExactlyOne(a || (p == Packet(c.epoch, q) && d.IsAccepted()),
                       m || (p.epoch == c.epoch && d.ReportsMissing(q)), q, c.lastSeq)
  {
  }

  /** Admission accounting: in the current epoch every number up to the cursor has been either
      accepted or reported missing, never both, and nothing beyond it has been either. */
  ghost predicate Accounted(ps: seq<Packet>, n: nat, q: nat)
    requires n <= |ps|
  {
    CursorAt(ps, n).Some? &&
    var c := CursorAt(ps, n).value;
    ExactlyOne(AcceptedIn(ps, n, c.epoch, q), MissingIn(ps, n, c.epoch, q), q, c.lastSeq)
  }

  lemma {:induction false} Accounting(ps: seq<Packet>, n: nat, q: nat)
    requires 0 < n <= |ps|
    ensures Accounted(ps, n, q)
    decreases n
  {
    var e := CursorAt(ps, n).value.epoch;
    if n == 1 || e > CursorAt(ps, n - 1).value.epoch {
      NothingAhead(ps, n - 1, e, q);
    } else {
      Accounting(ps, n - 1, q);
    }
    AdmitAccounts(CursorAt(ps, n - 1), ps[n - 1], q, AcceptedIn(ps, n - 1, e, q), MissingIn(ps, n - 1, e, q));
  }

  /** The same in terms of the packets themselves: every number up to the cursor belongs to exactly one
      of an accepted packet and a reported gap of the current epoch, no other number to either. */
  lemma EveryNumberPlaced(ps: seq<Packet>, n: nat, q: nat)
    requires 0 < n <= |ps|
    ensures CursorAt(ps, n).Some?
    ensures var c := CursorAt(ps, n).value;
            ExactlyOne(exists i :: 0 <= i < n && ps[i] == Packet(c.epoch, q) && DecisionAt(ps, i).IsAccepted(),
                       exists i :: 0 <= i < n && ps[i].epoch == c.epoch && DecisionAt(ps, i).ReportsMissing(q), q, c.lastSeq)
  {
    Accounting(ps, n, q);
    AcceptedMeans(ps, n, CursorAt(ps, n).value.epoch, q);
    MissingMeans(ps, n, CursorAt(ps, n).value.epoch, q);
  }

  /** A number once reported missing is never accepted in that epoch, before or after. */
  lemma {:induction false} MissingNeverAccepted(ps: seq<Packet>, n: nat, e: nat, q: nat)
    requires n <= |ps| && MissingIn(ps, n, e, q)
    ensures !AcceptedIn(ps, n, e, q)
    decreases n
  {
    var c := CursorAt(ps, n).value;
    if e == c.epoch {
      Accounting(ps, n, q);
    } else {
      if e > c.epoch { NothingAhead(ps, n, e, q); } else { MissingNeverAccepted(ps, n - 1, e, q); }
    }
  }

  // ---------------------------------------------------------------- runs over many sessions

  datatype Event = Arrive(key: Key, packet: Packet) | Forgotten(key: Key)

  function After(cursors: map<Key, Cursor>, e: Event): map<Key, Cursor> {
    match e
    case Arrive(k, p) => cursors[k := Admit(CursorOf(cursors, k), p.epoch, p.seqNo).0]
    case Forgotten(k) => cursors - {k}
  }

  function AfterAll(es: seq<Event>): map<Key, Cursor> {
    if es == [] then map[] else After(AfterAll(es[..|es| - 1]), es[|es| - 1])
  }

  /** The packets of `key` since it was last forgotten. */
  function Since(es: seq<Event>, key: Key): seq<Packet> {
    if es == [] then []
    else
      var e := es[|es| - 1];
      if e.key != key then Since(es[..|es| - 1], key)
      else if e.Forgotten? then []
      else Since(es[..|es| - 1], key) + [e.packet]
  }

  lemma {:induction false} CursorAtPrefix(ps: seq<Packet>, p: Packet, i: nat)
    requires i <= |ps|
    ensures CursorAt(ps + [p], i) == CursorAt(ps, i)
    decreases i
  {
    if i > 0 { CursorAtPrefix(ps, p, i - 1); }
  }

  /** Sessions do not interfere: a session's cursor is that of its own packets since it was last
      forgotten, whatever other sessions do in between. */
  lemma {:induction false} SessionsIndependent(es: seq<Event>, key: Key)
    ensures CursorOf(AfterAll(es), key) == CursorAt(Since(es, key), |Since(es, key)|)
    decreases |es|
  {
    if es != [] {
      var front, e := es[..|es| - 1], es[|es| - 1];
      SessionsIndependent(front, key);
      if e.key == key && e.Arrive? { CursorAtPrefix(Since(front, key), e.packet, |Since(front, key)|); }
    }
  }
}
