/** The SQLite speaker store: rows with the centroid as a blob, a counter row per session, and its
    equivalence with the operations of module Store. */
module SqliteStore {
  import opened Bytes
  import opened Wrappers
  import opened SpeakerIds
  import opened Store

  type Vector = seq<Word>

  datatype Row = Row(
    blob: seq<Byte>, dimension: nat, sampleCount: int, qualityEma: real, lastActiveMs: int,
    displayName: Option<string>)
  {
    predicate Valid() { |blob| == 4 * dimension }
  }

  /** The two tables. */
  datatype Db = Db(rows: map<Id, Row>, counters: map<Key, nat>)

  function ToRow(p: Profile<Vector>): (row: Row)
    ensures row.Valid()
  {
    Row(EncodeWords(p.centroid), |p.centroid|, p.sampleCount, p.qualityEma, p.lastActiveMs, p.displayName)
  }

  function ToProfile(id: Id, row: Row): Profile<Vector>
    requires row.Valid()
  {
    Profile(id.0, id.1, id.2, DecodeWords(row.blob), row.sampleCount, row.qualityEma, row.lastActiveMs, row.displayName)
  }

  lemma RowRoundTrip(p: Profile<Vector>)
    ensures ToProfile(p.IdOf(), ToRow(p)) == p
  {
    DecodeEncodeWords(p.centroid);
  }

  // ---------------------------------------------------------------- allocation

  function InSession(id: Id, key: Key): bool { (id.0, id.1) == key }

  /** The numbers found at the end of a session's identifiers. */
  function Numbers(rows: map<Id, Row>, key: Key): (ns: set<nat>)
    ensures forall id :: id in rows && InSession(id, key) && Suffix(id.2).Some? ==> Suffix(id.2).value in ns
    ensures forall n :: n in ns ==> exists id :: id in rows && InSession(id, key) && Suffix(id.2) == Some(n)
  {
    set id | id in rows && InSession(id, key) && Suffix(id.2).Some? :: Suffix(id.2).value
  }

  /** `max(ns, default=0)` */
  ghost function MaxOr0(ns: set<nat>): (m: nat)
    ensures forall n :: n in ns ==> n <= m
    ensures m == 0 || m in ns
  {
    if ns == {} then 0
    else
      var n :| n in ns;
      assert ns == (ns - {n}) + {n};
      var m := MaxOr0(ns - {n});
      if n >= m then n else m
  }

  ghost function Allocate(db: Db, key: Key): nat {
    if key in db.counters then db.counters[key] else MaxOr0(Numbers(db.rows, key)) + 1
  }

  /** A counter, where there is one, is above every number in use. */
  ghost predicate CounterSound(db: Db, key: Key) {
    key in db.counters ==> forall n :: n in Numbers(db.rows, key) ==> n < db.counters[key]
  }

  /** The identifier allocated next collides with no row, even when the counter row is missing. */
  lemma AllocationNeverCollides(db: Db, key: Key)
    requires CounterSound(db, key)
    ensures (key.0, key.1, SpeakerId(Allocate(db, key))) !in db.rows
  {
    var n := Allocate(db, key);
    var id := (key.0, key.1, SpeakerId(n));
    SuffixOfSpeakerId(n);
    assert InSession(id, key);
    assert n !in Numbers(db.rows, key);
  }

  // ---------------------------------------------------------------- the tables under operations

  datatype SqlOutput = Plain(output: Output<Vector>) | IntegrityError

  /** `create_profile`: one transaction, rolled back when the insert violates the primary key. */
  ghost function Insert(db: Db, key: Key, centroid: Vector, quality: real, at: int): (Db, SqlOutput) {
    var n := Allocate(db, key);
    var p := NewProfile(key, n, centroid, quality, at);
    if p.IdOf() in db.rows then (db, IntegrityError)
    else (Db(db.rows[p.IdOf() := ToRow(p)], db.counters[key := n + 1]), Plain(Created(p)))
  }

  ghost function Select(db: Db, key: Key): (r: seq<Profile<Vector>>)
    requires RowsValid(db)
  {
    ListOf(Profiles(db), key)
  }

  ghost predicate RowsValid(db: Db) { forall id :: id in db.rows ==> db.rows[id].Valid() }

  ghost function Profiles(db: Db): map<Id, Profile<Vector>>
    requires RowsValid(db)
  {
    map id | id in db.rows :: ToProfile(id, db.rows[id])
  }

  ghost function Execute(db: Db, op: Op<Vector>): (Db, SqlOutput)
    requires RowsValid(db)
  {
    match op
    case Create(key, centroid, quality, at) => Insert(db, key, centroid, quality, at)
    case Update(p) =>
      if p.IdOf() !in db.rows then (db, Plain(KeyError))
      else (db.(rows := db.rows[p.IdOf() := ToRow(p)]), Plain(Done))
    case Rename(key, speakerId, name) =>
      var id := (key.0, key.1, speakerId);
      if id !in db.rows then (db, Plain(Renamed(false)))
      else (db.(rows := db.rows[id := db.rows[id].(displayName := name)]), Plain(Renamed(true)))
    case Delete(key) =>
      (Db(map id | id in db.rows && !InSession(id, key) :: db.rows[id], db.counters - {key}), Plain(Done))
    case List(key) => (db, Plain(Listing(Select(db, key))))
  }

  // ---------------------------------------------------------------- equivalence

  /** What every database holds that these operations built: valid rows, a sound counter for every
      session with rows. */
  ghost predicate Sound(db: Db) {
    && RowsValid(db)
    && (forall id :: id in db.rows ==> (id.0, id.1) in db.counters)
    && (forall key :: CounterSound(db, key))
  }

  /** The store state a database stands for. */
  ghost function View(db: Db): State<Vector>
    requires RowsValid(db)
  {
    State(Profiles(db), db.counters)
  }

  lemma AllocateIsNext(db: Db, key: Key)
    requires Sound(db)
    ensures Allocate(db, key) == NextId(View(db), key)
  {
    if key !in db.counters {
      assert Numbers(db.rows, key) == {};
    }
  }

  lemma InsertSound(db: Db, key: Key, p: Profile<Vector>, n: nat)
    requires Sound(db) && n == Allocate(db, key) && p.IdOf() == (key.0, key.1, SpeakerId(n))
    ensures Sound(Db(db.rows[p.IdOf() := ToRow(p)], db.counters[key := n + 1]))
  {
    var t := Db(db.rows[p.IdOf() := ToRow(p)], db.counters[key := n + 1]);
    SuffixOfSpeakerId(n);
    forall k ensures CounterSound(t, k) {
      if k in t.counters {
        forall m | m in Numbers(t.rows, k) ensures m < t.counters[k] {
          var id :| id in t.rows && InSession(id, k) && Suffix(id.2) == Some(m);
          if id != p.IdOf() { assert m in Numbers(db.rows, k) && CounterSound(db, k); }
        }
      }
    }
  }

  lemma ReplaceSound(db: Db, id: Id, row: Row)
    requires Sound(db) && id in db.rows && row.Valid()
    ensures Sound(db.(rows := db.rows[id := row]))
  {
    var t := db.(rows := db.rows[id := row]);
    forall k ensures CounterSound(t, k) {
      assert CounterSound(db, k);
      assert Numbers(t.rows, k) == Numbers(db.rows, k);
    }
  }

  lemma DeleteSound(db: Db, key: Key)
    requires Sound(db)
    ensures Sound(Execute(db, Delete(key)).0)
  {
    var t := Execute(db, Delete(key)).0;
    forall k ensures CounterSound(t, k) {
      assert CounterSound(db, k);
      assert Numbers(t.rows, k) <= Numbers(db.rows, k);
    }
  }

  /** `Execute` on the tables does what `Apply` does on the state they stand for. */
  ghost predicate Simulates(db: Db, op: Op<Vector>)
    requires RowsValid(db)
  {
    var (t, out) := Execute(db, op);
    Sound(t) && out.Plain? && (View(t), out.output) == Apply(View(db), op)
  }

  lemma InsertIsApply(db: Db, key: Key, centroid: Vector, quality: real, at: int)
    requires Sound(db)
    ensures Simulates(db, Create(key, centroid, quality, at))
  {
    var n := Allocate(db, key);
    var p := NewProfile(key, n, centroid, quality, at);
    assert CounterSound(db, key);
    AllocationNeverCollides(db, key);
    AllocateIsNext(db, key);
    InsertSound(db, key, p, n);
    ReplacedView(db, p);
  }

  /** Writing a profile's row writes the profile. */
  lemma ReplacedView(db: Db, p: Profile<Vector>)
    requires RowsValid(db)
    ensures RowsValid(db.(rows := db.rows[p.IdOf() := ToRow(p)]))
    ensures Profiles(db.(rows := db.rows[p.IdOf() := ToRow(p)])) == Profiles(db)[p.IdOf() := p]
  {
    RowRoundTrip(p);
  }

  lemma UpdateIsApply(db: Db, p: Profile<Vector>)
    requires Sound(db)
    ensures Simulates(db, Update(p))
  {
    if p.IdOf() in db.rows {
      ReplaceSound(db, p.IdOf(), ToRow(p));
      ReplacedView(db, p);
    }
  }

  lemma RenameIsApply(db: Db, key: Key, speakerId: string, name: Option<string>)
    requires Sound(db)
    ensures Simulates(db, Rename(key, speakerId, name))
  {
    var id := (key.0, key.1, speakerId);
    if id in db.rows {
      var row := db.rows[id].(displayName := name);
      ReplaceSound(db, id, row);
      assert Profiles(db.(rows := db.rows[id := row])) == Profiles(db)[id := Profiles(db)[id].(displayName := name)];
    }
  }

  lemma DeleteIsApply(db: Db, key: Key)
    requires Sound(db)
    ensures Simulates(db, Delete(key))
  {
    DeleteSound(db, key);
    var t := Execute(db, Delete(key)).0;
    assert Profiles(t) == map id | id in Profiles(db) && (id.0, id.1) != key :: Profiles(db)[id];
  }

  /** One operation on the tables is the same operation on what they stand for, output included. */
  lemma ExecuteIsApply(db: Db, op: Op<Vector>)
    requires Sound(db)
    ensures Simulates(db, op)
  {
    match op
    case Create(key, centroid, quality, at) => InsertIsApply(db, key, centroid, quality, at);
    case Update(p) => UpdateIsApply(db, p);
    case Rename(key, speakerId, name) => RenameIsApply(db, key, speakerId, name);
    case Delete(key) => DeleteIsApply(db, key);
    case List(key) =>
  }

  /** A use of the SQLite store: an operation, or closing it and opening it again, which runs
      `CREATE TABLE IF NOT EXISTS` over the tables already there. */
  datatype Use = Do(op: Op<Vector>) | Reopen

  ghost function SqlOutputs(db: Db, us: seq<Use>): seq<SqlOutput>
    requires Sound(db)
    decreases |us|
  {
    if us == [] then []
    else if us[0].Reopen? then SqlOutputs(db, us[1..])
    else
      ExecuteIsApply(db, us[0].op);
      var (t, out) := Execute(db, us[0].op);
      [out] + SqlOutputs(t, us[1..])
  }

  /** The outputs of the same operations on the in-memory store. */
  ghost function MemoryOutputs(st: State<Vector>, us: seq<Use>): seq<SqlOutput>
    decreases |us|
  {
    if us == [] then []
    else if us[0].Reopen? then MemoryOutputs(st, us[1..])
    else var (t, out) := Apply(st, us[0].op); [Plain(out)] + MemoryOutputs(t, us[1..])
  }

  lemma {:induction false} SameOutputs(db: Db, us: seq<Use>)
    requires Sound(db)
    ensures SqlOutputs(db, us) == MemoryOutputs(View(db), us)
    decreases |us|
  {
    if us != [] {
      if us[0].Reopen? {
        SameOutputs(db, us[1..]);
      } else {
        ExecuteIsApply(db, us[0].op);
        SameOutputs(Execute(db, us[0].op).0, us[1..]);
      }
    }
  }

  /** Observational equivalence: from empty stores, over every sequence of operations and with the
      SQLite store closed and reopened at any points, callers see the same outputs. */
  lemma StoresEquivalent(us: seq<Use>)
    ensures Sound(Db(map[], map[]))
    ensures SqlOutputs(Db(map[], map[]), us) == MemoryOutputs(State(map[], map[]), us)
  {
    var db := Db(map[], map[]);
    forall key ensures CounterSound(db, key) {}
    assert View(db) == State(map[], map[]);
    SameOutputs(db, us);
  }

  // ---------------------------------------------------------------- the object

  class SQLiteSpeakerStore {
    var rows: map<Id, Row>
    var counters: map<Key, nat>

    ghost function Tables(): Db
      reads this
    {
      Db(rows, counters)
    }

    constructor (rows: map<Id, Row>, counters: map<Key, nat>)
      ensures Tables() == Db(rows, counters)
    {
      this.rows, this.counters := rows, counters;
    }

    method ListProfiles(key: Key) returns (r: seq<Profile<Vector>>)
      requires RowsValid(Tables())
      ensures (Tables(), Plain(Listing(r))) == Execute(Tables(), List(key))
    {
      var table := rows;
      var ids := Sort(set id | id in table && InSession(id, key) :: id.2);
      assert (set id | id in table && InSession(id, key) :: id.2) == IdsOf(Profiles(Tables()), key);
      r := seq(|ids|, i requires 0 <= i < |ids| =>
        assert ids[i] in ids;
        ToProfile((key.0, key.1, ids[i]), table[(key.0, key.1, ids[i])]));
      assert r == Select(Tables(), key);
    }

    method CreateProfile(key: Key, centroid: Vector, quality: real, lastActiveMs: int) returns (out: SqlOutput)
      modifies this
      ensures (Tables(), out) == Insert(old(Tables()), key, centroid, quality, lastActiveMs)
    {
      var nextId := NextNumber(rows, counters, key);
      var p := NewProfile(key, nextId, centroid, quality, lastActiveMs);
      if p.IdOf() in rows { return IntegrityError; }
      counters := counters[key := nextId + 1];
      rows := rows[p.IdOf() := ToRow(p)];
      return Plain(Created(p));
    }

    method UpdateProfile(p: Profile<Vector>) returns (out: SqlOutput)
      requires RowsValid(Tables())
      modifies this
      ensures (Tables(), out) == Execute(old(Tables()), Update(p))
    {
      if p.IdOf() !in rows { return Plain(KeyError); }
      rows := rows[p.IdOf() := ToRow(p)];
      return Plain(Done);
    }

    method RenameSpeaker(key: Key, speakerId: string, displayName: Option<string>) returns (out: SqlOutput)
      requires RowsValid(Tables())
      modifies this
      ensures (Tables(), out) == Execute(old(Tables()), Rename(key, speakerId, displayName))
    {
      var id := (key.0, key.1, speakerId);
      if id !in rows { return Plain(Renamed(false)); }
      rows := rows[id := rows[id].(displayName := displayName)];
      return Plain(Renamed(true));
    }

    method DeleteSession(key: Key)
      requires RowsValid(Tables())
      modifies this
      ensures (Tables(), Plain(Done)) == Execute(old(Tables()), Delete(key))
    {
      rows := map id | id in rows && !InSession(id, key) :: rows[id];
      counters := counters - {key};
    }
  }

  /** The session's counter, or one more than the largest number in use when the row is missing. */
  method NextNumber(rows: map<Id, Row>, counters: map<Key, nat>, key: Key) returns (n: nat)
    ensures n == Allocate(Db(rows, counters), key)
  {
    if key in counters { return counters[key]; }
    var most := MaxNumber(Numbers(rows, key));
    return most + 1;
  }

  method MaxNumber(ns: set<nat>) returns (m: nat)
    ensures m == MaxOr0(ns)
  {
    m := 0;
    var todo := ns;
    while todo != {}
      invariant todo <= ns && (m == 0 || m in ns)
      invariant forall n :: n in ns && n !in todo ==> n <= m
      decreases todo
    {
      var n :| n in todo;
      todo := todo - {n};
      if n > m { m := n; }
    }
    assert m <= MaxOr0(ns) && MaxOr0(ns) <= m;
  }
}
