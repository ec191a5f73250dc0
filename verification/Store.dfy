/** The speaker profile stores: the operations every store offers, the in-memory store and the
    SQLite store, and the proof that no caller can tell the two apart. */
module Store {
  import opened Wrappers
  import opened SpeakerIds

  type Key = (string, string)
  type Id = (string, string, string)

  datatype Profile<C> = Profile(
    tenant: string, session: string, speakerId: string, centroid: C,
    sampleCount: int, qualityEma: real, lastActiveMs: int, displayName: Option<string>)
  {
    function KeyOf(): Key { (tenant, session) }
    function IdOf(): Id { (tenant, session, speakerId) }
  }

  /** Profiles by primary key, and the next speaker number of each session that has one. */
  datatype State<C> = State(profiles: map<Id, Profile<C>>, nextIds: map<Key, nat>)

  // ---------------------------------------------------------------- operations on values

  datatype Op<C> =
    | Create(key: Key, centroid: C, quality: real, lastActiveMs: int)
    | Update(profile: Profile<C>)
    | Rename(key: Key, speakerId: string, displayName: Option<string>)
    | Delete(key: Key)
    | List(key: Key)

  datatype Output<C> =
    | Created(profile: Profile<C>)
    | Done
    | KeyError
    | Renamed(found: bool)
    | Listing(profiles: seq<Profile<C>>)

  function NextId<C>(st: State<C>, key: Key): nat {
    if key in st.nextIds then st.nextIds[key] else 1
  }

  function NewProfile<C>(key: Key, n: nat, centroid: C, quality: real, lastActiveMs: int): Profile<C> {
    Profile(key.0, key.1, SpeakerId(n), centroid, 1, quality, lastActiveMs, None)
  }

  /** The identifiers of a session. */
  function IdsOf<C>(profiles: map<Id, Profile<C>>, key: Key): (ids: set<string>)
    ensures forall s :: s in ids <==> (key.0, key.1, s) in profiles
  {
    set id | id in profiles && (id.0, id.1) == key :: id.2
  }

  ghost function ListOf<C>(profiles: map<Id, Profile<C>>, key: Key): (r: seq<Profile<C>>)
    ensures |r| == |InOrder(IdsOf(profiles, key))|
  {
    var ids := InOrder(IdsOf(profiles, key));
    seq(|ids|, i requires 0 <= i < |ids| =>
      assert ids[i] in ids;
      profiles[(key.0, key.1, ids[i])])
  }

  /** One operation: the new state and what the caller sees. */
  ghost function Apply<C>(st: State<C>, op: Op<C>): (State<C>, Output<C>) {
    match op
    case Create(key, centroid, quality, at) =>
      var n := NextId(st, key);
      var p := NewProfile(key, n, centroid, quality, at);
      (State(st.profiles[p.IdOf() := p], st.nextIds[key := n + 1]), Created(p))
    case Update(p) =>
      if p.IdOf() !in st.profiles then (st, KeyError) else (st.(profiles := st.profiles[p.IdOf() := p]), Done)
    case Rename(key, speakerId, name) =>
      var id := (key.0, key.1, speakerId);
      if id !in st.profiles then (st, Renamed(false))
      else (st.(profiles := st.profiles[id := st.profiles[id].(displayName := name)]), Renamed(true))
    case Delete(key) =>
      (State(map id | id in st.profiles && (id.0, id.1) != key :: st.profiles[id], st.nextIds - {key}), Done)
    case List(key) => (st, Listing(ListOf(st.profiles, key)))
  }

  /** Every profile stands under its own primary key. */
  ghost predicate Keyed<C>(st: State<C>) {
    forall id :: id in st.profiles ==> st.profiles[id].IdOf() == id
  }

  /** The listing is the session's profiles, each once, in identifier order. */
  ghost predicate Lists<C>(st: State<C>, key: Key, ps: seq<Profile<C>>) {
    && (forall i :: 0 <= i < |ps| ==> (ps[i].IdOf() in st.profiles && st.profiles[ps[i].IdOf()] == ps[i] && ps[i].KeyOf() == key))
    && (forall i, j :: 0 <= i < j < |ps| ==> (StrLe(ps[i].speakerId, ps[j].speakerId) && ps[i].speakerId != ps[j].speakerId))
    && (forall s :: s in IdsOf(st.profiles, key) ==> exists i :: 0 <= i < |ps| && ps[i].speakerId == s)
  }

  lemma ListingLists<C>(st: State<C>, key: Key)
    requires Keyed(st)
    ensures Lists(st, key, ListOf(st.profiles, key))
  {
    var ids := InOrder(IdsOf(st.profiles, key));
    var ps := ListOf(st.profiles, key);
    InOrderSorts(IdsOf(st.profiles, key));
    forall i | 0 <= i < |ps|
      ensures ps[i].IdOf() in st.profiles && st.profiles[ps[i].IdOf()] == ps[i]
      ensures ps[i].KeyOf() == key && ps[i].speakerId == ids[i]
    {
      assert ids[i] in ids;
      assert (key.0, key.1, ids[i]) in st.profiles;
    }
    forall s | s in IdsOf(st.profiles, key) ensures exists i :: 0 <= i < |ps| && ps[i].speakerId == s {
      assert s in ids;
      var i :| 0 <= i < |ids| && ids[i] == s;
      assert ps[i].speakerId == s;
    }
  }

  // ---------------------------------------------------------------- read after write

  /** `p` is among what `list_profiles` returns for the session. */
  ghost predicate Shown<C>(st: State<C>, key: Key, p: Profile<C>) { p in ListOf(st.profiles, key) }

  lemma ShownIff<C>(st: State<C>, key: Key, p: Profile<C>)
    requires Keyed(st)
    ensures Shown(st, key, p) <==> p.KeyOf() == key && p.IdOf() in st.profiles && st.profiles[p.IdOf()] == p
  {
    ListingLists(st, key);
    var ps := ListOf(st.profiles, key);
    if p in ps {
      var i :| 0 <= i < |ps| && ps[i] == p;
    }
    if p.KeyOf() == key && p.IdOf() in st.profiles && st.profiles[p.IdOf()] == p {
      assert p.speakerId in IdsOf(st.profiles, key);
      var i :| 0 <= i < |ps| && ps[i].speakerId == p.speakerId;
      assert ps[i] == p;
    }
  }

  /** A creation returns, and later listings show, a profile with the given centroid, quality and time, one
      sample, no name and the session's next number; all others are shown as before. */
  lemma ReadAfterCreate<C>(st: State<C>, key: Key, centroid: C, quality: real, at: int, k: Key, q: Profile<C>)
    requires Keyed(st)
    ensures var (t, out) := Apply(st, Create(key, centroid, quality, at));
            var n := if key in st.nextIds then st.nextIds[key] else 1;
            Keyed(t) && out.Created?
            && out.profile == Profile(key.0, key.1, SpeakerId(n), centroid, 1, quality, at, None)
            && (Shown(t, k, q) <==> (k == key && q == out.profile) || (Shown(st, k, q) && q.IdOf() != out.profile.IdOf()))
            && t.nextIds == st.nextIds[key := n + 1]
  {
    var t := Apply(st, Create(key, centroid, quality, at)).0;
    ShownIff(st, k, q);
    ShownIff(t, k, q);
  }

  /** An update of a profile that exists is shown in its place; of any other it raises and changes nothing. */
  lemma ReadAfterUpdate<C>(st: State<C>, p: Profile<C>, k: Key, q: Profile<C>)
    requires Keyed(st)
    ensures var (t, out) := Apply(st, Update(p));
            Keyed(t) && t.nextIds == st.nextIds
            && if exists prior: Profile<C> :: Shown(st, p.KeyOf(), prior) && prior.speakerId == p.speakerId
               then out == Done && (Shown(t, k, q) <==> (k == p.KeyOf() && q == p) || (Shown(st, k, q) && q.IdOf() != p.IdOf()))
               else out == KeyError && t == st
  {
    var t := Apply(st, Update(p)).0;
    ShownIff(st, k, q);
    ShownIff(t, k, q);
    ExistsIff(st, p.KeyOf(), p.speakerId);
  }

  lemma ExistsIff<C>(st: State<C>, key: Key, s: string)
    requires Keyed(st)
    ensures (exists p: Profile<C> :: Shown(st, key, p) && p.speakerId == s) <==> (key.0, key.1, s) in st.profiles
  {
    forall p: Profile<C> | Shown(st, key, p) && p.speakerId == s ensures (key.0, key.1, s) in st.profiles { ShownIff(st, key, p); }
    if (key.0, key.1, s) in st.profiles { ShownIff(st, key, st.profiles[(key.0, key.1, s)]); }
  }

  /** A rename of a speaker that exists is shown in its name and nowhere else; of any other it says so and
      changes nothing. */
  lemma ReadAfterRename<C>(st: State<C>, key: Key, s: string, name: Option<string>, k: Key, q: Profile<C>)
    requires Keyed(st)
    ensures var (t, out) := Apply(st, Rename(key, s, name));
            Keyed(t) && t.nextIds == st.nextIds
            && if exists p: Profile<C> :: Shown(st, key, p) && p.speakerId == s
               then out == Renamed(true)
                    && (Shown(t, k, q) <==> if q.IdOf() == (key.0, key.1, s)
                                            then exists p: Profile<C> :: Shown(st, k, p) && q == p.(displayName := name)
                                            else Shown(st, k, q))
               else out == Renamed(false) && t == st
  {
    var t := Apply(st, Rename(key, s, name)).0;
    ShownIff(st, k, q);
    ShownIff(t, k, q);
    ExistsIff(st, key, s);
    if q.IdOf() == (key.0, key.1, s) {
      forall p: Profile<C> | Shown(st, k, p) && q == p.(displayName := name) ensures Shown(t, k, q) { ShownIff(st, k, p); }
      if Shown(t, k, q) { ShownIff(st, k, st.profiles[q.IdOf()]); }
    }
  }

  /** A deleted session is shown empty and numbers its speakers from one again; others are untouched. */
  lemma ReadAfterDelete<C>(st: State<C>, key: Key, k: Key, q: Profile<C>)
    requires Keyed(st)
    ensures var (t, out) := Apply(st, Delete(key));
            Keyed(t) && out == Done && (Shown(t, k, q) <==> k != key && Shown(st, k, q))
            && key !in t.nextIds && (forall other :: other != key ==> (other in t.nextIds <==> other in st.nextIds))
            && forall other :: other in t.nextIds ==> t.nextIds[other] == st.nextIds[other]
  {
    var t := Apply(st, Delete(key)).0;
    ShownIff(st, k, q);
    ShownIff(t, k, q);
  }

  // ---------------------------------------------------------------- the in-memory store

  class InMemorySpeakerStore<C> {
    var profiles: map<Id, Profile<C>>
    var nextIds: map<Key, nat>

    ghost function Now(): State<C>
      reads this
    {
      State(profiles, nextIds)
    }

    constructor ()
      ensures Now() == State(map[], map[])
    {
      profiles, nextIds := map[], map[];
    }

    method ListProfiles(key: Key) returns (r: seq<Profile<C>>)
      ensures (Now(), Listing(r)) == Apply(Now(), List(key))
    {
      var all := profiles;
      var ids := Sort(IdsOf(all, key));
      r := seq(|ids|, i requires 0 <= i < |ids| =>
        assert ids[i] in ids;
        all[(key.0, key.1, ids[i])]);
      assert r == ListOf(profiles, key);
    }

    method CreateProfile(key: Key, centroid: C, quality: real, lastActiveMs: int) returns (p: Profile<C>)
      modifies this
      ensures (Now(), Created(p)) == Apply(old(Now()), Create(key, centroid, quality, lastActiveMs))
    {
      var nextId := if key in nextIds then nextIds[key] else 1;
      nextIds := nextIds[key := nextId + 1];
      p := Profile(key.0, key.1, SpeakerId(nextId), centroid, 1, quality, lastActiveMs, None);
      profiles := profiles[(key.0, key.1, p.speakerId) := p];
    }

    method UpdateProfile(p: Profile<C>) returns (ok: bool)
      modifies this
      ensures (Now(), if ok then Done else KeyError) == Apply(old(Now()), Update(p))
    {
      if p.IdOf() !in profiles { return false; }
      profiles := profiles[p.IdOf() := p];
      return true;
    }

    method RenameSpeaker(key: Key, speakerId: string, displayName: Option<string>) returns (found: bool)
      modifies this
      ensures (Now(), Renamed(found)) == Apply(old(Now()), Rename(key, speakerId, displayName))
    {
      var id := (key.0, key.1, speakerId);
      if id !in profiles { return false; }
      profiles := profiles[id := profiles[id].(displayName := displayName)];
      return true;
    }

    method DeleteSession(key: Key)
      modifies this
      ensures (Now(), Done) == Apply(old(Now()), Delete(key))
    {
      profiles := map id | id in profiles && (id.0, id.1) != key :: profiles[id];
      nextIds := nextIds - {key};
    }
  }

  // ---------------------------------------------------------------- identifiers

  function Touches<C>(op: Op<C>, key: Key): bool { op.Delete? && op.key == key }

  lemma NextIdGrows<C>(st: State<C>, op: Op<C>, key: Key)
    requires !Touches(op, key)
    ensures NextId(Apply(st, op).0, key) == NextId(st, key) + (if op.Create? && op.key == key then 1 else 0)
  {
  }

  ghost function StateAfter<C>(st: State<C>, ops: seq<Op<C>>): State<C>
    decreases |ops|
  {
    if ops == [] then st else StateAfter(Apply(st, ops[0]).0, ops[1..])
  }

  lemma {:induction false} NextIdNeverShrinks<C>(st: State<C>, ops: seq<Op<C>>, key: Key)
    requires forall i :: 0 <= i < |ops| ==> !Touches(ops[i], key)
    ensures NextId(StateAfter(st, ops), key) >= NextId(st, key)
    decreases |ops|
  {
    if ops != [] {
      NextIdGrows(st, ops[0], key);
      NextIdNeverShrinks(Apply(st, ops[0]).0, ops[1..], key);
    }
  }

  /** Identifiers are never reused: two creations in a session with no `delete_session` of it in
      between yield different identifiers, whatever happens meanwhile. */
  lemma IdsNeverReused<C>(st: State<C>, first: Op<C>, ops: seq<Op<C>>, second: Op<C>)
    requires first.Create? && second.Create? && first.key == second.key
    requires forall i :: 0 <= i < |ops| ==> !Touches(ops[i], first.key)
    ensures var s1 := Apply(st, first).0;
            Apply(st, first).1.profile.speakerId != Apply(StateAfter(s1, ops), second).1.profile.speakerId
  {
    var s1 := Apply(st, first).0;
    NextIdGrows(st, first, first.key);
    NextIdNeverShrinks(s1, ops, first.key);
    SuffixOfSpeakerId(NextId(st, first.key));
    SuffixOfSpeakerId(NextId(StateAfter(s1, ops), first.key));
  }
}
