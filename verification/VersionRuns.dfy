/** The store of individuals with its event queue: saves, the script on every event, and runs of saves. */
module VersionRuns {
  import opened Uris
  import opened Versions
  import opened VersionScript
  import opened Wrappers

  /**
   A write: the individual, its state before, whether it was written as of the type of versions, and the individual on whose
   event a script wrote it, if one did. The script reads the individual as it is by then.
   */
  datatype Event = Event(id: string, prev: Option<Record>, isVersion: bool, origin: Option<string>)

  /** The engine runs the script on the event: not on versions, and not on an individual for its own write to it. */
  predicate Passes(e: Event) {
    !e.isVersion && e.origin != Some(e.id)
  }

  /** The write to the previous version that a firing of the script makes. */
  function Touch(db: Store, id: string): Event
    requires id in db && db[id].previous.Some? && db[id].previous.value in db
  {
    var x := db[id].previous.value;
    Event(x, Some(db[x]), db[x].isVersion, Some(id))
  }

  /** All names that individuals have or links lead to. */
  function Known(db: Store): set<string> {
    db.Keys
    + (set w | w in db && db[w].actual.Some? :: db[w].actual.value)
    + (set w | w in db && db[w].previous.Some? :: db[w].previous.value)
    + (set w | w in db && db[w].next.Some? :: db[w].next.value)
  }

  lemma UnknownFresh(db: Store, v: string)
    requires v !in Known(db)
    ensures Fresh(db, v)
  {
  }

  // ----- events

  /** The events the script raises: of the version, of the previous version, of the document; where it fails, of the first. */
  function Raised(db: Store, id: string, prev: Option<Record>, v: string): seq<Event>
    requires id in db && v !in db
  {
    var db1 := WithVersion(db, id, prev, v);
    var typed, origin := db[id].isVersion, Some(id);
    [Event(v, None, true, origin)]
    + if Fails(db, id, v) then []
      else if db[id].previous.None? then [Event(id, Some(db1[id]), typed, origin)]
      else
        var x := db[id].previous.value;
        [Event(x, Some(db1[x]), db1[x].isVersion, origin), Event(id, Some(db1[x := db1[x].(next := Some(v))][id]), typed, origin)]
  }

  /** The event makes no version: the engine does not run the script, or the individual is a version. */
  predicate Settled(db: Store, e: Event) {
    e.id in db && (!Passes(e) || VersionLike(db, e.id))
  }

  /** The event makes a version now. */
  predicate Fires(db: Store, e: Event) {
    e.id in db && Passes(e) && MakesVersion(e.id, db[e.id], e.prev)
  }

  lemma SettledQuiet(db: Store, e: Event)
    requires Settled(db, e)
    ensures !Fires(db, e)
  {
  }

  lemma SettledStays(db: Store, e: Event, id: string, prev: Option<Record>, v: string)
    requires Settled(db, e) && id in db && !VersionLike(db, id) && Fresh(db, v)
    ensures Settled(Fired(db, id, prev, v), e)
  {
  }

  /** Of what a firing raises only the event of the previous version may fire, and does if that is no version. */
  lemma RaisedSettled(db: Store, id: string, prev: Option<Record>, v: string)
    requires id in db && !VersionLike(db, id) && Fresh(db, v)
    ensures var db', raised := Fired(db, id, prev, v), Raised(db, id, prev, v);
            && (forall k | 0 <= k < |raised| :: (k != 1 || !Triggers(db, id)) ==> Settled(db', raised[k]))
            && (Triggers(db, id) ==>
                |raised| > 1 && raised[1] == Touch(db, id) && Fires(db', raised[1]))
  {
    if !Fails(db, id, v) && db[id].previous.Some? {
      var db1, x := WithVersion(db, id, prev, v), db[id].previous.value;
      assert x in db && db1[x] == db[x];
    }
  }

  // ----- a measure: individuals that lead to something that could fire in turn

  ghost function Loose(db: Store): set<string> {
    set a | a in db && !VersionLike(db, a) && Triggers(db, a)
  }

  lemma LooseShrinks(db: Store, id: string, prev: Option<Record>, v: string)
    requires id in db && !VersionLike(db, id) && Fresh(db, v) && Triggers(db, id)
    ensures |Loose(Fired(db, id, prev, v))| < |Loose(db)|
  {
    var db' := Fired(db, id, prev, v);
    forall a | a in Loose(db') ensures a in Loose(db) && a != id {
    }
    SmallerSet(Loose(db'), Loose(db), id);
  }

  lemma SmallerSet(a: set<string>, b: set<string>, x: string)
    requires a <= b && x in b && x !in a
    ensures |a| < |b|
  {
    assert b == a + (b - a);
    assert x in b - a;
  }

  // ----- firing after firing

  /** Store and next event to fire after the versions have been made. */
  function Reached(db: Store, e: Event, made: seq<string>): (Store, Option<Event>) {
    if made == [] then (db, Some(e))
    else
      var (s, next) := Reached(db, e, made[..|made| - 1]);
      if next.None? || next.value.id !in s then (s, None)
      else
        var id, v := next.value.id, made[|made| - 1];
        (Fired(s, id, next.value.prev, v),
         if Triggers(s, id) then Some(Touch(s, id)) else None)
  }

  /** Every version was fresh when it was made, and each time there was something to fire. */
  ghost predicate FreshAll(db: Store, e: Event, made: seq<string>) {
    forall k | 0 <= k < |made| :: FreshAt(db, e, made, k)
  }

  ghost predicate FreshAt(db: Store, e: Event, made: seq<string>, k: nat)
    requires k < |made|
  {
    var (s, next) := Reached(db, e, made[..k]);
    next.Some? && next.value.id in s && Fresh(s, made[k])
  }

  lemma {:induction false} ReachedHead(db: Store, e: Event, v: string, rest: seq<string>)
    requires e.id in db && Triggers(db, e.id)
    ensures Reached(db, e, [v] + rest)
      == Reached(Fired(db, e.id, e.prev, v), Touch(db, e.id), rest)
    decreases |rest|
  {
    var made := [v] + rest;
    if rest == [] {
      assert made[..|made| - 1] == [];
      assert Reached(db, e, []) == (db, Some(e));
    } else {
      assert made[..|made| - 1] == [v] + rest[..|rest| - 1];
      ReachedHead(db, e, v, rest[..|rest| - 1]);
      hide Fired;
      hide Triggers;
    }
  }

  lemma FreshTail(db: Store, e: Event, v: string, rest: seq<string>)
    requires e.id in db && Triggers(db, e.id) && FreshAll(db, e, [v] + rest)
    ensures FreshAll(Fired(db, e.id, e.prev, v), Touch(db, e.id), rest)
    ensures Fresh(db, v)
  {
    var made := [v] + rest;
    assert FreshAt(db, e, made, 0) && made[..0] == [];
    forall k | 0 <= k < |rest| ensures FreshAt(Fired(db, e.id, e.prev, v), Touch(db, e.id), rest, k) {
      assert FreshAt(db, e, made, k + 1);
      assert made[..k + 1] == [v] + rest[..k];
      ReachedHead(db, e, v, rest[..k]);
    }
  }

  /** Once nothing is left to fire, the versions made are those of the cascade, and so is the store. */
  lemma {:induction false} ReachedIsCascade(db: Store, e: Event, made: seq<string>)
    requires e.id in db && made != [] && FreshAll(db, e, made) && Reached(db, e, made).1 == None
    ensures Made(db, e.id, e.prev, made) && Reached(db, e, made).0 == Cascade(db, e.id, e.prev, made)
    decreases |made|
  {
    var v, rest := made[0], made[1..];
    assert made == [v] + rest;
    assert FreshAt(db, e, made, 0) && made[..0] == [];
    if Triggers(db, e.id) {
      TriggeredSame(db, e.id, e.prev, v);
      ReachedHead(db, e, v, rest);
      FreshTail(db, e, v, rest);
      if rest != [] {
        ReachedIsCascade(Fired(db, e.id, e.prev, v), Touch(db, e.id), rest);
      }
    } else {
      OneFiring(db, e, v, rest);
    }
    hide Fired;
    hide Fresh;
  }

  lemma OneFiring(db: Store, e: Event, v: string, rest: seq<string>)
    requires e.id in db && !Triggers(db, e.id) && FreshAll(db, e, [v] + rest)
    ensures rest == [] && Reached(db, e, [v]) == (Fired(db, e.id, e.prev, v), None)
  {
    assert [v][..0] == [] && Reached(db, e, []) == (db, Some(e));
    if rest != [] {
      NothingToFire(db, e, v, rest);
      assert false;
    }
  }

  lemma NothingToFire(db: Store, e: Event, v: string, rest: seq<string>)
    requires e.id in db && !Triggers(db, e.id) && rest != []
    ensures !FreshAll(db, e, [v] + rest)
  {
    assert [v][..0] == [] && Reached(db, e, []) == (db, Some(e));
    assert ([v] + rest)[..1] == [v];
    assert !FreshAt(db, e, [v] + rest, 1);
  }

  lemma ReachedMore(db: Store, e: Event, made: seq<string>, v: string)
    requires var (s, next) := Reached(db, e, made); next.Some? && next.value.id in s && Fresh(s, v)
    requires FreshAll(db, e, made)
    ensures var (s, next) := Reached(db, e, made);
            Reached(db, e, made + [v])
            == (Fired(s, next.value.id, next.value.prev, v),
                if Triggers(s, next.value.id) then Some(Touch(s, next.value.id)) else None)
    ensures FreshAll(db, e, made + [v])
  {
    var more := made + [v];
    assert more[..|more| - 1] == made;
    forall k | 0 <= k < |more| ensures FreshAt(db, e, more, k) {
      assert more[..k] == made[..k] || k == |made|;
      if k < |made| {
        assert FreshAt(db, e, made, k);
      }
      assert made[..|made|] == made;
    }
    hide Fired;
    hide Fresh;
  }

  // ----- the store

  class VersionStore {
    var db: Store
    var queue: seq<Event>
    /** Which version was given which document's rights. */
    var memberships: set<(string, string)>
    ghost var chains: Chains

    /** Between external saves: all links are in place and no event is waiting. */
    ghost predicate Valid()
      reads this
    {
      WellLinked(db, chains) && queue == []
    }

    constructor ()
      ensures Valid() && db == map[] && chains == map[]
    {
      db, queue, memberships, chains := map[], [], {}, map[];
    }

    /** Storing an individual raises an event with its state before. */
    method PutIndividual(id: string, record: Record, origin: Option<string>)
      modifies this`db, this`queue
      ensures db == old(db)[id := record]
      ensures queue
        == old(queue) + [Event(id, if id in old(db) then Some(old(db)[id]) else None, record.isVersion, origin)]
    {
      var prev := if id in db then Some(db[id]) else None;
      db := db[id := record];
      queue := queue + [Event(id, prev, record.isVersion, origin)];
    }

    /** One event: the script, if the engine runs it. */
    method CreateVersion(e: Event) returns (ghost v: string)
      requires e.id in db
      modifies this`db, this`queue, this`memberships
      ensures !Fires(old(db), e) ==> db == old(db) && queue == old(queue) && memberships == old(memberships)
      ensures Fires(old(db), e) ==>
        && Fresh(old(db), v) && db == Fired(old(db), e.id, e.prev, v)
        && queue == old(queue) + Raised(old(db), e.id, e.prev, v)
        && memberships == old(memberships) + {(v, e.id)}
    {
      hide Known;
      hide Fresh;
      v := "";
      var document := db[e.id];
      if Passes(e) && MakesVersion(e.id, document, e.prev) {
        ghost var db0, queue0 := db, queue;
        var prevState := if e.prev.Some? then e.prev.value else document;
        var versionId := GenUri(Known(db));
        v := versionId;
        UnknownFresh(db, versionId);
        var version := document.(
          previous := prevState.previous, actual := Some(e.id), next := Some(e.id), isVersion := true);
        PutIndividual(versionId, version, Some(e.id));
        memberships := memberships + {(versionId, e.id)};
        ghost var db1 := db;
        assert db1 == WithVersion(db0, e.id, e.prev, v) && queue == queue0 + [Event(v, None, true, Some(e.id))];
        if document.previous.Some? {
          var x := document.previous.value;
          if x !in db {
            assert queue0 + [Event(v, None, true, Some(e.id))] == queue0 + Raised(db0, e.id, e.prev, v);
            return;
          }
          PutIndividual(x, db[x].(next := Some(versionId)), Some(e.id));
        }
        document := document.(previous := Some(versionId), actual := Some(e.id), next := None);
        PutIndividual(e.id, document, Some(e.id));
        assert queue == queue0 + Raised(db0, e.id, e.prev, v);
      }
    }

    /**
     All waiting events run, on a store with whatever links: each of them may make a version, and its own writes may trigger
     the script again; but only one at a time, and it ends.
     */
    method Drain() returns (ghost made: seq<string>)
      requires |queue| == 1 && queue[0].id in db
      modifies this`db, this`queue, this`memberships
      ensures queue == []
      ensures var e := old(queue)[0];
              if Fires(old(db), e) then Made(old(db), e.id, e.prev, made) && db == Cascade(old(db), e.id, e.prev, made)
              else made == [] && db == old(db)
    {
      ghost var db0, first := db, queue[0];
      made := [];
      if !Fires(db, queue[0]) {
        var e := queue[0];
        queue := queue[1..];
        ghost var _ := CreateVersion(e);
        return;
      }
      ghost var hot: Option<nat> := Some(0);
      assert Reached(db0, first, []) == (db0, Some(first));
      while queue != []
        invariant FreshAll(db0, first, made)
        invariant Waits(db, queue, hot)
        invariant Reached(db0, first, made) == (db, if hot.Some? then Some(queue[hot.value]) else None)
        invariant hot.None? ==> made != []
        decreases if hot.Some? then 1 + |Loose(db)| else 0, |queue|
      {
        ghost var db1, queue1, hot1 := db, queue, hot;
        var e := queue[0];
        queue := queue[1..];
        ghost var v := CreateVersion(e);
        if hot1 == Some(0) {
          ReachedMore(db0, first, made, v);
          made := made + [v];
          hot := HotAfter(db1, queue1, v);
        } else {
          WaitsOn(db1, queue1, hot1);
          hot := if hot1.Some? then Some(hot1.value - 1) else None;
        }
      }
      ReachedIsCascade(db0, first, made);
    }

    /** Any save, with whatever links: the chains are there in the end if and only if the save keeps the links. */
    method Save(id: string, r: Record) returns (ghost made: seq<string>)
      requires Valid()
      modifies this
      ensures queue == [] && Saved(old(db), id, r, made, db)
      ensures (exists chains' :: WellLinked(db, chains')) <==> Keeps(old(db), id, r)
      ensures Keeps(old(db), id, r) ==> Valid()
      ensures Proper(old(db), id, r) ==>
        chains == if VersionLike(old(db), id) then old(chains) else Grown(old(chains), id, made[0])
      ensures Proper(old(db), id, r) && !VersionLike(old(db), id) ==> OneVersion(old(db), id, r, made, db)
    {
      ghost var db0 := db;
      PutIndividual(id, r, None);
      assert queue == [Event(id, Before(db0, id), r.isVersion, None)];
      made := Drain();
      KeepsIff(db0, chains, id, r, made, db);
      if Proper(db0, id, r) {
        if VersionLike(db0, id) {
          ContentChanges(db0, chains, id, r);
        } else {
          ProperFires(db0, chains, id, r, made, db);
          ProperContents(db0, chains, id, r, made[0]);
          chains := Grown(chains, id, made[0]);
        }
      } else if Keeps(db0, id, r) {
        ghost var chains' :| WellLinked(db, chains');
        chains := chains';
      }
    }

    /** A run of proper saves: the links stay in place, and each document gains one version per save of it. */
    method Run(saves: seq<(string, Record)>) returns (n: nat)
      requires Valid()
      modifies this
      ensures Valid() && n <= |saves| && (n < |saves| ==> !Proper(db, saves[n].0, saves[n].1))
      ensures forall d :: (forall d' :: !IsVersionOf(chains, d', d)) ==>
                |ChainOf(chains, d)| == |ChainOf(old(chains), d)| + SavesOf(saves[..n], d)
    {
      hide WellLinked;
      hide Proper;
      hide AlsoVersions;
      hide Saved;
      hide OneVersion;
      n := 0;
      assert saves[..0] == [];
      while n < |saves| && Proper(db, saves[n].0, saves[n].1)
        invariant Valid() && n <= |saves|
        invariant Counted(old(chains), saves[..n], chains)
      {
        var id := saves[n].0;
        ghost var before, db0 := chains, db;
        NoVersionIff(db, chains, id);
        ghost var made := Save(id, saves[n].1);
        CountedMore(old(chains), saves, n, before, if VersionLike(db0, id) then None else Some(made[0]));
        n := n + 1;
      }
    }
  }

  /** So many versions more as there were saves, of everything that is no version. */
  ghost predicate Counted(chains: Chains, saves: seq<(string, Record)>, chains': Chains) {
    forall d :: (forall d' :: !IsVersionOf(chains', d', d)) ==>
      |ChainOf(chains', d)| == |ChainOf(chains, d)| + SavesOf(saves, d)
  }

  lemma CountedMore(chains: Chains, saves: seq<(string, Record)>, n: nat, before: Chains, v: Option<string>)
    requires n < |saves| && Counted(chains, saves[..n], before)
    requires v.None? ==> exists d :: IsVersionOf(before, d, saves[n].0)
    ensures Counted(chains, saves[..n + 1], if v.Some? then Grown(before, saves[n].0, v.value) else before)
  {
    var id := saves[n].0;
    assert saves[..n + 1][..n] == saves[..n];
    var after := if v.Some? then Grown(before, id, v.value) else before;
    forall d | forall d' :: !IsVersionOf(after, d', d)
      ensures |ChainOf(after, d)| == |ChainOf(chains, d)| + SavesOf(saves[..n + 1], d)
    {
      if v.Some? {
        GrownBy(before, id, v.value);
      }
      assert forall d' :: IsVersionOf(before, d', d) ==> IsVersionOf(after, d', d);
    }
  }

  /** One version more, with the saved content; all other contents stay. */
  predicate OneVersion(db: Store, id: string, r: Record, made: seq<string>, db': Store) {
    && |made| == 1 && made[0] !in db && made[0] in db' && db'[made[0]].content == r.content
    && id in db' && db'[id].content == r.content
    && db'.Keys == db.Keys + {id, made[0]}
    && forall w :: w in db && w != id ==> db'[w].content == db[w].content
  }

  lemma ProperContents(db: Store, chains: Chains, id: string, r: Record, v: string)
    requires WellLinked(db, chains) && !VersionLike(db, id) && Proper(db, id, r) && Fresh(db[id := r], v)
    ensures OneVersion(db, id, r, [v], Fired(db[id := r], id, Before(db, id), v))
  {
    LinkedWhole(db, chains, id);
    hide WellLinked;
  }

  lemma GrownBy(chains: Chains, id: string, v: string)
    ensures var chains' := Grown(chains, id, v);
            && (forall d, w :: IsVersionOf(chains, d, w) ==> IsVersionOf(chains', d, w))
            && forall d :: |ChainOf(chains', d)| == |ChainOf(chains, d)| + if d == id then 1 else 0
  {
  }

  function SavesOf(saves: seq<(string, Record)>, id: string): nat {
    if saves == [] then 0
    else SavesOf(saves[..|saves| - 1], id) + if saves[|saves| - 1].0 == id then 1 else 0
  }

  /** At most one of the waiting events can fire, and it does when its turn comes. */
  ghost predicate Waits(db: Store, queue: seq<Event>, hot: Option<nat>) {
    && (hot.Some? ==> hot.value < |queue| && Fires(db, queue[hot.value]))
    && forall k | 0 <= k < |queue| :: hot != Some(k) ==> Settled(db, queue[k])
  }

  lemma WaitsOn(db: Store, queue: seq<Event>, hot: Option<nat>)
    requires queue != [] && Waits(db, queue, hot) && hot != Some(0)
    ensures !Fires(db, queue[0]) && Waits(db, queue[1..], if hot.Some? then Some(hot.value - 1) else None)
  {
    SettledQuiet(db, queue[0]);
  }

  lemma HotAfter(db: Store, queue: seq<Event>, v: string) returns (hot: Option<nat>)
    requires queue != [] && Waits(db, queue, Some(0)) && Fresh(db, v)
    ensures var e := queue[0];
            var db', queue' := Fired(db, e.id, e.prev, v), queue[1..] + Raised(db, e.id, e.prev, v);
            && Waits(db', queue', hot)
            && (hot.Some? <==> Triggers(db, e.id))
            && (hot.Some? ==> |Loose(db')| < |Loose(db)|
                              && queue'[hot.value] == Touch(db, e.id))
  {
    var e := queue[0];
    RaisedSettled(db, e.id, e.prev, v);
    forall k | 1 <= k < |queue| ensures Settled(Fired(db, e.id, e.prev, v), queue[k]) {
      SettledStays(db, queue[k], e.id, e.prev, v);
    }
    hot := None;
    if Triggers(db, e.id) {
      LooseShrinks(db, e.id, e.prev, v);
      hot := Some(|queue|);
    }
    hide Fired;
    hide Settled;
    hide Raised;
  }

  // ----- a save that drops the links

  /** A document and its one version. */
  const STORED: Store := map[
    "d" := Record(Some("d"), Some("d-1"), None, false, "old"),
    "d-1" := Record(Some("d"), None, Some("d"), true, "old")]

  /** Saved without its links, the document gets a version, but the version before it still leads to the document. */
  method DropLinks() returns (store: VersionStore, ghost made: seq<string>)
    ensures |made| == 1 && "d-1" in store.db && store.db["d-1"].next == Some("d")
    ensures made[0] in store.db && store.db[made[0]].previous == Some("d-1") && Broken(store.db)
  {
    store := new VersionStore();
    store.db, store.chains := STORED, map["d" := ["d-1"]];
    StoredLinked();
    var r := Record(None, None, None, false, "new");
    made := store.Save("d", r);
    assert MakesVersion("d", r, Before(STORED, "d")) && !Triggers(STORED["d" := r], "d");
    assert !Keeps(STORED, "d", r);
  }

  lemma StoredLinked()
    ensures WellLinked(STORED, map["d" := ["d-1"]])
  {
    var chains: Chains := map["d" := ["d-1"]];
    assert "d" != "d-1";
    assert forall d, v :: IsVersionOf(chains, d, v) <==> d == "d" && v == "d-1";
    assert IsVersionOf(chains, "d", "d-1");
  }
}
