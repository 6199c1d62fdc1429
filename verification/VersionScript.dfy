/**
 The versioning script: what it writes, which of its own writes trigger it again, and which saves it leaves well linked.
 A save may give any values to the link fields.
 */
module VersionScript {
  import opened Versions
  import opened Wrappers

  // ----- the script on one event

  /** The individual is one version of another, as far as its actual version says. */
  predicate VersionLike(db: Store, id: string) {
    id in db && db[id].actual.Some? && db[id].actual.value != id
  }

  /** The condition under which a save makes a version. */
  predicate MakesVersion(id: string, document: Record, prev: Option<Record>) {
    || document.actual.None?
    || (&& document.actual.value == id
        && (|| (document.previous.None? && (prev.None? || prev.value.previous.None?))
            || (&& prev.Some? && document.previous.Some? && prev.value.previous.Some?
                && document.previous.value == prev.value.previous.value)))
  }

  /** The script runs on the event of a save unless what was saved is of the type of versions. */
  predicate GetsVersion(id: string, r: Record, prev: Option<Record>) {
    !r.isVersion && MakesVersion(id, r, prev)
  }

  /** The version is a copy of the document, linked to the previous version of the state before. */
  function NewVersionOf(document: Record, prev: Option<Record>, id: string): Record {
    document.(previous := if prev.Some? then prev.value.previous else document.previous, actual := Some(id), next := Some(id),
              isVersion := true)
  }

  function NewDocument(document: Record, id: string, v: string): Record {
    document.(previous := Some(v), actual := Some(id), next := None)
  }

  /** The version is stored. */
  function WithVersion(db: Store, id: string, prev: Option<Record>, v: string): Store
    requires id in db
  {
    db[v := NewVersionOf(db[id], prev, id)]
  }

  /** The script fails where the document names a previous version that is not stored. */
  predicate Fails(db: Store, id: string, v: string)
    requires id in db
  {
    db[id].previous.Some? && db[id].previous.value !in db.Keys + {v}
  }

  /** All the script writes: the version, the next version of the previous one, the document; or what it writes until it fails. */
  function Fired(db: Store, id: string, prev: Option<Record>, v: string): Store
    requires id in db
  {
    var db1 := WithVersion(db, id, prev, v);
    if db[id].previous.None? then db1[id := NewDocument(db[id], id, v)]
    else if Fails(db, id, v) then db1
    else
      var x := db[id].previous.value;
      db1[x := db1[x].(next := Some(v))][id := NewDocument(db[id], id, v)]
  }

  // ----- what its own writes trigger

  /**
   Of its own writes only that to the previous version can make a version, and only if that is none itself: the new version is
   of the type of versions, and the script does not run on a document for what it has written to the same document.
   */
  predicate Triggers(db: Store, id: string)
    requires id in db
  {
    && db[id].previous.Some? && db[id].previous.value in db && db[id].previous.value != id
    && !VersionLike(db, db[id].previous.value) && !db[db[id].previous.value].isVersion
  }

  /** The store once all events have run: `made` are the versions made, one for each time the script fires. */
  function Cascade(db: Store, id: string, prev: Option<Record>, made: seq<string>): Store
    requires id in db
    decreases |made|
  {
    if made == [] then db
    else
      var db' := Fired(db, id, prev, made[0]);
      if Triggers(db, id) && db[id].previous.value in db' then
        Cascade(db', db[id].previous.value, Some(db[db[id].previous.value]), made[1..])
      else db'
  }

  // ----- what well linked means for one record and its neighbours

  function DocumentOf(db: Store, w: string): string
    requires w in db
  {
    if VersionLike(db, w) then db[w].actual.value else w
  }

  ghost predicate Whole(db: Store, w: string) {
    w in db ==>
      && (db[w].actual.None? ==> db[w].previous.None?)
      && (db[w].actual == Some(w) ==> db[w].previous.Some? && db[w].next.None?)
      && (db[w].previous.Some? ==> Preceded(db, w, db[w].previous.value))
      && (VersionLike(db, w) ==> Followed(db, w))
      && (db[w].isVersion ==> VersionLike(db, w))
  }

  /** What comes before a record is a version of the same document that names the record as the next one. */
  predicate Preceded(db: Store, w: string, q: string)
    requires w in db
  {
    q in db && VersionLike(db, q) && db[q].next == Some(w) && db[q].actual == Some(DocumentOf(db, w))
  }

  /** What comes after a version is another record that names the version as the previous one. */
  predicate Followed(db: Store, w: string)
    requires VersionLike(db, w)
  {
    && db[w].actual.value in db && db[db[w].actual.value].actual == db[w].actual && db[w].isVersion
    && db[w].next.Some? && db[w].next.value != w && db[w].next.value in db
    && db[db[w].next.value].previous == Some(w)
  }

  lemma LinkedWhole(db: Store, chains: Chains, w: string)
    requires WellLinked(db, chains)
    ensures Whole(db, w)
  {
    if w in db {
      if w in chains {
        assert DocumentLinked(db, w, chains[w]) && VersionLinked(db, w, chains[w], |chains[w]| - 1);
        assert IsVersionOf(chains, w, chains[w][|chains[w]| - 1]);
      } else if d :| IsVersionOf(chains, d, w) {
        var i :| 0 <= i < |chains[d]| && chains[d][i] == w;
        VersionWhole(db, chains, d, i);
      }
    }
  }

  lemma VersionWhole(db: Store, chains: Chains, d: string, i: nat)
    requires WellLinked(db, chains) && d in chains && i < |chains[d]|
    ensures Whole(db, chains[d][i])
  {
    var chain := chains[d];
    var w := chain[i];
    assert VersionLinked(db, d, chain, i) && DocumentLinked(db, d, chain) && IsVersionOf(chains, d, w);
    if i > 0 {
      assert VersionLinked(db, d, chain, i - 1) && IsVersionOf(chains, d, chain[i - 1]);
    }
    if i < |chain| - 1 {
      assert VersionLinked(db, d, chain, i + 1) && chain[i] != chain[i + 1];
    }
    hide WellLinked;
  }

  /** No chains can be read off the store. */
  ghost predicate Broken(db: Store) {
    forall chains :: !WellLinked(db, chains)
  }

  lemma NotLinked(db: Store, w: string)
    requires !Whole(db, w)
    ensures Broken(db)
  {
    forall chains ensures !WellLinked(db, chains) {
      if WellLinked(db, chains) {
        LinkedWhole(db, chains, w);
      }
    }
  }

  // ----- the versions made on the way are fresh

  /** The name is that of no individual, and no link leads to it. */
  ghost predicate Fresh(db: Store, v: string) {
    && v !in db
    && forall w :: w in db ==> db[w].actual != Some(v) && db[w].previous != Some(v) && db[w].next != Some(v)
  }

  ghost predicate Made(db: Store, id: string, prev: Option<Record>, made: seq<string>)
    requires id in db
    decreases |made|
  {
    && made != [] && Fresh(db, made[0])
    && var db' := Fired(db, id, prev, made[0]);
       if Triggers(db, id) && db[id].previous.value in db' then
         Made(db', db[id].previous.value, Some(db[db[id].previous.value]), made[1..])
       else |made| == 1
  }

  // ----- two faults that the script never repairs

  /** A version names a previous version that does not name it as the next one. */
  ghost predicate LostNext(db: Store, w: string, q: string) {
    VersionLike(db, w) && db[w].previous == Some(q) && (q in db ==> db[q].next != Some(w))
  }

  /** Something names an individual as its previous version that is none. */
  ghost predicate NoVersionBefore(db: Store, w: string, q: string) {
    w in db && q in db && db[w].previous == Some(q) && !VersionLike(db, q)
  }

  lemma FaultsNotLinked(db: Store, w: string, q: string)
    requires LostNext(db, w, q) || NoVersionBefore(db, w, q)
    ensures Broken(db)
  {
    assert !Whole(db, w);
    NotLinked(db, w);
  }

  lemma FiredKeepsLostNext(db: Store, id: string, prev: Option<Record>, v: string, w: string, q: string)
    requires id in db && !VersionLike(db, id) && Fresh(db, v) && LostNext(db, w, q)
    ensures LostNext(Fired(db, id, prev, v), w, q)
  {
  }

  /** The new version takes over the fault if it was the document that had it. */
  lemma FiredKeepsNoVersionBefore(db: Store, id: string, prev: Option<Record>, v: string, w: string, q: string)
    requires id in db && !VersionLike(db, id) && Fresh(db, v) && NoVersionBefore(db, w, q)
    requires prev.Some? && prev.value.previous == db[id].previous
    ensures var db' := Fired(db, id, prev, v); NoVersionBefore(db', w, q) || NoVersionBefore(db', v, q)
  {
  }

  lemma {:induction false} CascadeKeepsLostNext(
    db: Store, id: string, prev: Option<Record>, made: seq<string>, w: string, q: string)
    requires id in db && Made(db, id, prev, made) && !VersionLike(db, id) && LostNext(db, w, q)
    ensures LostNext(Cascade(db, id, prev, made), w, q)
    decreases |made|
  {
    FiredKeepsLostNext(db, id, prev, made[0], w, q);
    var db' := Fired(db, id, prev, made[0]);
    if Triggers(db, id) && db[id].previous.value in db' {
      var y := db[id].previous.value;
      TriggeredSame(db, id, prev, made[0]);
      hide Fired;
      CascadeKeepsLostNext(db', y, Some(db[y]), made[1..], w, q);
    }
  }

  lemma {:induction false} CascadeKeepsNoVersionBefore(
    db: Store, id: string, prev: Option<Record>, made: seq<string>, w: string, q: string)
    requires id in db && Made(db, id, prev, made) && !VersionLike(db, id) && NoVersionBefore(db, w, q)
    requires prev.Some? && prev.value.previous == db[id].previous
    ensures exists w' :: NoVersionBefore(Cascade(db, id, prev, made), w', q)
    decreases |made|
  {
    FiredKeepsNoVersionBefore(db, id, prev, made[0], w, q);
    var db' := Fired(db, id, prev, made[0]);
    var w' := if NoVersionBefore(db', w, q) then w else made[0];
    if Triggers(db, id) && db[id].previous.value in db' {
      var y := db[id].previous.value;
      TriggeredSame(db, id, prev, made[0]);
      hide Fired;
      CascadeKeepsNoVersionBefore(db', y, Some(db[y]), made[1..], w', q);
      assert Cascade(db, id, prev, made) == Cascade(db', y, Some(db[y]), made[1..]);
      hide Cascade;
    } else {
      assert NoVersionBefore(Cascade(db, id, prev, made), w', q);
    }
  }

  /** What is triggered finds its links as they were before. */
  lemma TriggeredSame(db: Store, id: string, prev: Option<Record>, v: string)
    requires id in db && Fresh(db, v) && Triggers(db, id)
    ensures var y, db' := db[id].previous.value, Fired(db, id, prev, v);
            y in db && y in db' && y != id && !VersionLike(db', y) && db'[y] == db[y].(next := Some(v))
  {
  }

  // ----- which saves leave the chains linked

  function StoredPrevious(db: Store, id: string): Option<string> {
    if id in db then db[id].previous else None
  }

  function Before(db: Store, id: string): Option<Record> {
    if id in db then Some(db[id]) else None
  }

  /** The links of a version as stored; of anything else the stored previous version, and no other actual version. */
  predicate Proper(db: Store, id: string, r: Record) {
    if VersionLike(db, id) then r == db[id].(content := r.content)
    else (r.actual == None || r.actual == Some(id)) && r.previous == StoredPrevious(db, id) && !r.isVersion
  }

  /** An individual without versions may also name any stored individual that is no version: that gets a version as well. */
  predicate AlsoVersions(db: Store, id: string, r: Record) {
    && id in db && db[id].actual.None? && r.actual.None? && !r.isVersion
    && r.previous.Some? && r.previous.value in db && !VersionLike(db, r.previous.value)
  }

  predicate Keeps(db: Store, id: string, r: Record) {
    Proper(db, id, r) || AlsoVersions(db, id, r)
  }

  /** What a save comes to once all events have run. */
  ghost predicate Saved(db: Store, id: string, r: Record, made: seq<string>, db': Store) {
    var stored := db[id := r];
    if GetsVersion(id, r, Before(db, id)) then
      Made(stored, id, Before(db, id), made) && db' == Cascade(stored, id, Before(db, id), made)
    else made == [] && db' == stored
  }

  /** The first firing, and what may follow. */
  lemma FirstFiring(db: Store, id: string, r: Record, made: seq<string>, db': Store)
    requires Saved(db, id, r, made, db') && GetsVersion(id, r, Before(db, id))
    ensures var stored, prev := db[id := r], Before(db, id);
            && made != [] && Fresh(stored, made[0]) && Fresh(db[id := r], made[0])
            && (!Triggers(stored, id) ==> db' == Fired(stored, id, prev, made[0]) && |made| == 1)
            && (Triggers(stored, id) ==>
                var y := r.previous.value;
                && y in Fired(stored, id, prev, made[0]) && y in stored && y != id
                && Made(Fired(stored, id, prev, made[0]), y, Some(stored[y]), made[1..])
                && db' == Cascade(Fired(stored, id, prev, made[0]), y, Some(stored[y]), made[1..]))
  {
    var stored := db[id := r];
    if Triggers(stored, id) {
      TriggeredSame(stored, id, Before(db, id), made[0]);
    }
    hide Fired;
  }

  /** A fault after the first firing is there at the end. */
  lemma LostNextRemains(db: Store, id: string, r: Record, made: seq<string>, db': Store, w: string, q: string)
    requires Saved(db, id, r, made, db') && GetsVersion(id, r, Before(db, id))
    requires made != [] && LostNext(Fired(db[id := r], id, Before(db, id), made[0]), w, q)
    ensures Broken(db')
  {
    var stored := db[id := r];
    FirstFiring(db, id, r, made, db');
    if Triggers(stored, id) {
      TriggeredSame(stored, id, Before(db, id), made[0]);
      hide Fired;
      CascadeKeepsLostNext(Fired(stored, id, Before(db, id), made[0]), r.previous.value, Some(stored[r.previous.value]),
                           made[1..], w, q);
    }
    FaultsNotLinked(db', w, q);
  }

  lemma NoVersionBeforeRemains(db: Store, id: string, r: Record, made: seq<string>, db': Store, w: string, q: string)
    requires Saved(db, id, r, made, db') && GetsVersion(id, r, Before(db, id))
    requires made != [] && NoVersionBefore(Fired(db[id := r], id, Before(db, id), made[0]), w, q)
    ensures Broken(db')
  {
    var stored := db[id := r];
    var w' := w;
    FirstFiring(db, id, r, made, db');
    if Triggers(stored, id) {
      TriggeredSame(stored, id, Before(db, id), made[0]);
      hide Fired;
      CascadeKeepsNoVersionBefore(Fired(stored, id, Before(db, id), made[0]), r.previous.value,
                                  Some(stored[r.previous.value]), made[1..], w, q);
      w' :| NoVersionBefore(db', w', q);
    }
    FaultsNotLinked(db', w', q);
  }

  // ----- saves that do not keep the links

  /** A document or something new, saved as if it were a version. */
  lemma SavedAsVersion(db: Store, chains: Chains, id: string, r: Record)
    requires WellLinked(db, chains) && !VersionLike(db, id) && r.actual.Some? && r.actual.value != id
    ensures Broken(db[id := r])
  {
    var db' := db[id := r];
    LinkedWhole(db, chains, id);
    if id in db && db[id].previous.Some? {
      var last := db[id].previous.value;
      LinkedWhole(db, chains, last);
      assert !Whole(db', last);
      NotLinked(db', last);
    } else {
      if r.next.Some? && r.next.value in db {
        LinkedWhole(db, chains, r.next.value);
      }
      assert !Whole(db', id);
      NotLinked(db', id);
    }
  }

  /** Its own actual version, but another previous version than stored: no version is made, and the document stays wrong. */
  lemma WrongPrevious(db: Store, chains: Chains, id: string, r: Record)
    requires WellLinked(db, chains) && !VersionLike(db, id) && r.actual == Some(id) && r.previous != StoredPrevious(db, id)
    ensures !MakesVersion(id, r, Before(db, id)) && Broken(db[id := r])
  {
    var db' := db[id := r];
    if r.previous.Some? && r.previous.value in db {
      LinkedWhole(db, chains, r.previous.value);
    }
    assert !Whole(db', id);
    NotLinked(db', id);
  }

  /** No actual version, and not the previous version that is stored: a version is made, but the one before does not lead to it. */
  lemma LinksDropped(db: Store, chains: Chains, id: string, r: Record, made: seq<string>, db': Store)
    requires WellLinked(db, chains) && Saved(db, id, r, made, db')
    requires id in db && !VersionLike(db, id) && db[id].previous.Some?
    requires r.actual.None? && !r.isVersion && r.previous != db[id].previous
    ensures Broken(db')
  {
    var last := db[id].previous.value;
    LinkedWhole(db, chains, id);
    FirstFiring(db, id, r, made, db');
    if Fails(db[id := r], id, made[0]) {
      StopsShort(db, id, r, made, db');
    } else {
      assert LostNext(Fired(db[id := r], id, Before(db, id), made[0]), made[0], last);
      LostNextRemains(db, id, r, made, db', made[0], last);
    }
  }

  /** The script fails: the document has a previous version, and no actual one. */
  lemma StopsShort(db: Store, id: string, r: Record, made: seq<string>, db': Store)
    requires Saved(db, id, r, made, db') && r.actual.None? && !r.isVersion && made != [] && Fails(db[id := r], id, made[0])
    ensures Broken(db')
  {
    FirstFiring(db, id, r, made, db');
    assert !Whole(db', id);
    NotLinked(db', id);
  }

  /** Something without versions, saved with a previous version: it is a version of something else. */
  lemma OtherVersionTaken(db: Store, chains: Chains, id: string, r: Record, made: seq<string>, db': Store)
    requires WellLinked(db, chains) && Saved(db, id, r, made, db')
    requires !VersionLike(db, id) && StoredPrevious(db, id).None? && r.actual.None? && r.previous.Some? && !r.isVersion
    requires !AlsoVersions(db, id, r)
    ensures Broken(db')
  {
    var x, stored := r.previous.value, db[id := r];
    LinkedWhole(db, chains, id);
    LinkedWhole(db, chains, x);
    FirstFiring(db, id, r, made, db');
    var v, first := made[0], Fired(stored, id, Before(db, id), made[0]);
    if Fails(stored, id, v) {
      StopsShort(db, id, r, made, db');
    } else if VersionLike(db, x) {
      var w := if id in db then x else v;
      assert db' == first;
      assert !Whole(db', w);
      NotLinked(db', w);
    } else {
      assert id !in db;
      assert NoVersionBefore(first, v, x);
      NoVersionBeforeRemains(db, id, r, made, db', v, x);
    }
  }

  /** What comes after a version names it as the previous one; saved as a document, the version is none any more. */
  lemma FollowerLeft(db: Store, id: string, r: Record, v: string)
    requires VersionLike(db, id) && Followed(db, id) && (r.actual.None? || r.actual.value == id)
    ensures var stored, n := db[id := r], db[id].next.value; n != id && NoVersionBefore(stored, n, id)
    ensures Fresh(db[id := r], v) ==> NoVersionBefore(Fired(db[id := r], id, Before(db, id), v), db[id].next.value, id)
  {
  }

  /** A version saved as a document of its own: what comes after it has no version before it any more. */
  lemma SavedAsDocument(db: Store, chains: Chains, id: string, r: Record, made: seq<string>, db': Store)
    requires WellLinked(db, chains) && Saved(db, id, r, made, db')
    requires VersionLike(db, id) && (r.actual.None? || r.actual.value == id)
    ensures Broken(db')
  {
    LinkedWhole(db, chains, id);
    FollowerLeft(db, id, r, if made == [] then "" else made[0]);
    hide Fired;
    hide Cascade;
    hide WellLinked;
    hide Fresh;
    hide NoVersionBefore;
    hide Triggers;
    hide Broken;
    var n := db[id].next.value;
    if GetsVersion(id, r, Before(db, id)) {
      FirstFiring(db, id, r, made, db');
      hide Saved;
      NoVersionBeforeRemains(db, id, r, made, db', n, id);
    } else {
      FaultsNotLinked(db', n, id);
    }
  }

  /** A version saved as a version: all its links have to be as stored. */
  lemma VersionLinksChanged(db: Store, chains: Chains, id: string, r: Record)
    requires WellLinked(db, chains) && VersionLike(db, id) && r.actual.Some? && r.actual.value != id
    requires r != db[id].(content := r.content)
    ensures !MakesVersion(id, r, Before(db, id)) && Broken(db[id := r])
  {
    var db' := db[id := r];
    LinkedWhole(db, chains, id);
    var n := db[id].next.value;
    LinkedWhole(db, chains, n);
    if r.actual != db[id].actual || r.next != Some(n) {
      assert !Whole(db', n);
      NotLinked(db', n);
    } else if !r.isVersion {
      assert !Whole(db', id);
      NotLinked(db', id);
    } else if db[id].previous.Some? {
      var q := db[id].previous.value;
      LinkedWhole(db, chains, q);
      assert !Whole(db', q);
      NotLinked(db', q);
    } else {
      if r.previous.Some? && r.previous.value in db {
        LinkedWhole(db, chains, r.previous.value);
      }
      assert !Whole(db', id);
      NotLinked(db', id);
    }
  }

  // ----- saves that keep the links

  /** The store as the script will find it, but with the links of the document as they were. */
  function Based(db: Store, id: string, r: Record): Store {
    db[id := if id in db then db[id].(content := r.content) else r.(actual := None, previous := None, isVersion := false)]
  }

  lemma BasedLinked(db: Store, chains: Chains, id: string, r: Record)
    requires WellLinked(db, chains)
    ensures WellLinked(Based(db, id, r), chains)
  {
    ContentChanges(db, chains, id, Based(db, id, r)[id]);
  }

  lemma NoVersionIff(db: Store, chains: Chains, id: string)
    requires WellLinked(db, chains)
    ensures VersionLike(db, id) <==> exists d :: IsVersionOf(chains, d, id)
    ensures id in chains <==> id in db && db[id].actual == Some(id)
    ensures !VersionLike(db, id) ==> StoredPrevious(db, id) == At(ChainOf(chains, id), |ChainOf(chains, id)| - 1)
  {
    assert id in chains ==> DocumentLinked(db, id, chains[id]);
    if d :| IsVersionOf(chains, d, id) {
      VersionStored(db, chains, d, id);
    }
  }

  /** The chains once a version of the document has been made. */
  function Grown(chains: Chains, id: string, v: string): Chains {
    chains[id := ChainOf(chains, id) + [v]]
  }

  /** A proper save of a document: one version at the end of its chain, and nothing more is triggered. */
  lemma ProperFires(db: Store, chains: Chains, id: string, r: Record, made: seq<string>, db': Store)
    requires WellLinked(db, chains) && Saved(db, id, r, made, db') && !VersionLike(db, id) && Proper(db, id, r)
    ensures GetsVersion(id, r, Before(db, id)) && |made| == 1 && Fresh(db[id := r], made[0])
    ensures db' == Fired(db[id := r], id, Before(db, id), made[0])
    ensures WellLinked(db', Grown(chains, id, made[0]))
  {
    NoVersionIff(db, chains, id);
    LinkedWhole(db, chains, id);
    FirstFiring(db, id, r, made, db');
    ProperLinkable(db, chains, id, r, made[0]);
    ProperWrites(db, chains, id, r, made[0]);
    Linking(Based(db, id, r), chains, id, made[0], NewVersionOf(r, Before(db, id), id), NewDocument(r, id, made[0]));
    hide WellLinked;
    hide Fired;
    hide Based;
  }

  lemma ProperLinkable(db: Store, chains: Chains, id: string, r: Record, v: string)
    requires WellLinked(db, chains) && !VersionLike(db, id) && Proper(db, id, r) && Fresh(db[id := r], v)
    ensures Linkable(Based(db, id, r), chains, id, v, NewVersionOf(r, Before(db, id), id), NewDocument(r, id, v))
  {
    NoVersionIff(db, chains, id);
    BasedLinked(db, chains, id, r);
    hide WellLinked;
    hide IsVersionOf;
  }

  lemma ProperWrites(db: Store, chains: Chains, id: string, r: Record, v: string)
    requires WellLinked(db, chains) && !VersionLike(db, id) && Proper(db, id, r) && Fresh(db[id := r], v)
    ensures Fired(db[id := r], id, Before(db, id), v)
      == Linked(Based(db, id, r), id, ChainOf(chains, id), v, NewVersionOf(r, Before(db, id), id), NewDocument(r, id, v))
  {
    NoVersionIff(db, chains, id);
    LinkedWhole(db, chains, id);
    hide WellLinked;
  }

  /** The other way: an individual without versions names another that is no version. Both get one. */
  lemma AlsoVersionsFires(db: Store, chains: Chains, id: string, r: Record, made: seq<string>, db': Store)
    requires WellLinked(db, chains) && Saved(db, id, r, made, db') && !VersionLike(db, id) && AlsoVersions(db, id, r)
    ensures exists chains' :: WellLinked(db', chains')
  {
    var x, stored := r.previous.value, db[id := r];
    var v := made[0];
    FirstFiring(db, id, r, made, db');
    NoVersionIff(db, chains, id);
    LinkedWhole(db, chains, id);
    LinkedWhole(db, chains, x);
    var r0 := r.(previous := None);
    assert Proper(db, id, r0);
    NarrowerFresh(db, id, r, r0, v);
    ProperLinkable(db, chains, id, r0, v);
    ProperWrites(db, chains, id, r0, v);
    var first, chains1 := Fired(db[id := r0], id, Before(db, id), v), Grown(chains, id, v);
    Linking(Based(db, id, r0), chains, id, v, NewVersionOf(r0, Before(db, id), id), NewDocument(r0, id, v));
    assert WellLinked(first, chains1);
    if x == id {
      assert db' == first;
    } else {
      SecondFiring(db, chains1, id, r, made, db', first);
    }
  }

  lemma NarrowerFresh(db: Store, id: string, r: Record, r0: Record, v: string)
    requires Fresh(db[id := r], v) && r0 == r.(previous := None)
    ensures Fresh(db[id := r0], v)
  {
    var wide, narrow := db[id := r], db[id := r0];
    forall w | w in narrow
      ensures narrow[w].actual != Some(v) && narrow[w].previous != Some(v) && narrow[w].next != Some(v)
    {
      assert w in wide;
    }
  }

  /** The store is as after the firing without the wrong link, but for the next version of what is named; that is set right. */
  lemma SecondFiring(
    db: Store, chains1: Chains, id: string, r: Record, made: seq<string>, db': Store, first: Store)
    requires Saved(db, id, r, made, db') && !VersionLike(db, id) && AlsoVersions(db, id, r) && r.previous != Some(id)
    requires db[id].previous.None? && !db[r.previous.value].isVersion && made != [] && GetsVersion(id, r, Before(db, id))
    requires first == Fired(db[id := r.(previous := None)], id, Before(db, id), made[0]) && WellLinked(first, chains1)
    ensures exists chains' :: WellLinked(db', chains')
  {
    var x, v, stored := r.previous.value, made[0], db[id := r];
    FirstFiring(db, id, r, made, db');
    SecondWrites(db, id, r, Before(db, id), v);
    hide *;
    TouchedFires(first, chains1, x, v, made[1..], db');
  }

  lemma SecondWrites(db: Store, id: string, r: Record, prev: Option<Record>, v: string)
    requires AlsoVersions(db, id, r) && r.previous != Some(id) && Fresh(db[id := r], v)
    requires prev == Some(db[id]) && db[id].previous.None? && !db[r.previous.value].isVersion
    ensures var x, stored, first := r.previous.value, db[id := r], Fired(db[id := r.(previous := None)], id, prev, v);
            && Triggers(stored, id) && x in first && stored[x] == first[x] && !VersionLike(first, x)
            && Fired(stored, id, prev, v) == first[x := first[x].(next := Some(v))]
  {
    var x, stored, first := r.previous.value, db[id := r], Fired(db[id := r.(previous := None)], id, prev, v);
    assert stored[x] == first[x] == db[x];
    assert NewVersionOf(r, prev, id) == NewVersionOf(r.(previous := None), prev, id);
  }

  /** An individual that is no version, with only its next version touched, gets a version, and its chain is right again. */
  lemma TouchedFires(db: Store, chains: Chains, x: string, v: string, made: seq<string>, db': Store)
    requires WellLinked(db, chains) && x in db && !VersionLike(db, x)
    requires var touched := db[x := db[x].(next := Some(v))];
             Made(touched, x, Some(db[x]), made) && db' == Cascade(touched, x, Some(db[x]), made)
    ensures exists chains' :: WellLinked(db', chains')
  {
    var r := db[x].(next := Some(v));
    var touched := db[x := r];
    LinkedWhole(db, chains, x);
    assert Before(db, x) == Some(db[x]) && Proper(db, x, r);
    NoVersionIff(db, chains, x);
    assert GetsVersion(x, r, Before(db, x));
    assert Saved(db, x, r, made, db');
    ProperFires(db, chains, x, r, made, db');
  }

  /**
   Whatever links a save gives, and however its own writes trigger the script again: in the end the chains can be read off
   the store if and only if the save keeps the links.
   */
  lemma KeepsIff(db: Store, chains: Chains, id: string, r: Record, made: seq<string>, db': Store)
    requires WellLinked(db, chains) && Saved(db, id, r, made, db')
    ensures (exists chains' :: WellLinked(db', chains')) <==> Keeps(db, id, r)
  {
    if VersionLike(db, id) {
      VersionCase(db, chains, id, r, made, db');
    } else {
      DocumentCase(db, chains, id, r, made, db');
    }
  }

  lemma VersionCase(db: Store, chains: Chains, id: string, r: Record, made: seq<string>, db': Store)
    requires WellLinked(db, chains) && Saved(db, id, r, made, db') && VersionLike(db, id)
    ensures (exists chains' :: WellLinked(db', chains')) <==> Keeps(db, id, r)
  {
    if Proper(db, id, r) {
      ContentChanges(db, chains, id, r);
    } else if r.actual.None? || r.actual.value == id {
      SavedAsDocument(db, chains, id, r, made, db');
    } else {
      VersionLinksChanged(db, chains, id, r);
    }
    hide WellLinked;
    hide Cascade;
  }

  lemma DocumentCase(db: Store, chains: Chains, id: string, r: Record, made: seq<string>, db': Store)
    requires WellLinked(db, chains) && Saved(db, id, r, made, db') && !VersionLike(db, id)
    ensures (exists chains' :: WellLinked(db', chains')) <==> Keeps(db, id, r)
  {
    LinkedWhole(db, chains, id);
    if Proper(db, id, r) {
      ProperFires(db, chains, id, r, made, db');
    } else if r.actual.Some? && r.actual.value != id {
      SavedAsVersion(db, chains, id, r);
    } else if r.isVersion {
      NotLinked(db', id);
    } else if r.actual.Some? {
      WrongPrevious(db, chains, id, r);
    } else if StoredPrevious(db, id).Some? {
      LinksDropped(db, chains, id, r, made, db');
    } else if AlsoVersions(db, id, r) {
      AlsoVersionsFires(db, chains, id, r, made, db');
    } else {
      OtherVersionTaken(db, chains, id, r, made, db');
    }
    hide WellLinked;
    hide Cascade;
    hide Made;
    hide Fired;
  }
}
