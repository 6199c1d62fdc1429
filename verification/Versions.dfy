/** Versioned documents: every save makes a snapshot, linked into the chain of versions of the document. */
module Versions {
  import opened Wrappers

  /** The fields of a stored individual that versioning reads or writes, and all the rest as its content. */
  datatype Record = Record(
    actual: Option<string>, previous: Option<string>, next: Option<string>, isVersion: bool, content: string)

  type Store = map<string, Record>

  // ----- chains

  /** For each versioned document its versions, oldest first. Versions, and nothing else, are of the type of versions. */
  type Chains = map<string, seq<string>>

  function At(chain: seq<string>, i: int): Option<string> {
    if 0 <= i < |chain| then Some(chain[i]) else None
  }

  /** The document points to its newest version and to itself as the actual one. */
  ghost predicate DocumentLinked(db: Store, d: string, chain: seq<string>) {
    && d in db && chain != []
    && db[d].actual == Some(d) && db[d].previous == At(chain, |chain| - 1) && db[d].next == None && !db[d].isVersion
  }

  /** Each version points back to the one before, forward to the one after or the document, and to the document. */
  ghost predicate VersionLinked(db: Store, d: string, chain: seq<string>, i: nat)
    requires i < |chain|
  {
    && chain[i] in db && db[chain[i]].isVersion && db[chain[i]].actual == Some(d)
    && db[chain[i]].previous == At(chain, i - 1)
    && db[chain[i]].next == if i == |chain| - 1 then Some(d) else Some(chain[i + 1])
  }

  ghost predicate IsVersionOf(chains: Chains, d: string, v: string) {
    d in chains && v in chains[d]
  }

  ghost predicate WellLinked(db: Store, chains: Chains) {
    && (forall d :: d in chains ==> DocumentLinked(db, d, chains[d]))
    && (forall d, i :: d in chains && 0 <= i < |chains[d]| ==> VersionLinked(db, d, chains[d], i))
    && (forall d, i, j :: d in chains && 0 <= i < j < |chains[d]| ==> chains[d][i] != chains[d][j])
    && (forall d, v :: IsVersionOf(chains, d, v) ==> v !in chains)
    && (forall id :: id in db && id !in chains && (forall d :: !IsVersionOf(chains, d, id)) ==> Unlinked(db[id]))
  }

  predicate Unlinked(r: Record) {
    r.actual == None && r.previous == None && !r.isVersion
  }

  /** A version belongs to one document only. */
  lemma OneDocument(db: Store, chains: Chains, d: string, d': string, v: string)
    requires WellLinked(db, chains) && IsVersionOf(chains, d, v) && IsVersionOf(chains, d', v)
    ensures d == d'
  {
    var i :| 0 <= i < |chains[d]| && chains[d][i] == v;
    var j :| 0 <= j < |chains[d']| && chains[d'][j] == v;
    assert VersionLinked(db, d, chains[d], i) && VersionLinked(db, d', chains[d'], j);
  }

  // ----- walking the links

  /** Following the previous-version links from a record, at most n of them. */
  function Back(db: Store, from: Option<string>, n: nat): seq<string>
    decreases n
  {
    if n == 0 || from.None? || from.value !in db then []
    else [from.value] + Back(db, db[from.value].previous, n - 1)
  }

  function Forward(db: Store, from: Option<string>, n: nat): seq<string>
    decreases n
  {
    if n == 0 || from.None? || from.value !in db then []
    else [from.value] + Forward(db, db[from.value].next, n - 1)
  }

  function Reversed(s: seq<string>): seq<string> {
    if s == [] then [] else [s[|s| - 1]] + Reversed(s[..|s| - 1])
  }

  lemma {:induction false} BackFrom(db: Store, chains: Chains, d: string, i: nat, n: nat)
    requires WellLinked(db, chains) && d in chains && i < |chains[d]| && n > i
    ensures Back(db, Some(chains[d][i]), n) == Reversed(chains[d][..i + 1])
    decreases i
  {
    assert VersionLinked(db, d, chains[d], i);
    hide WellLinked;
    var prefix := chains[d][..i + 1];
    assert prefix[..i] == chains[d][..i] && prefix[i] == chains[d][i];
    if i > 0 {
      BackFrom(db, chains, d, i - 1, n - 1);
    }
  }

  /** From the document the links visit all its versions, newest first, and end. */
  lemma BackVisitsAll(db: Store, chains: Chains, d: string, n: nat)
    requires WellLinked(db, chains) && d in chains && n >= |chains[d]|
    ensures Back(db, db[d].previous, n) == Reversed(chains[d])
  {
    var k := |chains[d]|;
    assert DocumentLinked(db, d, chains[d]);
    BackFrom(db, chains, d, k - 1, n);
    assert chains[d][..k] == chains[d];
  }

  /** From any version the links forward visit the later versions, oldest first, and end with the document. */
  lemma {:induction false} ForwardVisitsAll(db: Store, chains: Chains, d: string, i: nat, n: nat)
    requires WellLinked(db, chains) && d in chains && i < |chains[d]| && n > |chains[d]| - i
    ensures Forward(db, Some(chains[d][i]), n) == chains[d][i..] + [d]
    decreases |chains[d]| - i
  {
    assert VersionLinked(db, d, chains[d], i) && DocumentLinked(db, d, chains[d]);
    hide WellLinked;
    TailOf(chains[d], i);
    ForwardStep(db, chains[d][i], n);
    ForwardStep(db, d, n - 1);
    hide Forward;
    hide VersionLinked;
    hide DocumentLinked;
    if i < |chains[d]| - 1 {
      ForwardVisitsAll(db, chains, d, i + 1, n - 1);
    }
  }

  lemma TailOf(s: seq<string>, i: nat)
    requires i < |s|
    ensures s[i..] == [s[i]] + s[i + 1..]
  {
  }

  lemma ForwardStep(db: Store, id: string, n: nat)
    requires id in db && n > 0
    ensures Forward(db, Some(id), n) == [id] + Forward(db, db[id].next, n - 1)
    ensures db[id].next == None ==> Forward(db, Some(id), n) == [id]
  {
  }

  // ----- one more version

  function ChainOf(chains: Chains, d: string): seq<string> {
    if d in chains then chains[d] else []
  }

  /** The new version points back to the newest one so far and forward to the document. */
  predicate NewVersion(r: Record, d: string, chain: seq<string>) {
    r.isVersion && r.actual == Some(d) && r.previous == At(chain, |chain| - 1) && r.next == Some(d)
  }

  predicate NewActual(r: Record, d: string, v: string) {
    r.actual == Some(d) && r.previous == Some(v) && r.next == None && !r.isVersion
  }

  /** The store once the version, the newest version so far and the document are written. */
  function Linked(db: Store, d: string, chain: seq<string>, v: string, version: Record, document: Record): Store {
    (if chain != [] && chain[|chain| - 1] in db then
       db[v := version][chain[|chain| - 1] := db[chain[|chain| - 1]].(next := Some(v))]
     else db[v := version])[d := document]
  }

  /** The situation in which a version is made: the document is in the store and is no version, the version is new. */
  ghost predicate Linkable(db: Store, chains: Chains, d: string, v: string, version: Record, document: Record) {
    && WellLinked(db, chains) && d in db && v !in db && (forall d' :: !IsVersionOf(chains, d', d))
    && NewVersion(version, d, ChainOf(chains, d)) && NewActual(document, d, v)
  }

  lemma OthersApart(db: Store, chains: Chains, d: string, v: string, version: Record, document: Record, d': string, i: nat)
    requires Linkable(db, chains, d, v, version, document) && d' in chains && i < |chains[d']|
    ensures var w, chain := chains[d'][i], ChainOf(chains, d);
            && w in db && w != d && w != v
            && (d' != d ==> w !in chain)
            && (d' == d && i < |chain| - 1 ==> w != chain[|chain| - 1])
            && VersionLinked(db, d', chains[d'], i)
  {
    assert VersionLinked(db, d', chains[d'], i);
    var w := chains[d'][i];
    assert IsVersionOf(chains, d', w);
    if d' != d && w in ChainOf(chains, d) {
      assert IsVersionOf(chains, d, w);
      OneDocument(db, chains, d, d', w);
    }
  }

  lemma LinkedVersions(db: Store, chains: Chains, d: string, v: string, version: Record, document: Record, d': string, i: nat)
    requires Linkable(db, chains, d, v, version, document)
    requires var chains' := chains[d := ChainOf(chains, d) + [v]]; d' in chains' && i < |chains'[d']|
    ensures var chains' := chains[d := ChainOf(chains, d) + [v]];
            VersionLinked(Linked(db, d, ChainOf(chains, d), v, version, document), d', chains'[d'], i)
  {
    var chain := ChainOf(chains, d);
    hide WellLinked;
    if d' != d || i < |chain| {
      OthersApart(db, chains, d, v, version, document, d', i);
    }
    if chain != [] {
      OthersApart(db, chains, d, v, version, document, d, |chain| - 1);
    }
  }

  lemma LinkedDocuments(db: Store, chains: Chains, d: string, v: string, version: Record, document: Record, d': string)
    requires Linkable(db, chains, d, v, version, document)
    requires d' == d || d' in chains
    ensures var chains' := chains[d := ChainOf(chains, d) + [v]];
            DocumentLinked(Linked(db, d, ChainOf(chains, d), v, version, document), d', chains'[d'])
  {
    var chain := ChainOf(chains, d);
    if d' != d {
      assert DocumentLinked(db, d', chains[d']);
      assert chain != [] ==> IsVersionOf(chains, d, chain[|chain| - 1]);
    }
  }

  lemma LinkedOthers(db: Store, chains: Chains, d: string, v: string, version: Record, document: Record, id: string)
    requires Linkable(db, chains, d, v, version, document)
    ensures var db', chains' := Linked(db, d, ChainOf(chains, d), v, version, document), chains[d := ChainOf(chains, d) + [v]];
            && (id in db' && id !in chains' && (forall d' :: !IsVersionOf(chains', d', id)) ==> Unlinked(db'[id]))
            && (forall d' :: IsVersionOf(chains', d', id) ==> id !in chains')
  {
    var chain := ChainOf(chains, d);
    var chains' := chains[d := chain + [v]];
    forall d' ensures IsVersionOf(chains', d', id) <==> IsVersionOf(chains, d', id) || (d' == d && id == v) {
    }
    assert id in chains ==> DocumentLinked(db, id, chains[id]);
    if chain != [] {
      assert IsVersionOf(chains', d, chain[|chain| - 1]) && IsVersionOf(chains, d, chain[|chain| - 1]);
    }
    assert IsVersionOf(chains', d, v);
    if id == d || id == v {
    } else if forall d' :: !IsVersionOf(chains', d', id) {
      assert forall d' :: !IsVersionOf(chains, d', id);
    }
  }

  /** Writing the three records puts the new version at the end of the chain, and keeps all chains well linked. */
  lemma Linking(db: Store, chains: Chains, d: string, v: string, version: Record, document: Record)
    requires Linkable(db, chains, d, v, version, document)
    ensures WellLinked(Linked(db, d, ChainOf(chains, d), v, version, document), chains[d := ChainOf(chains, d) + [v]])
  {
    var db', chains' := Linked(db, d, ChainOf(chains, d), v, version, document), chains[d := ChainOf(chains, d) + [v]];
    forall d' | d' in chains' ensures DocumentLinked(db', d', chains'[d']) {
      LinkedDocuments(db, chains, d, v, version, document, d');
    }
    forall d', i | d' in chains' && 0 <= i < |chains'[d']| ensures VersionLinked(db', d', chains'[d'], i) {
      LinkedVersions(db, chains, d, v, version, document, d', i);
    }
    forall d', i, j | d' in chains' && 0 <= i < j < |chains'[d']| ensures chains'[d'][i] != chains'[d'][j] {
      if d' != d || i < |ChainOf(chains, d)| {
        OthersApart(db, chains, d, v, version, document, d', i);
      }
    }
    forall d', w | IsVersionOf(chains', d', w) ensures w !in chains' {
      LinkedOthers(db, chains, d, v, version, document, w);
    }
    forall id | id in db' && id !in chains' && (forall d' :: !IsVersionOf(chains', d', id))
      ensures Unlinked(db'[id])
    {
      LinkedOthers(db, chains, d, v, version, document, id);
    }
    hide Linked;
    hide DocumentLinked;
    hide VersionLinked;
    hide Linkable;
  }

  lemma VersionStored(db: Store, chains: Chains, d: string, v: string)
    requires WellLinked(db, chains) && IsVersionOf(chains, d, v)
    ensures v in db && db[v].actual == Some(d)
  {
    var i :| 0 <= i < |chains[d]| && chains[d][i] == v;
    assert VersionLinked(db, d, chains[d], i);
  }

  /** Changing only the content, or adding an individual without links, keeps all links. */
  lemma ContentChanges(db: Store, chains: Chains, id: string, record: Record)
    requires WellLinked(db, chains)
    requires if id in db then record == db[id].(content := record.content)
             else Unlinked(record)
    ensures WellLinked(db[id := record], chains)
    ensures id !in db ==> id !in chains && forall d :: !IsVersionOf(chains, d, id)
  {
    var db' := db[id := record];
    forall d | d in chains ensures DocumentLinked(db', d, chains[d]) {
      assert DocumentLinked(db, d, chains[d]);
    }
    forall d, i | d in chains && 0 <= i < |chains[d]| ensures VersionLinked(db', d, chains[d], i) {
      assert VersionLinked(db, d, chains[d], i);
    }
    if id !in db {
      forall d | IsVersionOf(chains, d, id) ensures false {
        VersionStored(db, chains, d, id);
      }
      assert id in chains ==> DocumentLinked(db, id, chains[id]);
    }
  }
}
