/** Exclusive access: the walk finds an exclusive reason exactly when some group in reach gives one. */
module ExclusiveWalk {
  import opened Access
  import opened Rights
  import opened ObjectWalk
  import opened ObjectReach

  // ----- the specification

  predicate ExclusiveSubject(q: Query, key: string) {
    key in q.subjects && q.subjects[key].marker == IS_EXCLUSIVE
  }

  /** The membership record of the object is absent, names a TTL group, or ends with a group though none has the suffix. */
  ghost predicate ObjectReason(q: Query, id: string) {
    match q.groups(id)
    case NoRecord => true
    case Entries(gs) =>
      || (exists e :: e in gs && e.id != "" && q.named.ttl(e.id))
      || (|gs| > 0 && gs[|gs| - 1].id != "" && Unsuffixed(q, gs, |gs|))
  }

  predicate Unsuffixed(q: Query, gs: seq<Right>, n: nat)
    requires n <= |gs|
  {
    forall k | 0 <= k < n :: gs[k].id != "" ==> !q.named.suffixed(gs[k].id)
  }

  /** A group in reach has an empty record, or names a group that is an exclusive one of the subject. */
  ghost predicate GroupReason(q: Query, id: string, uri: string) {
    q.groups(uri).Entries?
    && (q.groups(uri).rights == []
        || ((uri == id || q.named.suffixed(uri))
            && exists e :: e in q.groups(uri).rights && e.id != "" && ExclusiveSubject(q, e.id)))
  }

  ghost predicate ExclusiveReason(q: Query, id: string) {
    ObjectReason(q, id) || exists uri :: Reachable(q, Any, id, uri) && GroupReason(q, id, uri)
  }

  // ----- soundness

  /** At the object the suffix flag says whether a suffixed group was seen. */
  ghost predicate SuffixKnown(q: Query, gs: seq<Right>, idx: nat, suffix: bool, level: nat, found: bool)
    requires idx <= |gs|
  {
    q.need && level == 0 && !found ==> (suffix <==> !Unsuffixed(q, gs, idx))
  }

  ghost predicate FoundSound(q: Query, id: string, before: bool, st: WalkState) {
    q.need && st.found ==> before || ExclusiveReason(q, id)
  }

  lemma EnterKnowsSuffix(
    q: Query, uri: string, gs: seq<Right>, idx: nat, suffix: bool, access: Access, level: nat, st: WalkState)
    requires idx < |gs| && SuffixKnown(q, gs, idx, suffix, level, st.found)
    ensures var e := Enter(q, uri, gs, idx, suffix, access, level, st);
            SuffixKnown(q, gs, idx + 1, e.suffix, level, e.st.found)
    ensures var e := Enter(q, uri, gs, idx, suffix, access, level, st);
            e.st.found <==> st.found || (q.need && ReasonAt(q, uri, gs, idx, level))
  {
    assert Unsuffixed(q, gs, idx + 1)
           <==> Unsuffixed(q, gs, idx) && (gs[idx].id != "" ==> !q.named.suffixed(gs[idx].id));
  }

  /** The exclusive reasons one entry gives. */
  predicate ReasonAt(q: Query, uri: string, gs: seq<Right>, k: nat, level: nat)
    requires k < |gs|
  {
    gs[k].id != ""
    && (|| (level == 0 && k == |gs| - 1 && Unsuffixed(q, gs, |gs|))
        || (level == 0 && q.named.ttl(gs[k].id))
        || ((level == 0 || q.named.suffixed(uri)) && ExclusiveSubject(q, gs[k].id)))
  }

  lemma EnterFoundSound(
    q: Query, id: string, before: bool, uri: string, gs: seq<Right>, idx: nat, suffix: bool, access: Access, level: nat,
    st: WalkState)
    requires idx < |gs| && q.groups(uri) == Entries(gs)
    requires (level == 0 ==> uri == id) && Reachable(q, Any, id, uri)
    requires FoundSound(q, id, before, st) && SuffixKnown(q, gs, idx, suffix, level, st.found)
    ensures var e := Enter(q, uri, gs, idx, suffix, access, level, st);
            && FoundSound(q, id, before, e.st)
            && SuffixKnown(q, gs, idx + 1, e.suffix, level, e.st.found)
            && (gs[idx].id != "" && gs[idx].marker != IS_EXCLUSIVE ==> Reachable(q, Any, id, gs[idx].id))
  {
    var e := Enter(q, uri, gs, idx, suffix, access, level, st);
    var g := gs[idx];
    EnterKnowsSuffix(q, uri, gs, idx, suffix, access, level, st);
    assert g in gs;
    if e.st.found && !st.found {
      assert GroupReason(q, id, uri) || ObjectReason(q, id);
    }
    if g.id != "" && g.marker != IS_EXCLUSIVE {
      assert Follows(g, Any, g.id);
      var path :| IsPath(q, Any, id, uri, path);
      assert IsPath(q, Any, id, g.id, path + [g.id]);
    }
  }

  lemma EdgesFoundSound(
    q: Query, id: string, before: bool, uri: string, gs: seq<Right>, idx: nat, suffix: bool, access: Access, level: nat,
    st: WalkState)
    requires idx <= |gs| && level <= MAX_LEVEL && q.groups(uri) == Entries(gs)
    requires (level == 0 ==> uri == id) && Reachable(q, Any, id, uri)
    requires FoundSound(q, id, before, st) && SuffixKnown(q, gs, idx, suffix, level, st.found)
    ensures FoundSound(q, id, before, Edges(q, uri, gs, idx, suffix, access, level, st))
    decreases MAX_LEVEL + 1 - level, 0, 0, |gs| - idx
  {
    if idx < |gs| {
      var e := Enter(q, uri, gs, idx, suffix, access, level, st);
      EnterFoundSound(q, id, before, uri, gs, idx, suffix, access, level, st);
      var st' := e.st;
      if e.descend {
        st' := Expand(q, gs[idx].id, gs[idx].access * access, level + 1, e.st);
        ExpandFoundSound(q, id, before, gs[idx].id, gs[idx].access * access, level + 1, e.st);
        ExpandGrows(q, gs[idx].id, gs[idx].access * access, level + 1, e.st);
      }
      EdgesFoundSound(q, id, before, uri, gs, idx + 1, e.suffix, access, level, st');
    }
  }

  lemma ExpandFoundSound(
    q: Query, id: string, before: bool, uri: string, access: Access, level: nat, st: WalkState)
    requires (level == 0 ==> uri == id) && Reachable(q, Any, id, uri)
    requires FoundSound(q, id, before, st)
    ensures FoundSound(q, id, before, Expand(q, uri, access, level, st))
    decreases MAX_LEVEL + 1 - level, 0, 1
  {
    if level <= MAX_LEVEL && q.groups(uri).Entries? {
      var gs := q.groups(uri).rights;
      EdgesFoundSound(q, id, before, uri, gs, 0, false, access, level, st.(visits := st.visits + multiset{uri}));
      assert |gs| == 0 ==> GroupReason(q, id, uri);
    }
  }

  // ----- completeness

  lemma EdgesFind(
    q: Query, uri: string, gs: seq<Right>, idx: nat, suffix: bool, access: Access, level: nat, st: WalkState, k: nat)
    requires idx <= k < |gs| && level <= MAX_LEVEL && q.need
    requires SuffixKnown(q, gs, idx, suffix, level, st.found) && ReasonAt(q, uri, gs, k, level)
    ensures Edges(q, uri, gs, idx, suffix, access, level, st).found
    decreases |gs| - idx
  {
    var e := Enter(q, uri, gs, idx, suffix, access, level, st);
    EnterKnowsSuffix(q, uri, gs, idx, suffix, access, level, st);
    var st' := e.st;
    if e.descend {
      st' := Expand(q, gs[idx].id, gs[idx].access * access, level + 1, e.st);
      ExpandGrows(q, gs[idx].id, gs[idx].access * access, level + 1, e.st);
    }
    if k == idx {
      EdgesGrow(q, uri, gs, idx + 1, e.suffix, access, level, st');
    } else {
      EdgesFind(q, uri, gs, idx + 1, e.suffix, access, level, st', k);
    }
  }

  lemma ExpandFinds(q: Query, uri: string, access: Access, level: nat, st: WalkState)
    requires level <= MAX_LEVEL && q.need && q.groups(uri).Entries?
    requires q.groups(uri).rights == [] || exists k :: 0 <= k < |q.groups(uri).rights| && ReasonAt(q, uri, q.groups(uri).rights, k, level)
    ensures Expand(q, uri, access, level, st).found
  {
    var gs := q.groups(uri).rights;
    if gs != [] {
      var k :| 0 <= k < |gs| && ReasonAt(q, uri, gs, k, level);
      EdgesFind(q, uri, gs, 0, false, access, level, st.(visits := st.visits + multiset{uri}), k);
    }
  }

  /** The walk went down into the group and found its reason, if it has one. */
  ghost predicate Searched(q: Query, st: WalkState, uri: string) {
    q.groups(uri).Entries?
    && (q.groups(uri).rights == []
        || exists k :: 0 <= k < |q.groups(uri).rights| && ReasonAt(q, uri, q.groups(uri).rights, k, 1))
    ==> st.found
  }

  ghost predicate AllSearched(q: Query, id: string, st: WalkState, open: set<string>) {
    forall g :: g in st.walked && g != id && g !in open ==> Searched(q, st, g)
  }

  lemma EnterSearches(
    q: Query, id: string, uri: string, gs: seq<Right>, idx: nat, suffix: bool, access: Access, level: nat, st: WalkState,
    open: set<string>)
    requires idx < |gs| && AllSearched(q, id, st, open + {uri})
    ensures var e := Enter(q, uri, gs, idx, suffix, access, level, st);
            if e.descend then AllSearched(q, id, e.st, open + {uri} + {gs[idx].id})
            else AllSearched(q, id, e.st, open + {uri})
  {
    var e := Enter(q, uri, gs, idx, suffix, access, level, st);
    EnterGrows(q, uri, gs, idx, suffix, access, level, st);
    forall g ensures Searched(q, st, g) ==> Searched(q, e.st, g) {
    }
  }

  lemma EdgesSearch(
    q: Query, id: string, uri: string, gs: seq<Right>, idx: nat, suffix: bool, access: Access, level: nat, st: WalkState,
    open: set<string>)
    requires idx <= |gs| && level <= MAX_LEVEL && q.need
    requires AllSearched(q, id, st, open + {uri})
    ensures var st' := Edges(q, uri, gs, idx, suffix, access, level, st);
            st'.cut || AllSearched(q, id, st', open + {uri})
    decreases MAX_LEVEL + 1 - level, 0, 0, |gs| - idx
  {
    hide Enter;
    hide AllSearched;
    hide Expand;
    if idx < |gs| {
      var e := Enter(q, uri, gs, idx, suffix, access, level, st);
      EnterSearches(q, id, uri, gs, idx, suffix, access, level, st, open);
      var st' := e.st;
      if e.descend {
        st' := Expand(q, gs[idx].id, gs[idx].access * access, level + 1, e.st);
        ExpandSearches(q, id, gs[idx].id, gs[idx].access * access, level + 1, e.st, open + {uri});
      }
      EdgesGrow(q, uri, gs, idx + 1, e.suffix, access, level, st');
      if !st'.cut {
        EdgesSearch(q, id, uri, gs, idx + 1, e.suffix, access, level, st', open);
      }
    }
  }

  lemma ExpandSearches(
    q: Query, id: string, uri: string, access: Access, level: nat, st: WalkState, open: set<string>)
    requires q.need && AllSearched(q, id, st, open + {uri})
    ensures var st' := Expand(q, uri, access, level, st);
            st'.cut || (AllSearched(q, id, st', open) && Searched(q, st', uri))
    decreases MAX_LEVEL + 1 - level, 0, 1
  {
    if level <= MAX_LEVEL {
      var st0 := st.(visits := st.visits + multiset{uri});
      assert AllSearched(q, id, st0, open + {uri});
      if q.groups(uri).Entries? {
        var gs := q.groups(uri).rights;
        EdgesSearch(q, id, uri, gs, 0, false, access, level, st0, open);
        if gs == [] || exists k :: 0 <= k < |gs| && ReasonAt(q, uri, gs, k, 1) {
          ReasonsAnyLevel(q, uri, gs, level);
          ExpandFinds(q, uri, access, level, st);
        }
      }
    }
  }

  lemma ReasonsAnyLevel(q: Query, uri: string, gs: seq<Right>, level: nat)
    ensures forall k :: 0 <= k < |gs| && ReasonAt(q, uri, gs, k, 1) ==> ReasonAt(q, uri, gs, k, level)
  {
  }

  /** Unless a call was cut, in exclusive mode a pass ends with a found reason exactly when it had one or there is one. */
  lemma PassExclusive(q: Query, id: string, found: bool, granted: Access)
    requires q.need && !Pass(q, id, found, granted).cut
    ensures Pass(q, id, found, granted).found <==> found || ExclusiveReason(q, id)
  {
    var st := WalkState(map[], found, granted, false, multiset{});
    var st2 := Check(q, Check(q, st, q.named.allResources, FULL), id, FULL);
    var st' := Pass(q, id, found, granted);
    assert IsPath(q, Any, id, id, [id]);
    ExpandFoundSound(q, id, found, id, FULL, 0, st2);
    ExpandGrows(q, id, FULL, 0, st2);
    ExpandSearches(q, id, id, FULL, 0, st2, {});
    if q.groups(id).Entries? && ExclusiveHere(q, id) {
      ObjectFinds(q, id, st2);
    }
    if !ExclusiveHere(q, id) && ExclusiveReason(q, id) {
      var uri :| Reachable(q, Any, id, uri) && GroupReason(q, id, uri);
      var path :| IsPath(q, Any, id, uri, path);
      PassCovered(q, id, found, granted);
      assert Carries(FULL, Any);
      PathWalked(q, st', Any, id, uri, path);
      GroupReasonAt(q, id, uri);
    }
  }

  ghost predicate ExclusiveHere(q: Query, id: string) {
    ObjectReason(q, id) || GroupReason(q, id, id)
  }

  lemma GroupReasonAt(q: Query, id: string, uri: string)
    requires GroupReason(q, id, uri) && uri != id
    ensures q.groups(uri).rights == []
            || exists k :: 0 <= k < |q.groups(uri).rights| && ReasonAt(q, uri, q.groups(uri).rights, k, 1)
  {
    var gs := q.groups(uri).rights;
    if gs != [] {
      var e :| e in gs && e.id != "" && ExclusiveSubject(q, e.id);
      var k :| 0 <= k < |gs| && gs[k] == e;
      assert ReasonAt(q, uri, gs, k, 1);
    }
  }

  lemma ObjectFinds(q: Query, id: string, st: WalkState)
    requires q.need && q.groups(id).Entries? && ExclusiveHere(q, id)
    ensures Expand(q, id, FULL, 0, st).found
  {
    var gs := q.groups(id).rights;
    if gs != [] {
      var k: nat;
      if e :| e in gs && e.id != "" && (q.named.ttl(e.id) || ExclusiveSubject(q, e.id)) {
        k :| 0 <= k < |gs| && gs[k] == e;
      } else {
        k := |gs| - 1;
      }
      assert ReasonAt(q, id, gs, k, 0);
    }
    ExpandFinds(q, id, FULL, 0, st);
  }
}
