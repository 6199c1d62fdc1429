/** When the level guard is not met on cyclic memberships, and when exclusive access is required of a subject. */
module SubjectBounds {
  import opened Access
  import opened Paths
  import opened Rights
  import opened SubjectGroups

  // ----- the level guard

  type Entry = (string, Access)

  predicate NamedIn(u: string, entries: set<Entry>) {
    exists p :: p in entries && p.0 == u
  }

  /** The entries hold all that the records in reach name, with the rights they give, and each group has one marker. */
  ghost predicate Covers(groups: string -> Record, user: string, entries: set<Entry>, marker: string -> char) {
    forall u | u == user || NamedIn(u, entries) :: CoversRecord(groups(u), entries, marker)
  }

  ghost predicate CoversRecord(record: Record, entries: set<Entry>, marker: string -> char) {
    record.Entries? ==>
      forall e :: e in record.rights && e.id != "" ==> (e.id, e.access * FULL) in entries && e.marker == marker(e.id)
  }

  /** Every walked group has its one marker, and everything on the way down was walked: entering it again is pruned. */
  ghost predicate OnWay(c: Collected, way: set<Entry>, marker: string -> char) {
    && (forall g :: g in c.walked ==> c.walked[g].1 == marker(g))
    && (forall p :: p in way ==> p.0 in c.walked && p.1 <= c.walked[p.0].0)
    && !c.cut
  }

  lemma CollectOnWay(
    groups: string -> Record, user: string, entries: set<Entry>, marker: string -> char, uri: string, level: nat,
    ignore: bool, c: Collected, way: set<Entry>)
    requires Covers(groups, user, entries, marker) && |entries| <= MAX_LEVEL && (uri == user || NamedIn(uri, entries))
    requires way <= entries && |way| == level && OnWay(c, way, marker)
    ensures OnWay(Collect(groups, uri, FULL, level, ignore, c), way, marker)
    decreases MAX_LEVEL + 1 - level, 1
  {
    SubsetCardinality(way, entries);
    if groups(uri).Entries? {
      CollectFromOnWay(groups, user, entries, marker, uri, groups(uri).rights, 0, level, ignore, c, way);
    }
  }

  lemma CollectFromOnWay(
    groups: string -> Record, user: string, entries: set<Entry>, marker: string -> char, uri: string, gs: seq<Right>,
    idx: nat, level: nat, ignore: bool, c: Collected, way: set<Entry>)
    requires Covers(groups, user, entries, marker) && |entries| <= MAX_LEVEL && (uri == user || NamedIn(uri, entries))
    requires way <= entries && |way| == level && OnWay(c, way, marker)
    requires idx <= |gs| && level <= MAX_LEVEL && groups(uri) == Entries(gs)
    ensures OnWay(CollectFrom(groups, uri, gs, idx, FULL, level, ignore, c), way, marker)
    decreases MAX_LEVEL + 1 - level, 0, |gs| - idx
  {
    if idx < |gs| {
      var g := gs[idx];
      var mask := g.access * FULL;
      hide Covers;
      hide Collect;
      hide OnWay;
      if g.id != "" && !Known(c, g, mask) {
        EntryCovered(groups, user, entries, marker, uri, g);
        NoteOnWay(c, g, mask, way, marker);
        if g.id != uri {
          var way1 := way + {(g.id, mask)};
          var deeper := ignore || g.marker == IGNORE_EXCLUSIVE;
          CollectOnWay(groups, user, entries, marker, g.id, level + 1, deeper, Note(c, g, mask), way1);
          StoreOnWay(Collect(groups, g.id, FULL, level + 1, deeper, Note(c, g, mask)), g, mask, level, ignore, way1,
                     way, marker);
        }
      }
      CollectFromOnWay(groups, user, entries, marker, uri, gs, idx + 1, level, ignore,
                       CollectOne(groups, uri, g, FULL, level, ignore, c), way);
    }
  }

  lemma EntryCovered(
    groups: string -> Record, user: string, entries: set<Entry>, marker: string -> char, uri: string, g: Right)
    requires Covers(groups, user, entries, marker) && (uri == user || NamedIn(uri, entries))
    requires groups(uri).Entries? && g in groups(uri).rights && g.id != ""
    ensures (g.id, g.access * FULL) in entries && g.marker == marker(g.id) && NamedIn(g.id, entries)
  {
    assert CoversRecord(groups(uri), entries, marker);
  }

  /** What is not known is not on the way yet. */
  lemma NoteOnWay(c: Collected, g: Right, mask: Access, way: set<Entry>, marker: string -> char)
    requires OnWay(c, way, marker) && !Known(c, g, mask) && g.marker == marker(g.id)
    ensures OnWay(Note(c, g, mask), way, marker) && OnWay(Note(c, g, mask), way + {(g.id, mask)}, marker)
    ensures (g.id, mask) !in way
  {
  }

  lemma StoreOnWay(
    c: Collected, g: Right, mask: Access, level: nat, ignore: bool, way1: set<Entry>, way: set<Entry>,
    marker: string -> char)
    requires OnWay(c, way1, marker) && way <= way1
    ensures OnWay(Store(c, g, mask, level, ignore), way, marker)
  {
  }

  /**
   Memberships that name each group with one marker, and at most 32 different pairs of a group and rights for it, never meet
   the level guard, however cyclic they are.
   */
  lemma FewEntriesUncut(groups: string -> Record, user: string, entries: set<Entry>, marker: string -> char)
    requires Covers(groups, user, entries, marker) && |entries| <= 32
    ensures !GroupsOf(groups, user).cut
  {
    CollectOnWay(groups, user, entries, marker, user, 0, false, Collected(map[], map[], false, false), {});
  }

  // ----- with two markers for a group two groups are enough to meet it

  /** The user is in b, and b and c are in each other, once with and once without the mark that ignores exclusive access. */
  function Flipping(): string -> Record {
    u => if u == "b" then TwoMarkers("c") else if u == "c" then TwoMarkers("b") else Entries([NewRight("b")])
  }

  function TwoMarkers(g: string): Record {
    Entries([NewRight(g), NewRight(g).(marker := IGNORE_EXCLUSIVE)])
  }

  /** Only the last marker is remembered, so that one of the two entries is always new. */
  lemma {:induction false} FlippingGoesOn(u: string, level: nat, ignore: bool, c: Collected)
    requires u == "b" || u == "c"
    ensures Collect(Flipping(), u, FULL, level, ignore, c).cut
    decreases MAX_LEVEL + 1 - level
  {
    var groups := Flipping();
    if level <= MAX_LEVEL {
      var g := if u == "b" then "c" else "b";
      var plain := NewRight(g);
      var gs := [plain, plain.(marker := IGNORE_EXCLUSIVE)];
      assert groups(u) == Entries(gs);
      EnterFlipping(u, gs, 0, level, ignore, c);
      var c1 := CollectOne(groups, u, plain, FULL, level, ignore, c);
      EnterFlipping(u, gs, 1, level, ignore, c1);
      CollectFromExtends(groups, u, gs, 1, FULL, level, ignore, c1);
      CollectFromExtends(groups, u, gs, 2, FULL, level, ignore, CollectOne(groups, u, gs[1], FULL, level, ignore, c1));
    }
  }

  lemma {:induction false} EnterFlipping(u: string, gs: seq<Right>, k: nat, level: nat, ignore: bool, c: Collected)
    requires (u == "b" || u == "c") && k < |gs| && level <= MAX_LEVEL
    requires (gs[k].id == "b" || gs[k].id == "c") && gs[k].id != u && gs[k].access == FULL
    ensures CollectOne(Flipping(), u, gs[k], FULL, level, ignore, c).cut
            || (Known(c, gs[k], FULL) && CollectOne(Flipping(), u, gs[k], FULL, level, ignore, c) == c)
    decreases MAX_LEVEL + 1 - level, 0
  {
    var g := gs[k];
    assert g.access * FULL == FULL;
    if !Known(c, g, FULL) {
      FlippingGoesOn(g.id, level + 1, ignore || g.marker == IGNORE_EXCLUSIVE, Note(c, g, FULL));
    }
  }

  lemma FlippingIsCut(user: string)
    requires user != "b" && user != "c"
    ensures GroupsOf(Flipping(), user).cut
  {
    var c, b := Collected(map[], map[], false, false), NewRight("b");
    assert b.access * FULL == FULL && Flipping()(user) == Entries([b]);
    FlippingGoesOn("b", 1, false, Note(c, b, FULL));
    CollectFromExtends(Flipping(), user, [b], 1, FULL, 0, false, CollectOne(Flipping(), user, b, FULL, 0, false, c));
  }

  // ----- exclusive access

  /** No entry in reach switches exclusive access off, and none names its own group as an exclusive one. */
  ghost predicate Heeded(groups: string -> Record, user: string) {
    forall u | Reachable(MembershipGraph(groups), user, u) :: HeededRecord(groups(u), u)
  }

  ghost predicate HeededRecord(record: Record, u: string) {
    record.Entries? ==>
      forall e :: e in record.rights && e.id != "" ==>
                    e.marker != IGNORE_EXCLUSIVE && (e.id == u ==> e.marker != IS_EXCLUSIVE)
  }

  /** Nothing exclusive was met: no group has the marker, and no group whose visit is over names one. */
  ghost predicate Silent(groups: string -> Record, c: Collected, open: set<string>) {
    forall g :: g in c.walked ==> c.walked[g].1 != IS_EXCLUSIVE && (g in open || !NamesExclusive(groups(g), g))
  }

  lemma CollectSilent(groups: string -> Record, user: string, uri: string, level: nat, c: Collected, open: set<string>)
    requires Heeded(groups, user) && Reachable(MembershipGraph(groups), user, uri) && Silent(groups, c, open + {uri})
    ensures var c' := Collect(groups, uri, FULL, level, false, c);
            c'.cut || c'.exclusive || (Silent(groups, c', open + {uri}) && !NamesExclusive(groups(uri), uri))
    decreases MAX_LEVEL + 1 - level, 1
  {
    if level <= MAX_LEVEL && groups(uri).Entries? {
      CollectFromSilent(groups, user, uri, groups(uri).rights, 0, level, c, open);
    }
  }

  lemma CollectFromSilent(
    groups: string -> Record, user: string, uri: string, gs: seq<Right>, idx: nat, level: nat, c: Collected,
    open: set<string>)
    requires idx <= |gs| && level <= MAX_LEVEL && groups(uri) == Entries(gs)
    requires Heeded(groups, user) && Reachable(MembershipGraph(groups), user, uri) && Silent(groups, c, open + {uri})
    ensures var c' := CollectFrom(groups, uri, gs, idx, FULL, level, false, c);
            c'.cut || c'.exclusive
            || (Silent(groups, c', open + {uri})
                && forall k | idx <= k < |gs| && gs[k].id != "" && gs[k].id != uri :: gs[k].marker != IS_EXCLUSIVE)
    decreases MAX_LEVEL + 1 - level, 0, |gs| - idx
  {
    if idx < |gs| {
      var c' := CollectOne(groups, uri, gs[idx], FULL, level, false, c);
      CollectOneSilent(groups, user, uri, gs[idx], level, c, open);
      CollectFromExtends(groups, uri, gs, idx + 1, FULL, level, false, c');
      if !c'.cut && !c'.exclusive {
        CollectFromSilent(groups, user, uri, gs, idx + 1, level, c', open);
      }
    }
  }

  /** An exclusive entry is passed over only after another one was stored. */
  lemma CollectOneSilent(
    groups: string -> Record, user: string, uri: string, g: Right, level: nat, c: Collected, open: set<string>)
    requires level <= MAX_LEVEL && groups(uri).Entries? && g in groups(uri).rights
    requires Heeded(groups, user) && Reachable(MembershipGraph(groups), user, uri) && Silent(groups, c, open + {uri})
    ensures var c' := CollectOne(groups, uri, g, FULL, level, false, c);
            c'.cut || c'.exclusive
            || (Silent(groups, c', open + {uri}) && (g.id != "" && g.id != uri ==> g.marker != IS_EXCLUSIVE))
    decreases MAX_LEVEL + 1 - level, 0, 0
  {
    hide Collect;
    hide NamesExclusive;
    var mask := g.access * FULL;
    assert HeededRecord(groups(uri), uri);
    if g.id != "" && !Known(c, g, mask) && g.id != uri && g.marker != IS_EXCLUSIVE {
      var noted := Note(c, g, mask);
      assert g.id in MembershipGraph(groups).next(uri);
      assert Silent(groups, noted, open + {uri} + {g.id});
      hide Heeded;
      hide MembershipGraph;
      hide Note;
      ReachableNext(MembershipGraph(groups), user, uri, g.id);
      CollectSilent(groups, user, g.id, level + 1, noted, open + {uri});
    }
  }

  /** Where every entry heeds exclusive access it is required exactly when one in reach names another, exclusive group. */
  lemma ExclusiveIff(groups: string -> Record, user: string)
    requires Heeded(groups, user) && !GroupsOf(groups, user).cut
    ensures GroupsOf(groups, user).exclusive <==> ExclusiveCause(groups, user)
  {
    var c := GroupsOf(groups, user);
    if c.exclusive {
      ExclusiveHasCause(groups, user);
    } else if ExclusiveCause(groups, user) {
      var u :| Reachable(HeedingGraph(groups), user, u) && NamesExclusive(groups(u), u);
      HeedingReaches(groups, user, u);
      ReachableSelf(MembershipGraph(groups), user);
      CollectSilent(groups, user, user, 0, Collected(map[], map[], false, false), {});
      GroupsWalked(groups, user, u);
      assert false;
    }
  }

  lemma HeedingReaches(groups: string -> Record, user: string, u: string)
    requires Reachable(HeedingGraph(groups), user, u)
    ensures Reachable(MembershipGraph(groups), user, u)
  {
    var s := iset h | Reachable(MembershipGraph(groups), user, h);
    ReachableSelf(MembershipGraph(groups), user);
    forall v, w | v in s && w in HeedingGraph(groups).next(v) ensures w in s {
      ReachableNext(MembershipGraph(groups), user, v, w);
    }
    ClosedHoldsReachable(HeedingGraph(groups), user, u, s);
  }

  lemma GroupsWalked(groups: string -> Record, user: string, g: string)
    requires !GroupsOf(groups, user).cut && Reachable(MembershipGraph(groups), user, g)
    ensures g in GroupsOf(groups, user).walked || g == user
  {
    GroupsComplete(groups, user, g);
    GroupsSound(groups, user);
  }
}
