/** With which marker and which access a group of the subject is stored. */
module SubjectMarkers {
  import opened Access
  import opened Paths
  import opened Rights
  import opened SubjectGroups

  /** An entry in reach, in the record of another resource, that names the group. */
  ghost predicate NamedBy(groups: string -> Record, user: string, g: string, e: Right) {
    e.id == g && exists u :: u != g && Reachable(MembershipGraph(groups), user, u) && InRecord(groups(u), e)
  }

  ghost predicate InRecord(record: Record, e: Right) {
    record.Entries? && e in record.rights
  }

  // ----- a group that all entries agree on

  /** Where all entries that name the group give it one marker, it is stored with that marker. */
  lemma OneMarker(groups: string -> Record, user: string, g: string, marker: char)
    requires g in GroupsOf(groups, user).results
    requires forall e :: NamedBy(groups, user, g, e) ==> e.marker == marker
    ensures GroupsOf(groups, user).results[g].marker == marker
  {
    GroupsSound(groups, user);
    var stored := GroupsOf(groups, user).results[g].marker;
    hide MembershipGraph;
    var u :| u != g && Reachable(MembershipGraph(groups), user, u) && MarksAs(groups(u), g, stored);
    var e :| e in groups(u).rights && e.id == g && e.marker == stored;
    assert InRecord(groups(u), e);
    assert NamedBy(groups, user, g, e);
  }

  /** Where they all give it the same rights, it is stored with those. */
  lemma OneAccess(groups: string -> Record, user: string, g: string, access: Access)
    requires g in GroupsOf(groups, user).results
    requires forall e :: NamedBy(groups, user, g, e) ==> e.access * FULL == access
    ensures GroupsOf(groups, user).results[g].access == access
  {
    GroupsSound(groups, user);
    var stored := GroupsOf(groups, user).results[g].access;
    hide MembershipGraph;
    var u :| u != g && Reachable(MembershipGraph(groups), user, u) && EntryFor(groups(u), g, stored);
    var e :| e in groups(u).rights && e.id == g && stored == e.access * FULL;
    assert InRecord(groups(u), e);
    assert NamedBy(groups, user, g, e);
  }

  // ----- whether a group has a marker at all

  /** No record in reach marks the group it is the record of. */
  ghost predicate SelfUnmarked(groups: string -> Record, user: string) {
    forall u | Reachable(MembershipGraph(groups), user, u) :: SelfUnmarkedRecord(groups(u), u)
  }

  ghost predicate SelfUnmarkedRecord(record: Record, u: string) {
    record.Entries? ==> forall e :: e in record.rights && e.id == u && u != "" ==> e.marker == NO_MARKER
  }

  /** The groups the record marks are stored with a marker, or will be. */
  ghost predicate RecordMarked(record: Record, u: string, c: Collected, pending: set<string>) {
    record.Entries? ==> forall e :: e in record.rights ==> EntryMarked(e, u, c, pending)
  }

  ghost predicate EntryMarked(e: Right, u: string, c: Collected, pending: set<string>) {
    e.id != "" && e.id != u && e.marker != NO_MARKER ==> e.id in pending || Marked(c, e.id)
  }

  /** What was met with a marker is stored with one, or will be; records whose visit is still open are left out. */
  ghost predicate AllMarked(groups: string -> Record, c: Collected, open: set<string>, pending: set<string>) {
    && (forall g :: g in c.walked && c.walked[g].1 != NO_MARKER ==> g in pending || Marked(c, g))
    && (forall u :: u in c.walked && u !in open ==> RecordMarked(groups(u), u, c, pending))
  }

  lemma CollectMarks(
    groups: string -> Record, user: string, uri: string, level: nat, ignore: bool, c: Collected, open: set<string>,
    pending: set<string>)
    requires SelfUnmarked(groups, user) && Reachable(MembershipGraph(groups), user, uri)
    requires AllMarked(groups, c, open + {uri}, pending)
    ensures var c' := Collect(groups, uri, FULL, level, ignore, c);
            c'.cut || (AllMarked(groups, c', open + {uri}, pending) && RecordMarked(groups(uri), uri, c', pending))
    decreases MAX_LEVEL + 1 - level, 1
  {
    hide AllMarked;
    hide SelfUnmarked;
    if level <= MAX_LEVEL && groups(uri).Entries? {
      CollectFromMarks(groups, user, uri, groups(uri).rights, 0, level, ignore, c, open, pending);
    }
  }

  lemma CollectFromMarks(
    groups: string -> Record, user: string, uri: string, gs: seq<Right>, idx: nat, level: nat, ignore: bool, c: Collected,
    open: set<string>, pending: set<string>)
    requires idx <= |gs| && level <= MAX_LEVEL && groups(uri) == Entries(gs)
    requires SelfUnmarked(groups, user) && Reachable(MembershipGraph(groups), user, uri)
    requires AllMarked(groups, c, open + {uri}, pending)
    ensures var c' := CollectFrom(groups, uri, gs, idx, FULL, level, ignore, c);
            c'.cut || (AllMarked(groups, c', open + {uri}, pending)
                       && forall k :: idx <= k < |gs| ==> EntryMarked(gs[k], uri, c', pending))
    decreases MAX_LEVEL + 1 - level, 0, |gs| - idx
  {
    hide AllMarked;
    hide SelfUnmarked;
    hide CollectOne;
    hide Marked;
    if idx < |gs| {
      var c1 := CollectOne(groups, uri, gs[idx], FULL, level, ignore, c);
      CollectOneMarks(groups, user, uri, gs[idx], level, ignore, c, open, pending);
      CollectFromExtends(groups, uri, gs, idx + 1, FULL, level, ignore, c1);
      if !c1.cut {
        CollectFromMarks(groups, user, uri, gs, idx + 1, level, ignore, c1, open, pending);
      }
    }
  }

  lemma CollectOneMarks(
    groups: string -> Record, user: string, uri: string, g: Right, level: nat, ignore: bool, c: Collected,
    open: set<string>, pending: set<string>)
    requires level <= MAX_LEVEL && InRecord(groups(uri), g)
    requires SelfUnmarked(groups, user) && Reachable(MembershipGraph(groups), user, uri)
    requires AllMarked(groups, c, open + {uri}, pending)
    ensures var c' := CollectOne(groups, uri, g, FULL, level, ignore, c);
            c'.cut || (AllMarked(groups, c', open + {uri}, pending) && EntryMarked(g, uri, c', pending))
    decreases MAX_LEVEL + 1 - level, 0, 0
  {
    hide Collect;
    hide Store;
    hide Note;
    var mask := g.access * FULL;
    if g.id == "" || Known(c, g, mask) {
    } else if g.id == uri {
      assert SelfUnmarkedRecord(groups(uri), uri);
      NoteMarks(groups, c, g, mask, open + {uri}, pending);
    } else {
      var deeper := ignore || g.marker == IGNORE_EXCLUSIVE;
      var pending1 := if g.marker == NO_MARKER then pending else pending + {g.id};
      var noted := Note(c, g, mask);
      NoteMarks(groups, c, g, mask, open + {uri}, pending);
      assert g.id in Named(groups(uri));
      ReachableNext(MembershipGraph(groups), user, uri, g.id);
      CollectMarks(groups, user, g.id, level + 1, deeper, noted, open + {uri}, pending1);
      var below := Collect(groups, g.id, FULL, level + 1, deeper, noted);
      StoreExtends(below, g, mask, level, ignore);
      if !below.cut {
        StoreMarks(groups, below, g, mask, level, ignore, open + {uri}, pending);
      }
    }
  }

  lemma NoteMarks(groups: string -> Record, c: Collected, g: Right, mask: Access, open: set<string>, pending: set<string>)
    requires AllMarked(groups, c, open, pending)
    ensures var pending1 := if g.marker == NO_MARKER then pending else pending + {g.id};
            AllMarked(groups, Note(c, g, mask), open + {g.id}, pending1)
    ensures g.marker == NO_MARKER && g.id in open ==> AllMarked(groups, Note(c, g, mask), open, pending)
  {
    hide Marked;
    NoteExtends(c, g, mask);
    assert g.id in open ==> open + {g.id} == open;
    var noted := Note(c, g, mask);
    forall u, pending1 | pending <= pending1 && RecordMarked(groups(u), u, c, pending)
      ensures RecordMarked(groups(u), u, noted, pending1)
    {
      MarkedKept(groups(u), u, c, noted, pending, pending1);
    }
  }

  lemma MarkedKept(record: Record, u: string, c: Collected, c': Collected, pending: set<string>, pending': set<string>)
    requires RecordMarked(record, u, c, pending) && Extends(c, c') && pending <= pending'
    ensures RecordMarked(record, u, c', pending')
  {
    hide Marked;
    if record.Entries? {
      forall e | e in record.rights ensures EntryMarked(e, u, c', pending') {
        assert EntryMarked(e, u, c, pending);
      }
    }
  }

  lemma StoreMarks(
    groups: string -> Record, c: Collected, g: Right, mask: Access, level: nat, ignore: bool, open: set<string>,
    pending: set<string>)
    requires var pending1 := if g.marker == NO_MARKER then pending else pending + {g.id};
             AllMarked(groups, c, open + {g.id}, pending1) && RecordMarked(groups(g.id), g.id, c, pending1)
    ensures var c' := Store(c, g, mask, level, ignore);
            AllMarked(groups, c', open, pending) && (g.marker != NO_MARKER ==> Marked(c', g.id))
  {
  }

  /** Unless a record marks its own group, a group is stored with a marker just when some entry in reach gives it one. */
  lemma MarkedIff(groups: string -> Record, user: string, g: string)
    requires SelfUnmarked(groups, user) && !GroupsOf(groups, user).cut && g != ""
    ensures Marked(GroupsOf(groups, user), g) <==> exists e :: NamedBy(groups, user, g, e) && e.marker != NO_MARKER
  {
    hide *;
    if Marked(GroupsOf(groups, user), g) {
      MarkedHasCause(groups, user, g);
    }
    if e :| NamedBy(groups, user, g, e) && e.marker != NO_MARKER {
      CauseMarks(groups, user, g, e);
    }
  }

  lemma CauseMarks(groups: string -> Record, user: string, g: string, e: Right)
    requires SelfUnmarked(groups, user) && !GroupsOf(groups, user).cut && g != ""
    requires NamedBy(groups, user, g, e) && e.marker != NO_MARKER
    ensures Marked(GroupsOf(groups, user), g)
  {
    hide Reachable;
    hide MembershipGraph;
    hide GroupsOf;
    hide Marked;
    hide SelfUnmarked;
    hide RecordMarked;
    var u :| u != g && Reachable(MembershipGraph(groups), user, u) && InRecord(groups(u), e);
    RecordsMarked(groups, user, u);
    RecordMarks(groups(u), u, GroupsOf(groups, user), e);
  }

  lemma RecordMarks(record: Record, u: string, c: Collected, e: Right)
    requires RecordMarked(record, u, c, {}) && InRecord(record, e) && e.id != "" && e.id != u && e.marker != NO_MARKER
    ensures Marked(c, e.id)
  {
    assert EntryMarked(e, u, c, {});
  }

  /** In the end every record in reach has its groups marked. */
  lemma RecordsMarked(groups: string -> Record, user: string, u: string)
    requires SelfUnmarked(groups, user) && !GroupsOf(groups, user).cut && Reachable(MembershipGraph(groups), user, u)
    ensures RecordMarked(groups(u), u, GroupsOf(groups, user), {})
  {
    hide Reachable;
    hide MembershipGraph;
    hide Marked;
    hide SelfUnmarked;
    hide RecordMarked;
    hide Collect;
    hide FromEntry;
    ReachableSelf(MembershipGraph(groups), user);
    CollectMarks(groups, user, user, 0, false, Collected(map[], map[], false, false), {}, {});
    GroupsSound(groups, user);
    GroupsComplete(groups, user, u);
  }

  lemma MarkedHasCause(groups: string -> Record, user: string, g: string)
    requires Marked(GroupsOf(groups, user), g)
    ensures exists e :: NamedBy(groups, user, g, e) && e.marker != NO_MARKER
  {
    GroupsSound(groups, user);
    var stored := GroupsOf(groups, user).results[g].marker;
    hide MembershipGraph;
    var u :| u != g && Reachable(MembershipGraph(groups), user, u) && MarksAs(groups(u), g, stored);
    var e :| e in groups(u).rights && e.id == g && e.marker == stored;
    assert InRecord(groups(u), e);
    assert NamedBy(groups, user, g, e);
  }

  // ----- a record that marks its own group hides a marker

  function Exclusive(g: string): Right {
    NewRight(g).(marker := IS_EXCLUSIVE)
  }

  /** The user is in g and in h, h names g as an exclusive group, and so does g itself. */
  function SelfMarking(): string -> Record {
    u => if u == "g" || u == "h" then Entries([Exclusive("g")])
         else if u == "u" then Entries([NewRight("g"), NewRight("h")]) else NoRecord
  }

  /** The entry that g has for itself is remembered, so that the one of h is passed over: g is stored without a marker. */
  lemma SelfMarkerHides()
    ensures NamedBy(SelfMarking(), "u", "g", Exclusive("g"))
    ensures !GroupsOf(SelfMarking(), "u").cut && !Marked(GroupsOf(SelfMarking(), "u"), "g")
    ensures !GroupsOf(SelfMarking(), "u").exclusive
  {
    var groups, g, h, x := SelfMarking(), NewRight("g"), NewRight("h"), Exclusive("g");
    assert g.access * FULL == FULL && h.access * FULL == FULL && x.access * FULL == FULL;
    assert "u" != "g" && "u" != "h" && "h" != "g" by {
      assert "u"[0] == 'u' && "g"[0] == 'g' && "h"[0] == 'h';
    }
    SelfMarked(groups, g, h, x);
    assert InRecord(groups("h"), x) && h in groups("u").rights;
    ReachableSelf(MembershipGraph(groups), "u");
    ReachableNext(MembershipGraph(groups), "u", "u", "h");
  }

  lemma SelfMarked(groups: string -> Record, g: Right, h: Right, x: Right)
    requires groups("u") == Entries([g, h]) && groups(g.id) == Entries([x]) && groups(h.id) == Entries([x])
    requires x == g.(marker := IS_EXCLUSIVE) && g.marker == NO_MARKER == h.marker && g.access * FULL == h.access * FULL == FULL
    requires g.id != h.id && g.id != "u" && h.id != "u" && g.id != "" && h.id != ""
    ensures var c := GroupsOf(groups, "u"); !c.cut && !c.exclusive && !Marked(c, g.id)
  {
    var c0 := Collected(map[], map[], false, false);
    var c1 := Note(c0, g, FULL);
    OneEntry(groups, g.id, x, 1, c1);
    var c2 := Store(Note(c1, x, FULL), g, FULL, 0, false);
    assert CollectOne(groups, "u", g, FULL, 0, false, c0) == c2;
    var c3 := Note(c2, h, FULL);
    assert Known(c3, x, FULL);
    OneEntry(groups, h.id, x, 1, c3);
    var c4 := Store(c3, h, FULL, 0, false);
    assert CollectOne(groups, "u", h, FULL, 0, false, c2) == c4;
    assert CollectFrom(groups, "u", [g, h], 2, FULL, 0, false, c4) == c4;
    assert CollectFrom(groups, "u", [g, h], 1, FULL, 0, false, c2) == c4;
  }

  lemma OneEntry(groups: string -> Record, uri: string, x: Right, level: nat, c: Collected)
    requires groups(uri) == Entries([x]) && level <= MAX_LEVEL
    ensures Collect(groups, uri, FULL, level, false, c) == CollectOne(groups, uri, x, FULL, level, false, c)
  {
    hide CollectOne;
    assert CollectFrom(groups, uri, [x], 1, FULL, level, false, CollectOne(groups, uri, x, FULL, level, false, c))
        == CollectOne(groups, uri, x, FULL, level, false, c);
  }

  // ----- two entries for one group

  /**
   A user with two entries for a group without groups of its own: the first marker that is not empty stays, and the rights
   are those of the second entry, unless it says nothing that the first one did not.
   */
  lemma TwoEntries(groups: string -> Record, user: string, e1: Right, e2: Right)
    requires groups(user) == Entries([e1, e2]) && groups(e1.id) == NoRecord && e2.id == e1.id != user && e1.id != ""
    ensures var passedOver := e2.marker == e1.marker && e2.access * FULL <= e1.access;
            var last := if passedOver then e1 else e2;
            GroupsOf(groups, user).results == map[
              e1.id := Right(e1.id, last.access * FULL, if e1.marker != NO_MARKER then e1.marker else last.marker,
                             last.isDeleted, 0, map[])]
  {
    var gs := [e1, e2];
    var c0 := Collected(map[], map[], false, false);
    var c1 := CollectOne(groups, user, e1, FULL, 0, false, c0);
    var c2 := CollectOne(groups, user, e2, FULL, 0, false, c1);
    assert CollectFrom(groups, user, gs, 2, FULL, 0, false, c2) == c2;
    assert CollectFrom(groups, user, gs, 1, FULL, 0, false, c1) == c2;
    assert GroupsOf(groups, user) == c2;
  }
}
