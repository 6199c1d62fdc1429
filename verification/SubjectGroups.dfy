/** The groups of a subject: the recursion through its memberships, and what it collects. */
module SubjectGroups {
  import opened Access
  import opened Paths
  import opened Rights
  import opened Wrappers

  datatype Collected = Collected(
    walked: map<string, (Access, char)>, results: map<string, Right>, exclusive: bool, cut: bool)

  // ----- the recursion as a function

  /** The group was walked with these rights already, and last with this very marker. */
  predicate Known(c: Collected, g: Right, mask: Access) {
    g.id in c.walked && mask <= c.walked[g.id].0 && g.marker == c.walked[g.id].1
  }

  function Note(c: Collected, g: Right, mask: Access): Collected {
    c.(walked := c.walked[g.id := (mask + (if g.id in c.walked then c.walked[g.id].0 else {}), g.marker)])
  }

  /** The group is stored once its own groups are; the first marker that is not empty stays. */
  function Store(c: Collected, g: Right, mask: Access, level: nat, ignore: bool): Collected {
    var marker :=
      if g.id in c.results && c.results[g.id].marker != NO_MARKER then c.results[g.id].marker else g.marker;
    c.(exclusive := c.exclusive || (!ignore && g.marker == IS_EXCLUSIVE),
       results := c.results[g.id := Right(g.id, mask, marker, g.isDeleted, level, map[])])
  }

  function Collect(groups: string -> Record, uri: string, access: Access, level: nat, ignore: bool, c: Collected): Collected
    decreases MAX_LEVEL + 1 - level, 1
  {
    if level > MAX_LEVEL then c.(cut := true)
    else
      match groups(uri)
      case NoRecord => c
      case Entries(gs) => CollectFrom(groups, uri, gs, 0, access, level, ignore, c)
  }

  function CollectFrom(
    groups: string -> Record, uri: string, gs: seq<Right>, idx: nat, access: Access, level: nat, ignore: bool, c: Collected)
    : Collected
    requires idx <= |gs| && level <= MAX_LEVEL
    decreases MAX_LEVEL + 1 - level, 0, |gs| - idx
  {
    if idx == |gs| then c
    else
      var c' := CollectOne(groups, uri, gs[idx], access, level, ignore, c);
      CollectFrom(groups, uri, gs, idx + 1, access, level, ignore, c')
  }

  function CollectOne(
    groups: string -> Record, uri: string, g: Right, access: Access, level: nat, ignore: bool, c: Collected): Collected
    requires level <= MAX_LEVEL
    decreases MAX_LEVEL + 1 - level, 0, 0
  {
    var mask := g.access * access;
    if g.id == "" || Known(c, g, mask) then c
    else if g.id == uri then Note(c, g, mask)
    else
      var deeper := ignore || g.marker == IGNORE_EXCLUSIVE;
      Store(Collect(groups, g.id, FULL, level + 1, deeper, Note(c, g, mask)), g, mask, level, ignore)
  }

  // ----- the recursion as the engine runs it

  class Collector {
    var walked: map<string, (Access, char)>
    var results: map<string, Right>
    var exclusive: bool
    ghost var cut: bool

    ghost function View(): Collected
      reads this
    {
      Collected(walked, results, exclusive, cut)
    }

    constructor ()
      ensures View() == Collected(map[], map[], false, false)
    {
      walked, results, exclusive, cut := map[], map[], false, false;
    }

    /** The group is stored in the results, once its own groups are. */
    method StoreGroup(group: Right, level: nat, ignore: bool)
      modifies this`exclusive, this`results
      ensures View() == Store(old(View()), group, group.access, level, ignore)
    {
      if !ignore && group.marker == IS_EXCLUSIVE {
        exclusive := true;
      }
      var marker := group.marker;
      if group.id in results && results[group.id].marker != NO_MARKER {
        marker := results[group.id].marker;
      }
      results := results[group.id := Right(group.id, group.access, marker, group.isDeleted, level, map[])];
    }

    /** One entry of a membership record: passed over, or stored once its own groups are. */
    method CollectGroup(db: string -> Fetched, uri: string, entry: Right, access: Access, level: nat, ignore: bool)
      returns (r: Outcome<bool>)
      requires level <= MAX_LEVEL
      modifies this
      ensures r.Done? ==> View() == CollectOne(Memberships(db), uri, entry, access, level, ignore, old(View()))
      ensures r.Failed? ==> exists key :: db(key) == Missing(r.code) && r.code < 0
      decreases MAX_LEVEL + 1 - level, 0
    {
      hide Collect;
      hide Store;
      r := Done(false);
      if entry.id == "" {
        return;
      }
      var group := entry.(access := entry.access * access);
      var preur := {};
      if group.id in walked {
        preur := walked[group.id].0;
        if preur * group.access == group.access && group.marker == walked[group.id].1 {
          return;
        }
      }
      walked := walked[group.id := (group.access + preur, group.marker)];
      assert View() == Note(old(View()), entry, group.access);
      if uri == group.id {
        return;
      }
      var deeper := if !ignore && group.marker == IGNORE_EXCLUSIVE then true else ignore;
      var inner := GetResourceGroups(db, group.id, FULL, level + 1, deeper);
      if inner.Failed? && inner.code < 0 {
        return inner;
      }
      StoreGroup(group, level, ignore);
      StoreNarrowed(Collect(Memberships(db), group.id, FULL, level + 1, deeper, Note(old(View()), entry, group.access)),
                    entry, group, level, ignore);
    }

    /** Ends with an error code only when a lookup failed with that negative code. */
    method GetResourceGroups(db: string -> Fetched, uri: string, access: Access, level: nat, ignore: bool)
      returns (r: Outcome<bool>)
      modifies this
      ensures r.Done? ==> View() == Collect(Memberships(db), uri, access, level, ignore, old(View()))
      ensures r.Failed? ==> exists key :: db(key) == Missing(r.code) && r.code < 0
      decreases MAX_LEVEL + 1 - level, 1
    {
      hide CollectOne;
      if level > MAX_LEVEL {
        cut := true;
        return Done(true);
      }
      match db(MEMBERSHIP_PREFIX + uri)
      case Missing(e) =>
        return if e < 0 then Failed(e) else Done(false);
      case Text(_, gs) =>
        ghost var groups := Memberships(db);
        ghost var target := CollectFrom(groups, uri, gs, 0, access, level, ignore, View());
        for idx := 0 to |gs|
          invariant CollectFrom(groups, uri, gs, idx, access, level, ignore, View()) == target
        {
          r := CollectGroup(db, uri, gs[idx], access, level, ignore);
          if r.Failed? {
            return;
          }
        }
        return Done(false);
    }
  }

  /** Storing a group looks at its rights only where they are given. */
  lemma StoreNarrowed(c: Collected, entry: Right, group: Right, level: nat, ignore: bool)
    requires group == entry.(access := group.access)
    ensures Store(c, entry, group.access, level, ignore) == Store(c, group, group.access, level, ignore)
  {
  }

  // ----- what the recursion collects

  /** A resource leads to every group with a non-empty name in its membership record. */
  ghost function MembershipGraph(groups: string -> Record): Graph<string> {
    Graph(uri => Named(groups(uri)))
  }

  function Named(record: Record): set<string> {
    match record
    case NoRecord => {}
    case Entries(gs) => set g | g in gs && g.id != "" :: g.id
  }

  /**
   The stored right keeps its name; its access is the low nibble of some entry in reach, of another record, that names the
   group, and its marker is that of some such entry.
   */
  ghost predicate FromEntry(groups: string -> Record, user: string, g: string, right: Right) {
    && right.id == g
    && (exists u :: u != g && Reachable(MembershipGraph(groups), user, u) && EntryFor(groups(u), g, right.access))
    && (exists u :: u != g && Reachable(MembershipGraph(groups), user, u) && MarksAs(groups(u), g, right.marker))
  }

  ghost predicate EntryFor(record: Record, g: string, access: Access) {
    record.Entries? && exists e :: e in record.rights && e.id == g && access == e.access * FULL
  }

  ghost predicate MarksAs(record: Record, g: string, marker: char) {
    record.Entries? && exists e :: e in record.rights && e.id == g && e.marker == marker
  }

  ghost predicate CollectedSound(groups: string -> Record, user: string, c: Collected) {
    && (forall g :: g in c.walked ==> Reachable(MembershipGraph(groups), user, g))
    && (forall g :: g in c.results ==> g in c.walked && FromEntry(groups, user, g, c.results[g]))
  }

  lemma CollectSound(groups: string -> Record, user: string, uri: string, level: nat, ignore: bool, c: Collected)
    requires CollectedSound(groups, user, c) && Reachable(MembershipGraph(groups), user, uri)
    ensures CollectedSound(groups, user, Collect(groups, uri, FULL, level, ignore, c))
    ensures c.walked.Keys <= Collect(groups, uri, FULL, level, ignore, c).walked.Keys
    decreases MAX_LEVEL + 1 - level, 1
  {
    if level <= MAX_LEVEL && groups(uri).Entries? {
      CollectFromSound(groups, user, uri, groups(uri).rights, 0, level, ignore, c);
    }
  }

  lemma CollectFromSound(
    groups: string -> Record, user: string, uri: string, gs: seq<Right>, idx: nat, level: nat, ignore: bool, c: Collected)
    requires idx <= |gs| && level <= MAX_LEVEL && groups(uri) == Entries(gs)
    requires CollectedSound(groups, user, c) && Reachable(MembershipGraph(groups), user, uri)
    ensures CollectedSound(groups, user, CollectFrom(groups, uri, gs, idx, FULL, level, ignore, c))
    ensures c.walked.Keys <= CollectFrom(groups, uri, gs, idx, FULL, level, ignore, c).walked.Keys
    decreases MAX_LEVEL + 1 - level, 0, |gs| - idx
  {
    if idx < |gs| {
      CollectOneSound(groups, user, uri, gs[idx], level, ignore, c);
      CollectFromSound(groups, user, uri, gs, idx + 1, level, ignore, CollectOne(groups, uri, gs[idx], FULL, level, ignore, c));
    }
  }

  lemma CollectOneSound(
    groups: string -> Record, user: string, uri: string, g: Right, level: nat, ignore: bool, c: Collected)
    requires level <= MAX_LEVEL && groups(uri).Entries? && g in groups(uri).rights
    requires CollectedSound(groups, user, c) && Reachable(MembershipGraph(groups), user, uri)
    ensures CollectedSound(groups, user, CollectOne(groups, uri, g, FULL, level, ignore, c))
    ensures c.walked.Keys <= CollectOne(groups, uri, g, FULL, level, ignore, c).walked.Keys
    decreases MAX_LEVEL + 1 - level, 0, 0
  {
    var mask := g.access * FULL;
    if g.id != "" && !Known(c, g, mask) {
      var noted := Note(c, g, mask);
      ReachableNext(MembershipGraph(groups), user, uri, g.id);
      assert CollectedSound(groups, user, noted);
      if g.id != uri {
        var deeper := ignore || g.marker == IGNORE_EXCLUSIVE;
        CollectSound(groups, user, g.id, level + 1, deeper, noted);
        StoreSound(groups, user, uri, g, level, ignore, Collect(groups, g.id, FULL, level + 1, deeper, noted));
      }
    }
  }

  lemma StoreSound(groups: string -> Record, user: string, uri: string, g: Right, level: nat, ignore: bool, c: Collected)
    requires groups(uri).Entries? && g in groups(uri).rights && g.id in c.walked
    requires CollectedSound(groups, user, c) && Reachable(MembershipGraph(groups), user, uri) && g.id != uri
    ensures CollectedSound(groups, user, Store(c, g, g.access * FULL, level, ignore))
  {
    hide MembershipGraph;
    assert EntryFor(groups(uri), g.id, g.access * FULL) && MarksAs(groups(uri), g.id, g.marker);
  }

  /** Unless its visit is still open, a walked group has all its own groups walked and is stored; the user itself need not be. */
  ghost predicate Closed(groups: string -> Record, user: string, c: Collected, open: set<string>) {
    forall g :: g in c.walked && g !in open ==> Followed(groups, c, g) && (g in c.results || g == user)
  }

  ghost predicate Followed(groups: string -> Record, c: Collected, g: string) {
    groups(g).Entries? ==> forall e :: e in groups(g).rights && e.id != "" ==> e.id in c.walked
  }

  predicate Marked(c: Collected, g: string) {
    g in c.results && c.results[g].marker != NO_MARKER
  }

  /** Nothing is forgotten, and a group that is stored with a marker keeps it. */
  ghost predicate Extends(c: Collected, c': Collected) {
    && c.walked.Keys <= c'.walked.Keys && c.results.Keys <= c'.results.Keys
    && (c.cut ==> c'.cut) && (c.exclusive ==> c'.exclusive)
    && (forall g :: Marked(c, g) ==> Marked(c', g) && c'.results[g].marker == c.results[g].marker)
  }

  lemma CollectExtends(groups: string -> Record, uri: string, access: Access, level: nat, ignore: bool, c: Collected)
    ensures Extends(c, Collect(groups, uri, access, level, ignore, c))
    decreases MAX_LEVEL + 1 - level, 1
  {
    if level <= MAX_LEVEL && groups(uri).Entries? {
      CollectFromExtends(groups, uri, groups(uri).rights, 0, access, level, ignore, c);
    }
  }

  lemma CollectFromExtends(
    groups: string -> Record, uri: string, gs: seq<Right>, idx: nat, access: Access, level: nat, ignore: bool, c: Collected)
    requires idx <= |gs| && level <= MAX_LEVEL
    ensures Extends(c, CollectFrom(groups, uri, gs, idx, access, level, ignore, c))
    decreases MAX_LEVEL + 1 - level, 0, |gs| - idx
  {
    hide Collect;
    hide Store;
    hide Note;
    hide Known;
    hide Extends;
    ExtendsItself(c);
    if idx < |gs| {
      var g := gs[idx];
      var mask := g.access * access;
      var c' := CollectOne(groups, uri, g, access, level, ignore, c);
      NoteExtends(c, g, mask);
      if g.id != "" && !Known(c, g, mask) && g.id != uri {
        var deeper := ignore || g.marker == IGNORE_EXCLUSIVE;
        var noted := Note(c, g, mask);
        var below := Collect(groups, g.id, FULL, level + 1, deeper, noted);
        CollectExtends(groups, g.id, FULL, level + 1, deeper, noted);
        StoreExtends(below, g, mask, level, ignore);
        ExtendsTransitive(c, noted, below);
        ExtendsTransitive(c, below, Store(below, g, mask, level, ignore));
      }
      CollectFromExtends(groups, uri, gs, idx + 1, access, level, ignore, c');
      ExtendsTransitive(c, c', CollectFrom(groups, uri, gs, idx + 1, access, level, ignore, c'));
    }
  }

  lemma ExtendsItself(c: Collected)
    ensures Extends(c, c)
  {
  }

  lemma ExtendsTransitive(a: Collected, b: Collected, c: Collected)
    requires Extends(a, b) && Extends(b, c)
    ensures Extends(a, c)
  {
    hide Marked;
  }

  lemma NoteExtends(c: Collected, g: Right, mask: Access)
    ensures Extends(c, Note(c, g, mask))
  {
  }

  lemma StoreExtends(c: Collected, g: Right, mask: Access, level: nat, ignore: bool)
    ensures Extends(c, Store(c, g, mask, level, ignore))
  {
  }

  lemma CollectCloses(
    groups: string -> Record, user: string, uri: string, access: Access, level: nat, ignore: bool, c: Collected,
    open: set<string>)
    requires Closed(groups, user, c, open + {uri})
    ensures var c' := Collect(groups, uri, access, level, ignore, c);
            c'.cut || (Closed(groups, user, c', open + {uri}) && Followed(groups, c', uri))
    decreases MAX_LEVEL + 1 - level, 1
  {
    if level <= MAX_LEVEL && groups(uri).Entries? {
      CollectFromCloses(groups, user, uri, groups(uri).rights, 0, access, level, ignore, c, open);
    }
  }

  lemma CollectFromCloses(
    groups: string -> Record, user: string, uri: string, gs: seq<Right>, idx: nat, access: Access, level: nat, ignore: bool,
    c: Collected, open: set<string>)
    requires idx <= |gs| && level <= MAX_LEVEL
    requires Closed(groups, user, c, open + {uri})
    requires forall k :: 0 <= k < idx && gs[k].id != "" ==> gs[k].id in c.walked
    ensures var c' := CollectFrom(groups, uri, gs, idx, access, level, ignore, c);
            c'.cut || (Closed(groups, user, c', open + {uri})
                       && forall k :: 0 <= k < |gs| && gs[k].id != "" ==> gs[k].id in c'.walked)
    decreases MAX_LEVEL + 1 - level, 0, |gs| - idx
  {
    if idx < |gs| {
      var c' := CollectOne(groups, uri, gs[idx], access, level, ignore, c);
      CollectOneCloses(groups, user, uri, gs[idx], access, level, ignore, c, open);
      CollectFromExtends(groups, uri, gs, idx + 1, access, level, ignore, c');
      if !c'.cut {
        CollectFromCloses(groups, user, uri, gs, idx + 1, access, level, ignore, c', open);
      }
    }
  }

  lemma CollectOneCloses(
    groups: string -> Record, user: string, uri: string, g: Right, access: Access, level: nat, ignore: bool,
    c: Collected, open: set<string>)
    requires level <= MAX_LEVEL && Closed(groups, user, c, open + {uri})
    ensures var c' := CollectOne(groups, uri, g, access, level, ignore, c);
            && Extends(c, c')
            && (c'.cut || (Closed(groups, user, c', open + {uri}) && (g.id != "" ==> g.id in c'.walked)))
    decreases MAX_LEVEL + 1 - level, 0, 0
  {
    hide Collect;
    hide Followed;
    hide Marked;
    var mask := g.access * access;
    NoteExtends(c, g, mask);
    if g.id != "" && !Known(c, g, mask) {
      var noted := Note(c, g, mask);
      NoteKeepsFollowed(groups, c, noted);
      if g.id != uri {
        var deeper := ignore || g.marker == IGNORE_EXCLUSIVE;
        CollectExtends(groups, g.id, FULL, level + 1, deeper, noted);
        CollectCloses(groups, user, g.id, FULL, level + 1, deeper, noted, open + {uri});
        var below := Collect(groups, g.id, FULL, level + 1, deeper, noted);
        NoteKeepsFollowed(groups, below, Store(below, g, mask, level, ignore));
        StoreExtends(below, g, mask, level, ignore);
      }
    }
  }

  lemma NoteKeepsFollowed(groups: string -> Record, c: Collected, c': Collected)
    requires c.walked.Keys <= c'.walked.Keys
    ensures forall g :: Followed(groups, c, g) ==> Followed(groups, c', g)
  {
  }

  /** What the engine starts from for a user. */
  function GroupsOf(groups: string -> Record, user: string): Collected {
    Collect(groups, user, FULL, 0, false, Collected(map[], map[], false, false))
  }

  /**
   Subject closure: the stored groups, the user added, are the user and the groups in reach, unless a call was cut; and
   each stored access is the low nibble of an actual entry for the group.
   */
  lemma SubjectClosure(groups: string -> Record, user: string, g: string)
    ensures var c := GroupsOf(groups, user);
            && (g in c.results ==> Reachable(MembershipGraph(groups), user, g) && FromEntry(groups, user, g, c.results[g]))
            && (!c.cut ==> (g in c.results || g == user <==> Reachable(MembershipGraph(groups), user, g)))
  {
    GroupsSound(groups, user);
    if !GroupsOf(groups, user).cut && Reachable(MembershipGraph(groups), user, g) {
      GroupsComplete(groups, user, g);
    }
    ReachableSelf(MembershipGraph(groups), user);
  }

  lemma GroupsSound(groups: string -> Record, user: string)
    ensures CollectedSound(groups, user, GroupsOf(groups, user))
  {
    ReachableSelf(MembershipGraph(groups), user);
    CollectSound(groups, user, user, 0, false, Collected(map[], map[], false, false));
  }

  lemma GroupsComplete(groups: string -> Record, user: string, g: string)
    requires !GroupsOf(groups, user).cut && Reachable(MembershipGraph(groups), user, g)
    ensures g in GroupsOf(groups, user).results || g == user
  {
    var c := GroupsOf(groups, user);
    CollectCloses(groups, user, user, FULL, 0, false, Collected(map[], map[], false, false), {});
    var s := iset h | h == user || h in c.walked;
    forall u, w | u in s && w in MembershipGraph(groups).next(u) ensures w in s {
      assert Followed(groups, c, u);
    }
    ClosedHoldsReachable(MembershipGraph(groups), user, g, s);
    assert {user} + {} == {user};
  }

  // ----- the level guard, and exclusive access

  /** Each group is ranked below its members; self-membership does not count. */
  ghost predicate Ranked(groups: string -> Record, rank: string -> nat) {
    forall u, w :: w in Named(groups(u)) && w != u ==> rank(w) < rank(u)
  }

  lemma CollectUncut(
    groups: string -> Record, uri: string, access: Access, level: nat, ignore: bool, c: Collected, rank: string -> nat)
    requires Ranked(groups, rank) && level + rank(uri) <= MAX_LEVEL && !c.cut
    ensures !Collect(groups, uri, access, level, ignore, c).cut
    decreases MAX_LEVEL + 1 - level, 1
  {
    if groups(uri).Entries? {
      CollectFromUncut(groups, uri, groups(uri).rights, 0, access, level, ignore, c, rank);
    }
  }

  lemma CollectFromUncut(
    groups: string -> Record, uri: string, gs: seq<Right>, idx: nat, access: Access, level: nat, ignore: bool,
    c: Collected, rank: string -> nat)
    requires idx <= |gs| && groups(uri) == Entries(gs)
    requires Ranked(groups, rank) && level + rank(uri) <= MAX_LEVEL && !c.cut
    ensures !CollectFrom(groups, uri, gs, idx, access, level, ignore, c).cut
    decreases MAX_LEVEL + 1 - level, 0, |gs| - idx
  {
    if idx < |gs| {
      var g := gs[idx];
      var mask := g.access * access;
      if g.id != "" && !Known(c, g, mask) && g.id != uri {
        assert g.id in Named(groups(uri));
        CollectUncut(groups, g.id, FULL, level + 1, ignore || g.marker == IGNORE_EXCLUSIVE, Note(c, g, mask), rank);
      }
      CollectFromUncut(groups, uri, gs, idx + 1, access, level, ignore,
                       CollectOne(groups, uri, g, access, level, ignore, c), rank);
    }
  }

  /** Acyclic memberships at most 32 deep never meet the level guard. */
  lemma ShallowUncut(groups: string -> Record, user: string, rank: string -> nat)
    requires Ranked(groups, rank) && rank(user) <= 32
    ensures !GroupsOf(groups, user).cut
  {
    CollectUncut(groups, user, FULL, 0, false, Collected(map[], map[], false, false), rank);
  }

  /** Memberships that do not switch exclusive access off. */
  ghost function HeedingGraph(groups: string -> Record): Graph<string> {
    Graph(uri => match groups(uri)
                 case NoRecord => {}
                 case Entries(gs) => set g | g in gs && g.id != "" && g.marker != IGNORE_EXCLUSIVE :: g.id)
  }

  /** Along memberships that do not switch it off, the user reaches one that names an exclusive group. */
  ghost predicate ExclusiveCause(groups: string -> Record, user: string) {
    exists u :: Reachable(HeedingGraph(groups), user, u) && NamesExclusive(groups(u), u)
  }

  /** The record of u names another group, as an exclusive one. */
  ghost predicate NamesExclusive(record: Record, u: string) {
    record.Entries? && exists e :: e in record.rights && e.id != "" && e.id != u && e.marker == IS_EXCLUSIVE
  }

  lemma CollectExclusive(
    groups: string -> Record, user: string, uri: string, access: Access, level: nat, ignore: bool, c: Collected)
    requires ignore || Reachable(HeedingGraph(groups), user, uri)
    ensures Collect(groups, uri, access, level, ignore, c).exclusive ==> c.exclusive || ExclusiveCause(groups, user)
    decreases MAX_LEVEL + 1 - level, 1
  {
    if level <= MAX_LEVEL && groups(uri).Entries? {
      CollectFromExclusive(groups, user, uri, groups(uri).rights, 0, access, level, ignore, c);
    }
  }

  lemma CollectFromExclusive(
    groups: string -> Record, user: string, uri: string, gs: seq<Right>, idx: nat, access: Access, level: nat,
    ignore: bool, c: Collected)
    requires idx <= |gs| && level <= MAX_LEVEL && groups(uri) == Entries(gs)
    requires ignore || Reachable(HeedingGraph(groups), user, uri)
    ensures CollectFrom(groups, uri, gs, idx, access, level, ignore, c).exclusive
            ==> c.exclusive || ExclusiveCause(groups, user)
    decreases MAX_LEVEL + 1 - level, 0, |gs| - idx
  {
    if idx < |gs| {
      var g := gs[idx];
      var mask := g.access * access;
      assert g in groups(uri).rights;
      if g.id != "" && !Known(c, g, mask) && g.id != uri {
        var deeper := ignore || g.marker == IGNORE_EXCLUSIVE;
        if !deeper {
          ReachableNext(HeedingGraph(groups), user, uri, g.id);
        }
        CollectExclusive(groups, user, g.id, FULL, level + 1, deeper, Note(c, g, mask));
      }
      CollectFromExclusive(groups, user, uri, gs, idx + 1, access, level, ignore,
                           CollectOne(groups, uri, g, access, level, ignore, c));
    }
  }

  /** Exclusive access is required of a user only for a cause. */
  lemma ExclusiveHasCause(groups: string -> Record, user: string)
    requires GroupsOf(groups, user).exclusive
    ensures ExclusiveCause(groups, user)
  {
    ReachableSelf(HeedingGraph(groups), user);
    CollectExclusive(groups, user, user, FULL, 0, false, Collected(map[], map[], false, false));
  }
}
