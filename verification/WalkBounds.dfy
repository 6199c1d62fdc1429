/** How much the walk does on a cyclic graph, and when the level guard cannot be hit. */
module WalkBounds {
  import opened Access
  import opened Rights
  import opened ObjectWalk
  import opened ObjectReach

  // ----- work

  /** A group may be gone down into once when it is first walked, and once more for each flag it gains later. */
  function Budget(walked: map<string, Access>, group: string): nat {
    if group in walked then 1 + |walked[group]| else 0
  }

  /** Visits stay in budget, the root has one more, and `extra` may be visited once more right now. */
  ghost predicate InBudget(walked: map<string, Access>, visits: multiset<string>, root: string, extra: string) {
    Spent(walked, visits + multiset{extra}, root)
  }

  ghost predicate Spent(walked: map<string, Access>, visits: multiset<string>, root: string) {
    && (forall g :: g in walked ==> walked[g] <= FULL)
    && (forall g :: visits[g] <= Budget(walked, g) + (if g == root then 1 else 0))
  }

  lemma InBudgetSpent(walked: map<string, Access>, visits: multiset<string>, root: string, extra: string)
    requires InBudget(walked, visits, root, extra)
    ensures Spent(walked, visits, root)
  {
    assert forall g :: visits[g] <= (visits + multiset{extra})[g];
  }

  lemma FullSize()
    ensures |FULL| == 4
  {
  }

  /** Marking a group that is not pruned pays for one more visit of it. */
  lemma MarkPays(st: WalkState, root: string, group: string, mask: Access)
    requires Spent(st.walked, st.visits, root) && mask <= FULL && !Pruned(st.walked, group, mask)
    ensures InBudget(MarkWalked(st, group, mask).walked, st.visits, root, group)
  {
    var walked' := MarkWalked(st, group, mask).walked;
    if group in st.walked {
      SubsetCardinality(st.walked[group], walked'[group]);
    }
    assert forall g :: g != group ==> Budget(walked', g) == Budget(st.walked, g);
  }

  lemma EdgesSpend(
    q: Query, root: string, uri: string, gs: seq<Right>, idx: nat, suffix: bool, access: Access, level: nat, st: WalkState)
    requires idx <= |gs| && level <= MAX_LEVEL && access <= FULL && Spent(st.walked, st.visits, root)
    ensures var st' := Edges(q, uri, gs, idx, suffix, access, level, st);
            Spent(st'.walked, st'.visits, root)
    decreases MAX_LEVEL + 1 - level, 0, 0, |gs| - idx
  {
    if idx < |gs| {
      var e := Enter(q, uri, gs, idx, suffix, access, level, st);
      EnterSpends(q, root, uri, gs, idx, suffix, access, level, st);
      var st' := e.st;
      if e.descend {
        st' := Expand(q, gs[idx].id, gs[idx].access * access, level + 1, e.st);
        ExpandSpends(q, root, gs[idx].id, gs[idx].access * access, level + 1, e.st);
      }
      EdgesSpend(q, root, uri, gs, idx + 1, e.suffix, access, level, st');
    }
  }

  lemma EnterSpends(
    q: Query, root: string, uri: string, gs: seq<Right>, idx: nat, suffix: bool, access: Access, level: nat, st: WalkState)
    requires idx < |gs| && access <= FULL && Spent(st.walked, st.visits, root)
    ensures var e := Enter(q, uri, gs, idx, suffix, access, level, st);
            Spent(e.st.walked, e.st.visits, root)
            && (e.descend ==> InBudget(e.st.walked, e.st.visits, root, gs[idx].id))
  {
    var mask := gs[idx].access * access;
    if gs[idx].id != "" && gs[idx].marker != IS_EXCLUSIVE && !Pruned(st.walked, gs[idx].id, mask) {
      MarkPays(st, root, gs[idx].id, mask);
    }
  }

  lemma ExpandSpends(q: Query, root: string, uri: string, access: Access, level: nat, st: WalkState)
    requires access <= FULL && InBudget(st.walked, st.visits, root, uri)
    ensures var st' := Expand(q, uri, access, level, st);
            Spent(st'.walked, st'.visits, root)
    decreases MAX_LEVEL + 1 - level, 0, 1
  {
    if level <= MAX_LEVEL && q.groups(uri).Entries? {
      EdgesSpend(q, root, uri, q.groups(uri).rights, 0, false, access, level, st.(visits := st.visits + multiset{uri}));
    }
  }

  /** A pass goes down into each group at most five times, into the object at most six times. */
  lemma PassWork(q: Query, id: string, found: bool, granted: Access, group: string)
    ensures Pass(q, id, found, granted).visits[group] <= if group == id then 6 else 5
  {
    var st := WalkState(map[], found, granted, false, multiset{});
    var st2 := Check(q, Check(q, st, q.named.allResources, FULL), id, FULL);
    ExpandSpends(q, id, id, FULL, 0, st2);
    var st' := Pass(q, id, found, granted);
    VisitBound(st'.walked, st'.visits, id);
  }

  lemma StartInBudget(root: string)
    ensures InBudget(map[], multiset{}, root, root)
  {
  }

  lemma VisitBound(walked: map<string, Access>, visits: multiset<string>, root: string)
    requires Spent(walked, visits, root)
    ensures forall g :: visits[g] <= if g == root then 6 else 5
  {
    FullSize();
    forall g | g in walked ensures |walked[g]| <= 4 {
      SubsetCardinality(walked[g], FULL);
    }
  }

  // ----- the level guard

  /** The groups contain everything that the object and the groups themselves are members of. */
  ghost predicate ClosedUnder(q: Query, id: string, groups: set<string>) {
    forall u, e | (u == id || u in groups) && q.groups(u).Entries? && e in q.groups(u).rights ::
      e.id != "" && e.marker != IS_EXCLUSIVE ==> e.id in groups
  }

  /** The groups on the way from the object to the current call: walked with at least the current mask, so not repeated. */
  ghost predicate OnWay(st: WalkState, way: set<string>, access: Access) {
    forall g :: g in way ==> g in st.walked && access <= st.walked[g]
  }

  /** A group on the way is pruned, so the next group gone down into is a new one. */
  lemma EnterOnWay(
    q: Query, uri: string, gs: seq<Right>, idx: nat, suffix: bool, access: Access, level: nat, st: WalkState,
    way: set<string>)
    requires idx < |gs| && OnWay(st, way, access) && !st.cut
    ensures var e := Enter(q, uri, gs, idx, suffix, access, level, st);
            var group := gs[idx];
            && OnWay(e.st, way, access) && !e.st.cut
            && (e.descend ==> group.id !in way && group.id != "" && group.marker != IS_EXCLUSIVE
                              && OnWay(e.st, way + {group.id}, group.access * access))
  {
  }

  lemma EdgesUncut(
    q: Query, id: string, groups: set<string>, uri: string, gs: seq<Right>, idx: nat, suffix: bool, access: Access,
    level: nat, st: WalkState, way: set<string>)
    requires idx <= |gs| && level <= MAX_LEVEL && q.groups(uri) == Entries(gs)
    requires ClosedUnder(q, id, groups) && |groups| <= MAX_LEVEL && (uri == id || uri in groups)
    requires way <= groups && |way| == level && OnWay(st, way, access) && !st.cut
    ensures !Edges(q, uri, gs, idx, suffix, access, level, st).cut
    decreases MAX_LEVEL + 1 - level, 0, 0, |gs| - idx
  {
    hide Enter;
    if idx < |gs| {
      var e := Enter(q, uri, gs, idx, suffix, access, level, st);
      hide ClosedUnder;
      hide OnWay;
      EnterOnWay(q, uri, gs, idx, suffix, access, level, st, way);
      var st' := e.st;
      if e.descend {
        var group, mask := gs[idx].id, gs[idx].access * access;
        NextInside(q, id, groups, uri, gs, idx);
        SubsetCardinality(way + {group}, groups);
        ExpandUncut(q, id, groups, group, mask, level + 1, e.st, way + {group});
        st' := Expand(q, group, mask, level + 1, e.st);
        ExpandGrows(q, group, mask, level + 1, e.st);
        OnWayKept(e.st, st', way, access);
      }
      EdgesUncut(q, id, groups, uri, gs, idx + 1, e.suffix, access, level, st', way);
    }
  }

  lemma NextInside(q: Query, id: string, groups: set<string>, uri: string, gs: seq<Right>, idx: nat)
    requires ClosedUnder(q, id, groups) && (uri == id || uri in groups)
    requires q.groups(uri) == Entries(gs) && idx < |gs| && gs[idx].id != "" && gs[idx].marker != IS_EXCLUSIVE
    ensures gs[idx].id in groups
  {
    assert gs[idx] in gs;
  }

  lemma OnWayKept(st: WalkState, st': WalkState, way: set<string>, access: Access)
    requires OnWay(st, way, access) && Grows(st, st')
    ensures OnWay(st', way, access)
  {
  }

  lemma ExpandUncut(
    q: Query, id: string, groups: set<string>, uri: string, access: Access, level: nat, st: WalkState, way: set<string>)
    requires ClosedUnder(q, id, groups) && |groups| <= MAX_LEVEL && (uri == id || uri in groups)
    requires way <= groups && |way| == level && OnWay(st, way, access) && !st.cut
    ensures !Expand(q, uri, access, level, st).cut
    decreases MAX_LEVEL + 1 - level, 0, 1
  {
    SubsetCardinality(way, groups);
    if q.groups(uri).Entries? {
      EdgesUncut(q, id, groups, uri, q.groups(uri).rights, 0, false, access, level,
                 st.(visits := st.visits + multiset{uri}), way);
    }
  }

  /** An object with at most 32 groups in reach never meets the level guard, however cyclic they are. */
  lemma FewGroupsUncut(q: Query, id: string, found: bool, granted: Access, groups: set<string>)
    requires ClosedUnder(q, id, groups) && |groups| <= 32
    ensures !Pass(q, id, found, granted).cut
  {
    var st := WalkState(map[], found, granted, false, multiset{});
    ExpandUncut(q, id, groups, id, FULL, 0, Check(q, Check(q, st, q.named.allResources, FULL), id, FULL), {});
  }

  /** Each group is ranked below its members; self-membership and exclusive entries do not count. */
  ghost predicate RankedGroups(q: Query, rank: string -> nat) {
    forall u, e | q.groups(u).Entries? && e in q.groups(u).rights ::
      e.id != "" && e.marker != IS_EXCLUSIVE && e.id != u ==> rank(e.id) < rank(u)
  }

  lemma EdgesShallow(
    q: Query, uri: string, gs: seq<Right>, idx: nat, suffix: bool, access: Access, level: nat, st: WalkState,
    rank: string -> nat)
    requires idx <= |gs| && level <= MAX_LEVEL && q.groups(uri) == Entries(gs)
    requires RankedGroups(q, rank) && level + rank(uri) <= MAX_LEVEL && !st.cut
    ensures !Edges(q, uri, gs, idx, suffix, access, level, st).cut
    decreases MAX_LEVEL + 1 - level, 0, 0, |gs| - idx
  {
    hide Expand;
    if idx < |gs| {
      var e := Enter(q, uri, gs, idx, suffix, access, level, st);
      EnterDescends(q, uri, gs, idx, suffix, access, level, st);
      hide Enter;
      var st' := e.st;
      if e.descend {
        assert gs[idx] in q.groups(uri).rights;
        st' := Expand(q, gs[idx].id, gs[idx].access * access, level + 1, e.st);
        ExpandShallow(q, gs[idx].id, gs[idx].access * access, level + 1, e.st, rank);
      }
      EdgesShallow(q, uri, gs, idx + 1, e.suffix, access, level, st', rank);
    }
  }

  lemma EnterDescends(
    q: Query, uri: string, gs: seq<Right>, idx: nat, suffix: bool, access: Access, level: nat, st: WalkState)
    requires idx < |gs|
    ensures var e := Enter(q, uri, gs, idx, suffix, access, level, st);
            && e.st.cut == st.cut
            && (e.descend ==> gs[idx].id != "" && gs[idx].marker != IS_EXCLUSIVE && gs[idx].id != uri)
  {
  }

  lemma ExpandShallow(q: Query, uri: string, access: Access, level: nat, st: WalkState, rank: string -> nat)
    requires RankedGroups(q, rank) && level + rank(uri) <= MAX_LEVEL && !st.cut
    ensures !Expand(q, uri, access, level, st).cut
    decreases MAX_LEVEL + 1 - level, 0, 1
  {
    if q.groups(uri).Entries? {
      EdgesShallow(q, uri, q.groups(uri).rights, 0, false, access, level, st.(visits := st.visits + multiset{uri}), rank);
    }
  }

  /** Nor does an object whose groups are acyclic and at most 32 deep, however many there are. */
  lemma ShallowObjectUncut(q: Query, id: string, found: bool, granted: Access, rank: string -> nat)
    requires RankedGroups(q, rank) && rank(id) <= 32
    ensures !Pass(q, id, found, granted).cut
  {
    var st := WalkState(map[], found, granted, false, multiset{});
    ExpandShallow(q, id, FULL, 0, Check(q, Check(q, st, q.named.allResources, FULL), id, FULL), rank);
  }

  // ----- the guard is real: a grant 34 entries away is lost

  /** Every group has one parent, named one letter longer; only the group with a name of 35 letters grants reading. */
  function DeepQuery(): Query {
    Query(
      uri => Entries([NewRight(uri + "g")]),
      uri => if |uri| == 35 then Entries([NewRight("s")]) else NoRecord,
      Naming("", _ => false, _ => false),
      map["s" := NewRight("s")], false, {Read})
  }

  lemma {:induction false} DeepPathLengths(m: Mark, to: string, path: seq<string>, i: nat)
    requires IsPath(DeepQuery(), m, "g", to, path) && i < |path|
    ensures |path[i]| == i + 1
  {
    if i > 0 {
      DeepPathLengths(m, to, path, i - 1);
      assert Step(DeepQuery(), m, path[i - 1], path[i - 1 + 1]);
    }
  }

  lemma DeepGrantInReach()
    ensures Justified(DeepQuery(), "g", Read)
  {
    var q := DeepQuery();
    var m := Has(Read);
    var path := seq(35, (i: int) requires 0 <= i => seq(i + 1, _ => 'g'));
    assert path[0] == "g";
    forall i | 0 <= i < 34 ensures Step(q, m, path[i], path[i + 1]) {
      var g := NewRight(path[i] + "g");
      assert path[i + 1] == g.id;
      assert Follows(g, m, g.id);
      assert g in q.groups(path[i]).rights;
    }
    assert IsPath(q, m, "g", path[34], path);
    assert NewRight("s") in q.acl(path[34]).rights && Allows(q, NewRight("s"), Read);
    assert Reachable(q, m, "g", path[34]) && GrantedAt(q, path[34], Read);
  }

  /** The completeness of the walk needs its hypothesis: here reading is granted in reach, and the pass does not find it. */
  lemma GuardLosesDeepGrant()
    ensures var q := DeepQuery();
            Justified(q, "g", Read) && Read !in Pass(q, "g", false, {}).granted && Pass(q, "g", false, {}).cut
  {
    var q := DeepQuery();
    DeepGrantInReach();
    if Read in Pass(q, "g", false, {}).granted {
      PassSound(q, "g", false, {}, Read);
      var group :| ReachableWithin(q, Has(Read), "g", group, MAX_LEVEL + 1) && GrantedAt(q, group, Read);
      var short :| IsPath(q, Has(Read), "g", group, short) && |short| <= MAX_LEVEL + 2;
      DeepPathLengths(Has(Read), group, short, |short| - 1);
      assert false;
    }
    if !Pass(q, "g", false, {}).cut {
      PassExact(q, "g", false, {}, Read);
    }
  }

  // ----- and with pruning it loses a grant two entries away

  function Name(n: nat): string {
    seq(n, _ => 'g')
  }

  /** As before, and the object is in the group with a name of 34 letters directly too, but that entry is the second one. */
  function ShortcutQuery(): Query {
    DeepQuery().(groups := uri => if uri == "g" then Entries(ShortcutEntries()) else Entries([NewRight(uri + "g")]))
  }

  function ShortcutEntries(): seq<Right> {
    [NewRight("gg"), NewRight(Name(34))]
  }

  /** Entering a group of the chain that is new: it is marked with all rights, and nothing is granted. */
  lemma EnterNew(uri: string, gs: seq<Right>, n: nat, level: nat, st: WalkState)
    requires |gs| > 0 && gs[0] == NewRight(Name(n)) && 0 < n < 35 && Name(n) != uri && Name(n) !in st.walked
    ensures var e := Enter(ShortcutQuery(), uri, gs, 0, false, FULL, level, st);
            e.descend && e.st.granted == st.granted && e.st.walked == st.walked[Name(n) := FULL]
  {
    assert gs[0].access * FULL == FULL;
    assert Grant(ShortcutQuery(), Name(n), FULL) == {};
    assert FULL + {} == FULL && st.granted + {} == st.granted;
  }

  lemma OneEdge(q: Query, uri: string, gs: seq<Right>, access: Access, level: nat, st: WalkState)
    requires level <= MAX_LEVEL && q.groups(uri) == Entries(gs) && |gs| == 1
    requires Enter(q, uri, gs, 0, false, access, level, st.(visits := st.visits + multiset{uri})).descend
    ensures var e := Enter(q, uri, gs, 0, false, access, level, st.(visits := st.visits + multiset{uri}));
            Expand(q, uri, access, level, st) == Expand(q, gs[0].id, gs[0].access * access, level + 1, e.st)
  {
    var st0 := st.(visits := st.visits + multiset{uri});
    var e := Enter(q, uri, gs, 0, false, access, level, st0);
    var st' := Expand(q, gs[0].id, gs[0].access * access, level + 1, e.st);
    assert Edges(q, uri, gs, 0, false, access, level, st0) == Edges(q, uri, gs, 1, e.suffix, access, level, st') == st';
    hide Enter;
  }

  /** Down the chain from the group of a level: nothing is granted, and the last group is marked, but cut. */
  lemma {:induction false} ChainWalked(level: nat, st: WalkState)
    requires 1 <= level <= MAX_LEVEL + 1 && (forall g :: g in st.walked ==> |g| <= level + 1)
    requires level == MAX_LEVEL + 1 ==> Pruned(st.walked, Name(34), FULL)
    ensures var st' := Expand(ShortcutQuery(), Name(level + 1), FULL, level, st);
            st'.granted == st.granted && st'.cut && Pruned(st'.walked, Name(34), FULL)
    decreases MAX_LEVEL + 1 - level
  {
    if level <= MAX_LEVEL {
      var st' := ChainStep(level, st);
      hide Expand;
      hide ShortcutQuery;
      ChainWalked(level + 1, st');
    }
  }

  /** One group further down the chain. */
  lemma ChainStep(level: nat, st: WalkState) returns (st': WalkState)
    requires 1 <= level <= MAX_LEVEL && (forall g :: g in st.walked ==> |g| <= level + 1)
    ensures st'.walked == st.walked[Name(level + 2) := FULL] && st'.granted == st.granted
    ensures var q := ShortcutQuery();
            Expand(q, Name(level + 1), FULL, level, st) == Expand(q, Name(level + 2), FULL, level + 1, st')
  {
    var q := ShortcutQuery();
    var uri, next := Name(level + 1), Name(level + 2);
    assert uri + "g" == next && |uri| > |"g"|;
    var gs := [NewRight(next)];
    assert q.groups(uri) == Entries(gs);
    var st0 := st.(visits := st.visits + multiset{uri});
    hide Enter;
    hide Expand;
    EnterNew(uri, gs, level + 2, level, st0);
    hide ShortcutQuery;
    OneEdge(q, uri, gs, FULL, level, st);
    assert gs[0].access * FULL == FULL;
    st' := Enter(q, uri, gs, 0, false, FULL, level, st0).st;
  }

  lemma ShortcutInReach()
    ensures var q := ShortcutQuery();
            && IsPath(q, Has(Read), "g", Name(35), ["g", Name(34), Name(35)])
            && Justified(q, "g", Read)
  {
    var q := ShortcutQuery();
    var m := Has(Read);
    assert Name(34) + "g" == Name(35);
    assert Follows(NewRight(Name(34)), m, Name(34)) && NewRight(Name(34)) in q.groups("g").rights;
    assert Follows(NewRight(Name(35)), m, Name(35)) && NewRight(Name(35)) in q.groups(Name(34)).rights;
    assert NewRight("s") in q.acl(Name(35)).rights && Allows(q, NewRight("s"), Read);
    assert IsPath(q, m, "g", Name(35), ["g", Name(34), Name(35)]);
    assert Reachable(q, m, "g", Name(35)) && GrantedAt(q, Name(35), Read);
  }

  lemma ShortcutFacts()
    ensures var gs := ShortcutEntries();
            && ShortcutQuery().groups("g") == Entries(gs) && |gs| == 2
            && gs[0] == NewRight(Name(2)) && gs[0].id == Name(2) && gs[1].id == Name(34)
            && gs[0].access * FULL == FULL && gs[1].access * FULL == FULL
            && |Name(2)| == 2 && Name(2) != "g"
  {
    assert "gg" == Name(2);
  }

  /** The group in between is first met at the end of the chain, where it is marked and cut; later its entry is pruned. */
  lemma ShortcutWalked(st: WalkState)
    requires st.walked == map[]
    ensures Expand(ShortcutQuery(), "g", FULL, 0, st).granted == st.granted
  {
    hide Expand;
    hide Edges;
    hide Enter;
    hide Pruned;
    hide Name;
    hide ShortcutQuery;
    hide ShortcutEntries;
    ShortcutFacts();
    var q, gs := ShortcutQuery(), ShortcutEntries();
    var st0 := st.(visits := st.visits + multiset{"g"});
    EnterNew("g", gs, 2, 0, st0);
    var e := Enter(q, "g", gs, 0, false, FULL, 0, st0);
    ChainWalked(1, e.st);
    SecondPruned(q, "g", gs, e.suffix, Expand(q, Name(2), FULL, 1, e.st));
    TwoEdges(q, "g", gs, st);
  }

  lemma SecondPruned(q: Query, uri: string, gs: seq<Right>, suffix: bool, st: WalkState)
    requires |gs| == 2 && gs[1].access * FULL == FULL && Pruned(st.walked, gs[1].id, FULL)
    ensures var e := Enter(q, uri, gs, 1, suffix, FULL, 0, st); !e.descend && e.st.granted == st.granted
  {
  }

  /** Two entries of an object, the second of which is passed over. */
  lemma TwoEdges(q: Query, uri: string, gs: seq<Right>, st: WalkState)
    requires q.groups(uri) == Entries(gs) && |gs| == 2 && gs[0].access * FULL == FULL
    requires var st0 := st.(visits := st.visits + multiset{uri});
             var e := Enter(q, uri, gs, 0, false, FULL, 0, st0);
             e.descend && !Enter(q, uri, gs, 1, e.suffix, FULL, 0, Expand(q, gs[0].id, FULL, 1, e.st)).descend
    ensures var st0 := st.(visits := st.visits + multiset{uri});
            var e := Enter(q, uri, gs, 0, false, FULL, 0, st0);
            Expand(q, uri, FULL, 0, st)
            == Enter(q, uri, gs, 1, e.suffix, FULL, 0, Expand(q, gs[0].id, FULL, 1, e.st)).st
  {
    var st0 := st.(visits := st.visits + multiset{uri});
    var e := Enter(q, uri, gs, 0, false, FULL, 0, st0);
    var st1 := Expand(q, gs[0].id, FULL, 1, e.st);
    var e1 := Enter(q, uri, gs, 1, e.suffix, FULL, 0, st1);
    assert Edges(q, uri, gs, 0, false, FULL, 0, st0) == Edges(q, uri, gs, 1, e.suffix, FULL, 0, st1);
    assert Edges(q, uri, gs, 1, e.suffix, FULL, 0, st1) == Edges(q, uri, gs, 2, e1.suffix, FULL, 0, e1.st) == e1.st;
    hide Enter;
  }

  lemma GuardLosesNearGrant()
    ensures var q := ShortcutQuery();
            && ReachableWithin(q, Has(Read), "g", Name(35), 2) && GrantedAt(q, Name(35), Read)
            && Justified(q, "g", Read) && Read !in Pass(q, "g", false, {}).granted
  {
    var q := ShortcutQuery();
    ShortcutInReach();
    assert NewRight("s") in q.acl(Name(35)).rights && Allows(q, NewRight("s"), Read);
    var st := Check(q, Check(q, WalkState(map[], false, {}, false, multiset{}), "", FULL), "g", FULL);
    assert st.granted == {};
    ShortcutWalked(st);
    hide Expand;
    hide Name;
  }
}
