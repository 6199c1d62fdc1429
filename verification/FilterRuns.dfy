/** Where a filter applies: when a run without tracing stops after its first pass, and when that makes a difference. */
module FilterRuns {
  import opened Access
  import opened Authorization
  import opened ExclusiveWalk
  import opened ObjectReach
  import opened ObjectWalk
  import opened Rights
  import opened SubjectGroups
  import opened WalkBounds

  // ----- which filter applies

  /** Where a filter is looked for: at the resource, then at the groups its membership record names, in their order. */
  predicate LookedAt(db: string -> Fetched, id: string, k: nat, it: string) {
    if k == 0 then it == id
    else var record := db("M" + id); record.Text? && k <= |record.rights| && it == record.rights[k - 1].id
  }

  /** No filter record at any of them: no filter. */
  lemma NoFilter(db: string -> Fetched, id: string)
    requires forall k: nat, it :: LookedAt(db, id, k, it) ==> db("F" + it).Missing?
    ensures FilterOf(db, id) == ("", {})
  {
    var ids := FirstLevel(db, id);
    forall j | 0 <= j < |ids| ensures db("F" + ids[j]).Missing? {
      assert LookedAt(db, id, j, ids[j]);
    }
    FirstFilterNone(db, ids);
  }

  lemma {:induction false} FirstFilterNone(db: string -> Fetched, ids: seq<string>)
    requires forall j :: 0 <= j < |ids| ==> db("F" + ids[j]).Missing?
    ensures FirstFilter(db, ids) == ("", {})
  {
    if ids != [] {
      assert db("F" + ids[0]).Missing?;
      forall j | 0 <= j < |ids[1..]| ensures db("F" + ids[1..][j]).Missing? {
        assert ids[1..][j] == ids[j + 1];
      }
      FirstFilterNone(db, ids[1..]);
    }
  }

  /**
   The first of them with a filter record decides, whatever is in it: a text of less than three characters is no filter, the
   first right of a longer one names the filter and says what is left to others, and a text without rights is the filter.
   */
  lemma FilterFound(db: string -> Fetched, id: string, k: nat, it: string, text: string, rights: seq<Right>)
    requires LookedAt(db, id, k, it) && db("F" + it) == Text(text, rights)
    requires forall j: nat, x :: j < k && LookedAt(db, id, j, x) ==> db("F" + x).Missing?
    ensures FilterOf(db, id)
      == if |text| < 3 then ("", {}) else if rights == [] then (text, {}) else (rights[0].id, rights[0].access)
  {
    var ids := FirstLevel(db, id);
    assert ids[k] == it;
    forall j | 0 <= j < k ensures db("F" + ids[j]).Missing? {
      assert LookedAt(db, id, j, ids[j]);
    }
    FirstFilterAt(db, ids, k);
  }

  lemma {:induction false} FirstFilterAt(db: string -> Fetched, ids: seq<string>, k: nat)
    requires k < |ids| && db("F" + ids[k]).Text?
    requires forall j :: 0 <= j < k ==> db("F" + ids[j]).Missing?
    ensures GetFilter(db, ids[k]).Some? && FirstFilter(db, ids) == GetFilter(db, ids[k]).value
  {
    if k > 0 {
      assert db("F" + ids[0]).Missing?;
      forall j | 0 <= j < k - 1 ensures db("F" + ids[1..][j]).Missing? {
        assert ids[1..][j] == ids[j + 1];
      }
      FirstFilterAt(db, ids[1..], k - 1);
    }
  }

  // ----- what an early end says

  /** Where a loop is left early, the walk that is not would have everything requested, and had not had it before. */
  lemma CompletesOver(
    q: Query, uri: string, gs: seq<Right>, idx: nat, suffix: bool, access: Access, level: nat, st: WalkState)
    requires idx <= |gs| && level <= MAX_LEVEL
    requires Completes(q, uri, gs, idx, suffix, access, level, st)
    ensures Over(q, Edges(q, uri, gs, idx, suffix, access, level, st))
    decreases |gs| - idx
  {
    hide Expand;
    var e := Enter(q, uri, gs, idx, suffix, access, level, st);
    hide Enter;
    var st' := e.st;
    if e.descend {
      st' := Expand(q, gs[idx].id, gs[idx].access * access, level + 1, e.st);
      ExpandGrows(q, gs[idx].id, gs[idx].access * access, level + 1, e.st);
    }
    EdgesGrow(q, uri, gs, idx + 1, e.suffix, access, level, st');
    if !(e.descend && Over(q, e.st)) {
      CompletesOver(q, uri, gs, idx + 1, e.suffix, access, level, st');
    }
  }

  lemma EndsEarlyOver(q: Query, id: string, found: bool, granted: Access)
    requires EndsEarly(q, id, found, granted)
    ensures Over(q, Pass(q, id, found, granted)) && !(q.request <= granted)
  {
    var st := WalkState(map[], found, granted, false, multiset{});
    var st1 := Check(q, st, q.named.allResources, FULL);
    var st2 := Check(q, st1, id, FULL);
    ExpandGrows(q, id, FULL, 0, st2);
    if CompletesBelow(q, id, FULL, 0, st2) {
      CompletesOver(q, id, q.groups(id).rights, 0, false, FULL, 0, st2.(visits := st2.visits + multiset{id}));
    }
  }

  /** Grants of all-resources and of the object itself that make up the whole request end a pass outside exclusive mode. */
  lemma DirectGrantsEnd(q: Query, id: string)
    requires !q.need && q.request != {} && q.request <= FULL
    requires forall f :: f in q.request ==> GrantedAt(q, q.named.allResources, f) || GrantedAt(q, id, f)
    ensures EndsEarly(q, id, false, {})
  {
    var st := WalkState(map[], false, {}, false, multiset{});
    var st1 := Check(q, st, q.named.allResources, FULL);
    var st2 := Check(q, st1, id, FULL);
    forall f | f in q.request ensures f in st2.granted {
      GrantFlag(q, q.named.allResources, FULL, f);
      GrantFlag(q, id, FULL, f);
    }
    var f :| f in q.request;
    assert f !in st.granted;
  }

  // ----- runs with and without tracing

  /** What the filter leaves to others, and the filter itself: the two questions asked. */
  function LeftToOthers(db: string -> Fetched, id: string, user: string, request: Access): Query {
    Asks(db, user, request * FilterOf(db, id).1, "")
  }

  function ByFilter(db: string -> Fetched, id: string, user: string, request: Access): Query {
    Asks(db, user, request, FilterOf(db, id).0)
  }

  /** Neither pass is cut by the level guard. */
  ghost predicate PassesUncut(db: string -> Fetched, id: string, user: string, request: Access) {
    var p1 := Pass(LeftToOthers(db, id, user, request), id, false, {});
    !p1.cut && !Pass(ByFilter(db, id, user, request), id, p1.found, p1.granted).cut
  }

  /** An early end means that all the first pass asked for is granted, and is something. */
  lemma FirstPassMeans(db: string -> Fetched, id: string, user: string, request: Access)
    requires FirstPassEnds(db, id, user, request)
    ensures var q1, p1 := LeftToOthers(db, id, user, request), Pass(LeftToOthers(db, id, user, request), id, false, {});
            && q1.request != {} && p1.granted == q1.request && (q1.need ==> p1.found)
  {
    var q1 := LeftToOthers(db, id, user, request);
    EndsEarlyOver(q1, id, false, {});
    PassWithin(q1, id, false, {});
  }

  /** A run without tracing answers exactly this, flag by flag. */
  lemma UntracedExact(db: string -> Fetched, id: string, user: string, request: Access, flag: Flag)
    requires FilterOf(db, id).0 != "" && PassesUncut(db, id, user, request)
    ensures var q1, q2 := LeftToOthers(db, id, user, request), ByFilter(db, id, user, request);
            flag in UntracedVerdict(db, id, user, request) <==>
            if FirstPassEnds(db, id, user, request) then flag in q1.request
            else (Justified(q1, id, flag) || Justified(q2, id, flag))
                 && (q2.need ==> ExclusiveReason(q1, id) || ExclusiveReason(q2, id))
  {
    hide Justified;
    hide ExclusiveReason;
    hide EndsEarly;
    hide Pass;
    FilteredVerdictExact(db, id, user, request, flag);
    hide FilteredVerdict;
    hide Verdict;
  }

  /**
   With and without tracing the answers are the same if and only if the first pass does not end early, or the filter grants
   nothing beyond what it asked for.
   */
  lemma TracedUntracedIff(db: string -> Fetched, id: string, user: string, request: Access)
    requires FilterOf(db, id).0 != "" && PassesUncut(db, id, user, request)
    ensures TracedVerdict(db, id, user, request) == UntracedVerdict(db, id, user, request) <==>
      !FirstPassEnds(db, id, user, request)
      || forall f :: Justified(ByFilter(db, id, user, request), id, f) ==> f in request * FilterOf(db, id).1
  {
    if FirstPassEnds(db, id, user, request) {
      FirstPassMeans(db, id, user, request);
      forall f
        ensures f in TracedVerdict(db, id, user, request) <==>
          f in request * FilterOf(db, id).1 || Justified(ByFilter(db, id, user, request), id, f)
      {
        TracedAfterEarly(db, id, user, request, f);
      }
      hide *;
    }
  }

  lemma TracedAfterEarly(db: string -> Fetched, id: string, user: string, request: Access, f: Flag)
    requires FilterOf(db, id).0 != "" && PassesUncut(db, id, user, request)
    requires var q1, p1 := LeftToOthers(db, id, user, request), Pass(LeftToOthers(db, id, user, request), id, false, {});
             && p1.granted == q1.request && (q1.need ==> p1.found)
    ensures f in TracedVerdict(db, id, user, request) <==>
      f in request * FilterOf(db, id).1 || Justified(ByFilter(db, id, user, request), id, f)
  {
    hide Justified;
    hide Pass;
    var q1, q2 := LeftToOthers(db, id, user, request), ByFilter(db, id, user, request);
    var p1 := Pass(q1, id, false, {});
    PassExact(q2, id, p1.found, p1.granted, f);
    if q2.need {
      PassExclusive(q2, id, p1.found, p1.granted);
    }
  }

  // ----- an object on which the two answers differ, and one on which the first pass does not end early

  function Reading(id: string): Right {
    NewRight(id).(access := {Read})
  }

  function Updating(id: string): Right {
    NewRight(id).(access := {Update})
  }

  /** Everyone may read everything; under the filter of the object, which leaves reading to others, u may update it. */
  function SharedDb(key: string): Fetched {
    if key == "Fo" then Text("flt;2;", [Reading("flt")])
    else if key == "Pv-s:AllResourcesGroup" then Text("u;2;", [Reading("u")])
    else if key == "Pflto" then Text("u;4;", [Updating("u")])
    else Missing(0)
  }

  /** The object is in g, which is in h, where u may read; the filter is as before. */
  function NestedDb(key: string): Fetched {
    if key == "Fo" then Text("flt;2;", [Reading("flt")])
    else if key == "Mo" then Text("g;f;", [NewRight("g")])
    else if key == "Mg" then Text("h;f;", [NewRight("h")])
    else if key == "Ph" then Text("u;2;", [Reading("u")])
    else if key == "Pflto" then Text("u;4;", [Updating("u")])
    else Missing(0)
  }

  lemma SharedLookups()
    ensures SharedDb(FILTER_PREFIX + "o") == Text("flt;2;", [Reading("flt")])
    ensures SharedDb(MEMBERSHIP_PREFIX + "o") == Missing(0) && SharedDb(MEMBERSHIP_PREFIX + "u") == Missing(0)
    ensures SharedDb(PERMISSION_PREFIX + "" + "v-s:AllResourcesGroup") == Text("u;2;", [Reading("u")])
    ensures SharedDb(PERMISSION_PREFIX + "flt" + "o") == Text("u;4;", [Updating("u")])
  {
    assert FILTER_PREFIX + "o" == "Fo" && MEMBERSHIP_PREFIX + "o" == "Mo" && MEMBERSHIP_PREFIX + "u" == "Mu";
    assert PERMISSION_PREFIX + "" + "v-s:AllResourcesGroup" == "Pv-s:AllResourcesGroup";
    assert PERMISSION_PREFIX + "flt" + "o" == "Pflto";
    hide Reading;
    hide Updating;
    assert "Mo"[0] == "Mu"[0] == 'M' && "Fo"[0] == 'F';
  }

  /** The filter of an object with a filter record of its own. */
  lemma OwnFilter(db: string -> Fetched, id: string, text: string, rights: seq<Right>)
    requires db("F" + id) == Text(text, rights) && |text| >= 3 && rights != []
    ensures FilterOf(db, id) == (rights[0].id, rights[0].access)
  {
    assert LookedAt(db, id, 0, id);
    FilterFound(db, id, 0, id, text, rights);
  }

  /** A user without memberships is the only subject. */
  lemma OnlySubject(db: string -> Fetched, user: string)
    requires db(MEMBERSHIP_PREFIX + user) == Missing(0)
    ensures Subjects(db, user) == Collected(map[], map[], false, false)
  {
  }

  /** Who is a subject with full access is granted what a permission for it says. */
  lemma GrantedTo(q: Query, group: string, right: Right, flag: Flag)
    requires q.acl(group) == Entries([right]) && right.id in q.subjects && q.subjects[right.id].access == FULL
    requires flag in right.access && right.access <= FULL
    ensures flag in FULL && GrantedAt(q, group, flag)
  {
    assert right in [right];
    assert Denial(flag) !in FULL;
    assert Allows(q, right, flag);
  }

  lemma JustifiedHere(q: Query, id: string, flag: Flag)
    requires flag in q.request && GrantedAt(q, id, flag)
    ensures Justified(q, id, flag)
  {
    assert IsPath(q, Has(flag), id, id, [id]);
  }

  /** A run without tracing answers less than one with tracing: what the filter grants is not asked for any more. */
  lemma SharedGrantHidesFilter()
    ensures UntracedVerdict(SharedDb, "o", "u", {Read, Update}) == {Read}
    ensures Update in TracedVerdict(SharedDb, "o", "u", {Read, Update})
  {
    var request: Access := {Read, Update};
    SharedLookups();
    hide SharedDb;
    OwnFilter(SharedDb, "o", "flt;2;", [Reading("flt")]);
    hide FilterOf;
    assert request * {Read} == {Read};
    var q1, q2 := LeftToOthers(SharedDb, "o", "u", request), ByFilter(SharedDb, "o", "u", request);
    OnlyAsked(SharedDb, "u", {Read}, "", "v-s:AllResourcesGroup");
    OnlyAsked(SharedDb, "u", request, "flt", "o");
    hide Asks;
    GrantedTo(q1, "v-s:AllResourcesGroup", Reading("u"), Read);
    GrantedTo(q2, "o", Updating("u"), Update);
    DirectGrantsEnd(q1, "o");
    JustifiedHere(q2, "o", Update);
    NoGroupsUncut(SharedDb, "o", "u", request);
    SharedAnswer(SharedDb, q1, q2);
  }

  /** What is asked for a user without memberships. */
  lemma OnlyAsked(db: string -> Fetched, user: string, request: Access, filter: string, group: string)
    requires db(MEMBERSHIP_PREFIX + user) == Missing(0)
    ensures var q := Asks(db, user, request, filter);
            && q.acl(group) == RecordOf(db(PERMISSION_PREFIX + filter + group))
            && q.groups(group) == RecordOf(db(MEMBERSHIP_PREFIX + group))
            && q.subjects == map[user := NewRight(user)] && !q.need && q.request == request
            && q.named.allResources == "v-s:AllResourcesGroup"
  {
    OnlySubject(db, user);
    hide Subjects;
  }

  lemma SharedAnswer(db: string -> Fetched, q1: Query, q2: Query)
    requires var request: Access := {Read, Update};
             q1 == LeftToOthers(db, "o", "u", request) && q2 == ByFilter(db, "o", "u", request)
    requires FilterOf(db, "o") == ("flt", {Read}) && !q2.need && EndsEarly(q1, "o", false, {}) && Justified(q2, "o", Update)
    requires PassesUncut(db, "o", "u", {Read, Update})
    ensures UntracedVerdict(db, "o", "u", {Read, Update}) == {Read} && Update in TracedVerdict(db, "o", "u", {Read, Update})
  {
    hide FilterOf;
    hide EndsEarly;
    hide Justified;
    hide Pass;
    FilteredVerdictExact(db, "o", "u", {Read, Update}, Update);
    assert {Read, Update} * {Read} == {Read};
  }

  lemma NoGroupsUncut(db: string -> Fetched, id: string, user: string, request: Access)
    requires db(MEMBERSHIP_PREFIX + id) == Missing(0)
    ensures PassesUncut(db, id, user, request)
  {
    var q1, q2 := LeftToOthers(db, id, user, request), ByFilter(db, id, user, request);
    var p1 := Pass(q1, id, false, {});
    assert q1.groups(id) == NoRecord && q2.groups(id) == NoRecord;
    FewGroupsUncut(q1, id, false, {}, {});
    FewGroupsUncut(q2, id, p1.found, p1.granted, {});
    hide Pass;
  }

  lemma NestedLookups()
    ensures NestedDb(FILTER_PREFIX + "o") == Text("flt;2;", [Reading("flt")])
    ensures NestedDb(MEMBERSHIP_PREFIX + "o") == Text("g;f;", [NewRight("g")])
    ensures NestedDb(MEMBERSHIP_PREFIX + "g") == Text("h;f;", [NewRight("h")])
    ensures NestedDb(MEMBERSHIP_PREFIX + "h") == Missing(0) && NestedDb(MEMBERSHIP_PREFIX + "u") == Missing(0)
    ensures NestedDb(PERMISSION_PREFIX + "" + "v-s:AllResourcesGroup") == Missing(0)
    ensures NestedDb(PERMISSION_PREFIX + "" + "o") == Missing(0) && NestedDb(PERMISSION_PREFIX + "" + "g") == Missing(0)
    ensures NestedDb(PERMISSION_PREFIX + "" + "h") == Text("u;2;", [Reading("u")])
    ensures NestedDb(PERMISSION_PREFIX + "flt" + "o") == Text("u;4;", [Updating("u")])
  {
    assert FILTER_PREFIX + "o" == "Fo" && MEMBERSHIP_PREFIX + "o" == "Mo" && MEMBERSHIP_PREFIX + "g" == "Mg";
    assert MEMBERSHIP_PREFIX + "h" == "Mh" && MEMBERSHIP_PREFIX + "u" == "Mu" && PERMISSION_PREFIX + "" + "h" == "Ph";
    assert PERMISSION_PREFIX + "" + "o" == "Po" && PERMISSION_PREFIX + "" + "g" == "Pg";
    assert |PERMISSION_PREFIX + "" + "v-s:AllResourcesGroup"| == 22;
    assert PERMISSION_PREFIX + "flt" + "o" == "Pflto";
    hide Reading;
    hide Updating;
    hide NewRight;
  }

  /** Nothing to be had from a group without permissions. */
  lemma NothingGranted(q: Query, group: string, st: WalkState)
    requires q.acl(group) == NoRecord
    ensures Check(q, st, group, FULL) == st
  {
  }

  /** The object and its one group grant nothing, so whatever is granted further up ends no loop. */
  lemma NestedNotEarly(q: Query, id: string, g: Right)
    requires q.groups(id) == Entries([g]) && g.id != id && !q.need && q.request != {}
    requires q.acl(q.named.allResources) == NoRecord && q.acl(id) == NoRecord && q.acl(g.id) == NoRecord
    ensures !EndsEarly(q, id, false, {})
  {
    var st := WalkState(map[], false, {}, false, multiset{});
    NothingGranted(q, q.named.allResources, st);
    NothingGranted(q, id, st);
    var st1 := st.(visits := st.visits + multiset{id});
    var e := Enter(q, id, [g], 0, false, FULL, 0, st1);
    assert e.st.granted == {};
    hide Enter;
    CompletesNowhere(q, id, [g], e.suffix, FULL, 0,
                     if e.descend then Expand(q, g.id, g.access * FULL, 1, e.st) else e.st);
    hide Expand;
    assert !Completes(q, id, [g], 0, false, FULL, 0, st1);
  }

  /**
   The first pass may grant all it asks for without ending early, when the last of it comes from a group of a group; then
   the filter is heeded without tracing too.
   */
  lemma NestedGrantHeedsFilter()
    ensures var q1 := LeftToOthers(NestedDb, "o", "u", {Read, Update});
            q1.request == {Read} && Pass(q1, "o", false, {}).granted == {Read}
    ensures !FirstPassEnds(NestedDb, "o", "u", {Read, Update})
    ensures Update in UntracedVerdict(NestedDb, "o", "u", {Read, Update})
  {
    var request: Access := {Read, Update};
    NestedQuestions();
    hide *;
    var q1, q2 := LeftToOthers(NestedDb, "o", "u", request), ByFilter(NestedDb, "o", "u", request);
    var p1 := Pass(q1, "o", false, {});
    NestedFirst(q1);
    NestedUncut(q1, false, {});
    NestedUncut(q2, p1.found, p1.granted);
    JustifiedHere(q2, "o", Update);
    NestedAnswer(NestedDb, q1, q2);
  }

  /** What the two questions come to. */
  ghost predicate Nested(q: Query) {
    && q.groups("o") == Entries([NewRight("g")]) && q.groups("g") == Entries([NewRight("h")]) && q.groups("h") == NoRecord
    && !q.need
  }

  lemma NestedQuestions()
    ensures var request: Access := {Read, Update};
            var q1, q2 := LeftToOthers(NestedDb, "o", "u", request), ByFilter(NestedDb, "o", "u", request);
            && FilterOf(NestedDb, "o").0 != "" && !q2.need && Nested(q1) && Nested(q2) && q1.request == {Read}
            && q1.acl(q1.named.allResources) == NoRecord && q1.acl("o") == NoRecord && q1.acl("g") == NoRecord
            && GrantedAt(q1, "h", Read) && GrantedAt(q2, "o", Update) && Update in q2.request
  {
    var request: Access := {Read, Update};
    NestedLookups();
    hide NestedDb;
    OwnFilter(NestedDb, "o", "flt;2;", [Reading("flt")]);
    hide FilterOf;
    assert request * {Read} == {Read};
    var q1, q2 := LeftToOthers(NestedDb, "o", "u", request), ByFilter(NestedDb, "o", "u", request);
    OnlyAsked(NestedDb, "u", {Read}, "", "v-s:AllResourcesGroup");
    OnlyAsked(NestedDb, "u", {Read}, "", "o");
    OnlyAsked(NestedDb, "u", {Read}, "", "g");
    OnlyAsked(NestedDb, "u", {Read}, "", "h");
    OnlyAsked(NestedDb, "u", request, "flt", "o");
    OnlyAsked(NestedDb, "u", request, "flt", "g");
    OnlyAsked(NestedDb, "u", request, "flt", "h");
    hide Asks;
    GrantedTo(q1, "h", Reading("u"), Read);
    GrantedTo(q2, "o", Updating("u"), Update);
  }

  lemma NestedFirst(q: Query)
    requires Nested(q) && q.request == {Read} && GrantedAt(q, "h", Read)
    requires q.acl(q.named.allResources) == NoRecord && q.acl("o") == NoRecord && q.acl("g") == NoRecord
    ensures !EndsEarly(q, "o", false, {}) && Pass(q, "o", false, {}).granted == {Read}
  {
    assert NewRight("g").id == "g" && "g"[0] != "o"[0];
    NestedNotEarly(q, "o", NewRight("g"));
    hide EndsEarly;
    ByTwoSteps(q, "o", "g", "h", Read);
    NestedUncut(q, false, {});
    PassExact(q, "o", false, {}, Read);
    PassWithin(q, "o", false, {});
    hide *;
  }

  lemma NestedUncut(q: Query, found: bool, granted: Access)
    requires Nested(q)
    ensures !Pass(q, "o", found, granted).cut
  {
    FewGroupsUncut(q, "o", found, granted, {"g", "h"});
    hide Pass;
  }

  lemma NestedAnswer(db: string -> Fetched, q1: Query, q2: Query)
    requires var request: Access := {Read, Update};
             q1 == LeftToOthers(db, "o", "u", request) && q2 == ByFilter(db, "o", "u", request)
    requires FilterOf(db, "o").0 != "" && !q2.need && !EndsEarly(q1, "o", false, {}) && Justified(q2, "o", Update)
    requires var p1 := Pass(q1, "o", false, {}); !p1.cut && !Pass(q2, "o", p1.found, p1.granted).cut
    ensures !FirstPassEnds(db, "o", "u", {Read, Update}) && Update in UntracedVerdict(db, "o", "u", {Read, Update})
  {
    hide EndsEarly;
    hide Justified;
    hide Pass;
    FilteredVerdictExact(db, "o", "u", {Read, Update}, Update);
  }

  lemma ByTwoSteps(q: Query, id: string, g: string, h: string, flag: Flag)
    requires q.groups(id) == Entries([NewRight(g)]) && q.groups(g) == Entries([NewRight(h)]) && g != "" && h != ""
    requires flag in q.request && flag in FULL && GrantedAt(q, h, flag)
    ensures Justified(q, id, flag)
  {
    assert NewRight(g) in [NewRight(g)] && NewRight(h) in [NewRight(h)];
    assert Follows(NewRight(g), Has(flag), g) && Follows(NewRight(h), Has(flag), h);
    assert IsPath(q, Has(flag), id, h, [id, g, h]);
  }

  // ----- a filter on a group of the object

  /** u may update the object, but the object is in g, whose filter leaves only reading to others. */
  function GroupDb(key: string): Fetched {
    if key == "Mo" then Text("g;f;", [NewRight("g")])
    else if key == "Fg" then Text("flt;2;", [Reading("flt")])
    else if key == "Po" then Text("u;4;", [Updating("u")])
    else Missing(0)
  }

  lemma GroupLookups()
    ensures GroupDb("M" + "o") == Text("g;f;", [NewRight("g")]) && GroupDb("F" + "g") == Text("flt;2;", [Reading("flt")])
    ensures GroupDb("M" + "u") == Missing(0) && GroupDb("M" + "g") == Missing(0) && GroupDb("F" + "o") == Missing(0)
    ensures GroupDb("P" + "" + "o") == Text("u;4;", [Updating("u")])
    ensures forall x :: GroupDb("P" + "flt" + x) == Missing(0)
  {
    assert "M" + "o" == "Mo" && "F" + "g" == "Fg" && "P" + "" + "o" == "Po";
    hide Reading;
    hide Updating;
    hide NewRight;
    assert "Mo"[0] == 'M' && "Fg"[0] == 'F' && "Po"[0] == 'P' && "Mo"[1] == "Po"[1] == 'o' && "Fg"[1] == 'g';
    assert ("M" + "u")[1] == 'u' && ("M" + "g")[1] == 'g' && ("F" + "o")[0] == 'F' && ("F" + "o")[1] == 'o';
    forall x ensures GroupDb("P" + "flt" + x) == Missing(0) {
      assert ("P" + "flt" + x)[0] == 'P' && ("P" + "flt" + x)[1] == 'f';
    }
  }

  lemma OneGroupUncut(q: Query, id: string, g: Right, found: bool, granted: Access)
    requires q.groups(id) == Entries([g]) && q.groups(g.id) == NoRecord
    ensures !Pass(q, id, found, granted).cut
  {
    FewGroupsUncut(q, id, found, granted, {g.id});
  }

  /** The permission for the object itself does not count: the filter of its group is heeded, with and without tracing. */
  lemma GroupFilterHeeded()
    ensures Verdict(GroupDb, "o", "u", {Update}) == {Update}
    ensures TracedVerdict(GroupDb, "o", "u", {Update}) == {} && UntracedVerdict(GroupDb, "o", "u", {Update}) == {}
  {
    GroupLookups();
    hide GroupDb;
    assert LookedAt(GroupDb, "o", 0, "o") && LookedAt(GroupDb, "o", 1, "g");
    FilterFound(GroupDb, "o", 1, "g", "flt;2;", [Reading("flt")]);
    hide FilterOf;
    WithheldByFilter(GroupDb, "o", "u", NewRight("g"), "flt");
  }

  /** The request is withheld from others, and there is nothing under the filter. */
  lemma WithheldByFilter(db: string -> Fetched, id: string, user: string, g: Right, filter: string)
    requires db("M" + id).Text? && db("M" + id).rights == [g] && db("M" + g.id).Missing? && db("M" + user) == Missing(0)
    requires db("P" + "" + id).Text? && db("P" + "" + id).rights == [Updating(user)]
    requires FilterOf(db, id) == (filter, {Read}) && filter != "" && forall x :: db("P" + filter + x).Missing?
    ensures Verdict(db, id, user, {Update}) == {Update}
    ensures TracedVerdict(db, id, user, {Update}) == {} && UntracedVerdict(db, id, user, {Update}) == {}
  {
    var request: Access := {Update};
    var q, q1, q2 := Asks(db, user, request, ""), LeftToOthers(db, id, user, request), ByFilter(db, id, user, request);
    assert request * {Read} == {};
    OnlyAsked(db, user, request, "", id);
    OnlyAsked(db, user, {}, "", id);
    OnlyAsked(db, user, request, filter, id);
    OnlyAsked(db, user, request, "", g.id);
    OnlyAsked(db, user, {}, "", g.id);
    OnlyAsked(db, user, request, filter, g.id);
    forall x ensures q2.acl(x) == NoRecord {
      OnlyAsked(db, user, request, filter, x);
    }
    hide Asks;
    hide FilterOf;
    hide Pass;
    var p1 := Pass(q1, id, false, {});
    OneGroupUncut(q, id, g, false, {});
    OneGroupUncut(q1, id, g, false, {});
    OneGroupUncut(q2, id, g, p1.found, p1.granted);
    GrantedTo(q, id, Updating(user), Update);
    JustifiedHere(q, id, Update);
    WithheldAnswers(db, id, user, q, q1, q2);
  }

  lemma WithheldAnswers(db: string -> Fetched, id: string, user: string, q: Query, q1: Query, q2: Query)
    requires var request: Access := {Update};
             && q == Asks(db, user, request, "") && q1 == LeftToOthers(db, id, user, request)
             && q2 == ByFilter(db, id, user, request) && FilterOf(db, id).0 != ""
             && PassesUncut(db, id, user, request) && !Pass(q, id, false, {}).cut
    requires q.request == {Update} && q1.request == {} && !q.need && !q2.need && (forall x :: q2.acl(x) == NoRecord)
    requires Justified(q, id, Update)
    ensures Verdict(db, id, user, {Update}) == {Update}
    ensures TracedVerdict(db, id, user, {Update}) == {} && UntracedVerdict(db, id, user, {Update}) == {}
  {
    hide Asks;
    hide FilterOf;
    hide Pass;
    hide Verdict;
    hide TracedVerdict;
    hide UntracedVerdict;
    var request: Access := {Update};
    forall f: Flag
      ensures f in Verdict(db, id, user, request) <==> f == Update
      ensures f !in TracedVerdict(db, id, user, request) && f !in UntracedVerdict(db, id, user, request)
    {
      VerdictExact(db, id, user, request, f);
      UntracedExact(db, id, user, request, f);
      TracedUntracedIff(db, id, user, request);
    }
  }
}
