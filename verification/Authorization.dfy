/**
 The authorization engine: a walk with a memo of checked groups, early exits and tracing. Every method is proved to do
 what the reference walk does; early exits are taken only when nothing more can change.
 */
module Authorization {
  import opened Access
  import opened ExclusiveWalk
  import opened ObjectReach
  import opened ObjectWalk
  import opened Rights
  import opened SubjectGroups
  import opened WalkBounds
  import opened Wrappers

  datatype Trace = Trace(isAcl: bool, isGroup: bool, isInfo: bool) {
    predicate On() {
      isInfo || isGroup || isAcl
    }
  }

  const NAMES := Naming(
    "v-s:AllResourcesGroup", id => Contains(id, "_group"), id => Contains(id, "cfg:TTLResourcesGroup"))

  // ----- when nothing more can change

  /** Everything requested is granted and, where an exclusive reason is needed, one was found. */
  predicate Over(q: Query, st: WalkState) {
    q.request <= st.granted && (q.need ==> st.found)
  }

  /** The state is the one the reference walk ends with, or both are past the point where anything can change. */
  predicate Agrees(q: Query, st: WalkState, target: WalkState) {
    st == target || (Over(q, st) && Over(q, target))
  }

  lemma GrantWithin(q: Query, group: string, access: Access)
    ensures Grant(q, group, access) <= q.request * access * FULL
  {
    forall f | f in Grant(q, group, access) ensures f in q.request * access * FULL {
      GrantFlag(q, group, access, f);
    }
  }

  class AzContext {
    const named: Naming
    const subjects: map<string, Right>
    const isNeedExclusive: bool
    var calcRightRes: Access
    var isFoundExclusive: bool
    var walkedGroups: map<string, Access>
    var checkedGroups: map<string, Access>
    var filterValue: string
    ghost var cut: bool
    ghost var visits: multiset<string>

    constructor (named: Naming, subjects: map<string, Right>, need: bool)
      ensures this.named == named && this.subjects == subjects && isNeedExclusive == need
      ensures State() == WalkState(map[], false, {}, false, multiset{}) && checkedGroups == map[] && filterValue == ""
    {
      this.named, this.subjects, isNeedExclusive := named, subjects, need;
      calcRightRes, isFoundExclusive := {}, false;
      walkedGroups, checkedGroups, filterValue := map[], map[], "";
      cut, visits := false, multiset{};
    }

    ghost function State(): WalkState
      reads this
    {
      WalkState(walkedGroups, isFoundExclusive, calcRightRes, cut, visits)
    }

    ghost function Question(db: string -> Fetched, request: Access): Query
      reads this
    {
      Query(Memberships(db), Permissions(db, filterValue), named, subjects, isNeedExclusive, request)
    }

    /** One permission of a group, flag by flag; ends early once everything requested is granted. */
    method CheckPermission(trace: Trace, request: Access, permission: Right, access: Access, ghost q: Query)
      returns (authorized: bool)
      requires q.request == request && q.subjects == subjects
      modifies this`calcRightRes
      ensures !authorized ==> calcRightRes == old(calcRightRes) + Contribution(q, permission, access)
      ensures old(calcRightRes) <= calcRightRes <= old(calcRightRes) + Contribution(q, permission, access)
      ensures authorized ==> !trace.On() && request <= calcRightRes
    {
      if permission.id !in subjects {
        return false;
      }
      var subjectAccess := subjects[permission.id].access;
      var permissionAccess := Effective(permission.access);
      ghost var contribution := Contribution(q, permission, access);
      for i := 0 to 4
        invariant calcRightRes == old(calcRightRes) + contribution * Below(i)
      {
        var flag := FLAGS[i];
        if {flag} * request * access * subjectAccess != {} {
          var calcBits := {flag} * permissionAccess;
          if calcBits != {} {
            assert flag in contribution;
            calcRightRes := calcRightRes + calcBits;
            if calcRightRes * request == request && !trace.On() {
              return true;
            }
          }
        }
      }
      return false;
    }

    /** One group: whatever is skipped or cut short, exactly its grants are collected. */
    method AuthorizeObjGroup(
      trace: Trace, request: Access, group: string, access: Access, db: string -> Fetched, ghost q: Query)
      returns (r: Outcome<bool>)
      requires q == Question(db, request) && Memo(q, checkedGroups, calcRightRes) && calcRightRes <= request
      modifies this`calcRightRes, this`checkedGroups
      ensures r.Done? ==> calcRightRes == old(calcRightRes) + Grant(q, group, access)
      ensures r.Done? ==> Memo(q, checkedGroups, calcRightRes)
      ensures old(calcRightRes) <= calcRightRes <= request
      ensures r.Done? ==> (r.value <==> !trace.On() && !(request <= old(calcRightRes)) && request <= calcRightRes)
      ensures r.Failed? ==> exists key :: db(key) == Missing(r.code) && r.code < 0
    {
      hide Memo;
      hide Contribution;
      ghost var total := Grant(q, group, access);
      GrantWithin(q, group, access);
      if !trace.On() {
        var leftToCheck := request - calcRightRes;
        if leftToCheck * access == {} {
          assert forall f :: f in total ==> f !in leftToCheck * access;
          return Done(false);
        }
        if group in checkedGroups && checkedGroups[group] == access {
          MemoGives(q, checkedGroups, calcRightRes, group);
          return Done(false);
        }
        checkedGroups := checkedGroups[group := access];
      }
      ghost var memo := checkedGroups;
      match db(PERMISSION_PREFIX + filterValue + group) {
        case Text(_, permissions) =>
          assert q.acl(group) == Entries(permissions);
          for k := 0 to |permissions|
            invariant checkedGroups == memo
            invariant calcRightRes == old(calcRightRes) + GrantPrefix(q, permissions, k, access)
            invariant GrantPrefix(q, permissions, k, access) <= total
          {
            PrefixGrows(q, permissions, k + 1, access);
            var authorized := CheckPermission(trace, request, permissions[k], access, q);
            if authorized {
              assert calcRightRes == old(calcRightRes) + total;
              MemoKept(q, old(checkedGroups), old(calcRightRes), checkedGroups, calcRightRes, group);
              return Done(true);
            }
          }
        case Missing(e) =>
          if e < 0 {
            return Failed(e);
          }
          assert q.acl(group) == NoRecord;
      }
      MemoKept(q, old(checkedGroups), old(calcRightRes), checkedGroups, calcRightRes, group);
      if calcRightRes * request == request && !trace.On() {
        return Done(true);
      }
      return Done(false);
    }

    /** The exclusive bookkeeping of one membership entry. */
    method NoteExclusive(uri: string, groups: seq<Right>, idx: nat, level: nat, suffix: bool, ghost q: Query)
      returns (suffix': bool)
      requires idx < |groups|
      requires q.named == named && q.subjects == subjects && q.need == isNeedExclusive
      modifies this`isFoundExclusive
      ensures (suffix', isFoundExclusive) == ExclusiveStep(q, uri, groups, idx, level, suffix, old(isFoundExclusive))
    {
      suffix' := suffix;
      var key := groups[idx].id;
      if isNeedExclusive && !isFoundExclusive {
        if level == 0 {
          if named.suffixed(key) {
            suffix' := true;
          }
          if idx == |groups| - 1 && !suffix' {
            isFoundExclusive := true;
          }
          if named.ttl(key) {
            isFoundExclusive := true;
          }
        }
        if !isFoundExclusive && (level == 0 || named.suffixed(uri)) && key in subjects {
          if subjects[key].marker == IS_EXCLUSIVE {
            isFoundExclusive := true;
          }
        }
      }
    }

    /** One membership entry up to the decision to visit its group, which is then marked as walked. */
    method MarkGroup(
      uri: string, groups: seq<Right>, idx: nat, suffix: bool, access: Access, level: nat, ghost q: Query,
      ghost root: string)
      returns (suffix': bool, visit: bool)
      requires idx < |groups| && q.named == named && q.subjects == subjects && q.need == isNeedExclusive
      requires access <= FULL && Spent(walkedGroups, visits, root)
      modifies this`isFoundExclusive, this`walkedGroups
      ensures var e := Enter(q, uri, groups, idx, suffix, access, level, old(State()));
              suffix' == e.suffix && visit == e.descend
              && e.st == if visit then Check(q, State(), groups[idx].id, groups[idx].access * access) else State()
      ensures Spent(walkedGroups, visits, root)
      ensures visit ==> InBudget(walkedGroups, visits, root, groups[idx].id)
    {
      hide Spent;
      hide InBudget;
      hide Grant;
      hide ExclusiveStep;
      suffix', visit := suffix, false;
      EnterSpends(q, root, uri, groups, idx, suffix, access, level, State());
      var group := groups[idx];
      if group.id != "" {
        group := group.(access := group.access * access);
        suffix' := NoteExclusive(uri, groups, idx, level, suffix, q);
        var preur := if group.id in walkedGroups then walkedGroups[group.id] else {};
        if group.marker != IS_EXCLUSIVE && !(group.id in walkedGroups && preur * group.access == group.access) {
          walkedGroups := walkedGroups[group.id := group.access + preur];
          visit := uri != group.id;
        }
      }
    }

    /** The walk agrees with the reference walk, and goes down no more often than the budget allows. */
    method PrepareObjGroup(
      trace: Trace, request: Access, uri: string, access: Access, level: nat, db: string -> Fetched,
      ghost q: Query, ghost root: string)
      returns (r: Outcome<bool>)
      requires q == Question(db, request) && Memo(q, checkedGroups, calcRightRes)
      requires calcRightRes <= request && access <= FULL && InBudget(walkedGroups, visits, root, uri)
      modifies this`calcRightRes, this`checkedGroups, this`isFoundExclusive, this`walkedGroups, this`cut, this`visits
      ensures r.Done? ==> Memo(q, checkedGroups, calcRightRes)
      ensures r.Done? ==> Tracks(q, trace, State(), Expand(q, uri, access, level, old(State())))
      ensures r.Done? ==> (r.value <==> !trace.On() && CompletesBelow(q, uri, access, level, old(State())))
      ensures r.Done? && r.value ==> Over(q, State())
      ensures calcRightRes <= request && Spent(walkedGroups, visits, root)
      ensures r.Failed? ==> exists key :: db(key) == Missing(r.code) && r.code < 0
      decreases MAX_LEVEL + 1 - level, 1
    {
      hide Spent;
      hide Memo;
      hide Grant;
      hide Completes;
      hide Tracks;
      hide Over;
      hide Edges;
      InBudgetSpent(walkedGroups, visits, root, uri);
      r := Done(false);
      if level > MAX_LEVEL {
        cut := true;
        TracksSelf(q, trace, State());
      } else {
        visits := visits + multiset{uri};
        match db(MEMBERSHIP_PREFIX + uri)
        case Missing(e) =>
          if e < 0 {
            r := Failed(e);
          } else if level == 0 {
            isFoundExclusive := true;
          }
          TracksSelf(q, trace, State());
        case Text(_, groups) =>
          assert q.groups(uri) == Entries(groups);
          ghost var target := Edges(q, uri, groups, 0, false, access, level, State());
          r := PrepareGroups(trace, request, uri, groups, access, level, db, q, root);
          if |groups| == 0 {
            FoundTracks(q, trace, State(), target);
            isFoundExclusive := true;
          }
      }
    }

    /** The loop over the entries of one membership record. */
    method PrepareGroups(
      trace: Trace, request: Access, uri: string, groups: seq<Right>, access: Access, level: nat, db: string -> Fetched,
      ghost q: Query, ghost root: string)
      returns (r: Outcome<bool>)
      requires q == Question(db, request) && Memo(q, checkedGroups, calcRightRes) && level <= MAX_LEVEL
      requires calcRightRes <= request && access <= FULL && Spent(walkedGroups, visits, root)
      modifies this`calcRightRes, this`checkedGroups, this`isFoundExclusive, this`walkedGroups, this`cut, this`visits
      ensures r.Done? ==> Memo(q, checkedGroups, calcRightRes)
      ensures r.Done? ==> Tracks(q, trace, State(), Edges(q, uri, groups, 0, false, access, level, old(State())))
      ensures r.Done? ==> (r.value <==> !trace.On() && Completes(q, uri, groups, 0, false, access, level, old(State())))
      ensures r.Done? && r.value ==> Over(q, State())
      ensures calcRightRes <= request && Spent(walkedGroups, visits, root)
      ensures r.Failed? ==> exists key :: db(key) == Missing(r.code) && r.code < 0
      decreases MAX_LEVEL + 1 - level, 0, 1
    {
      hide Spent;
      hide Memo;
      hide Enter;
      hide Completes;
      ghost var target := Edges(q, uri, groups, 0, false, access, level, State());
      var suffix := false;
      for idx := 0 to |groups|
        invariant Memo(q, checkedGroups, calcRightRes) && calcRightRes <= request && Spent(walkedGroups, visits, root)
        invariant OnTrack(q, trace, uri, groups, idx, suffix, access, level, State(), target)
        invariant !trace.On() ==>
          (Completes(q, uri, groups, idx, suffix, access, level, State())
           <==> Completes(q, uri, groups, 0, false, access, level, old(State())))
      {
        ghost var before, suffix0 := State(), suffix;
        suffix, r := PrepareGroup(trace, request, uri, groups, idx, suffix, access, level, db, q, root);
        if r.Failed? {
          return;
        }
        if r.value {
          TrackOver(q, trace, uri, groups, idx, suffix0, access, level, before, target);
          CompletesHere(q, uri, groups, idx, suffix0, access, level, before);
          return;
        }
        TrackStep(q, trace, uri, groups, idx, suffix0, access, level, before, State(), target);
        if !trace.On() {
          CompletesLater(q, trace, uri, groups, idx, suffix0, access, level, before, State());
        }
      }
      CompletesNowhere(q, uri, groups, suffix, access, level, State());
      return Done(false);
    }

    /** The body of the loop: one entry, and what is below it. */
    method PrepareGroup(
      trace: Trace, request: Access, uri: string, groups: seq<Right>, idx: nat, suffix: bool, access: Access, level: nat,
      db: string -> Fetched, ghost q: Query, ghost root: string)
      returns (suffix': bool, r: Outcome<bool>)
      requires q == Question(db, request) && Memo(q, checkedGroups, calcRightRes)
      requires idx < |groups| && level <= MAX_LEVEL
      requires calcRightRes <= request && access <= FULL && Spent(walkedGroups, visits, root)
      modifies this`calcRightRes, this`checkedGroups, this`isFoundExclusive, this`walkedGroups, this`cut, this`visits
      ensures r.Done? ==> Memo(q, checkedGroups, calcRightRes)
      ensures var e := Enter(q, uri, groups, idx, suffix, access, level, old(State()));
              && (r.Done? && r.value ==> e.descend && Over(q, e.st) && Over(q, State()))
              && (r.Done? && !r.value ==>
                  && suffix' == e.suffix
                  && (if e.descend then
                        Tracks(q, trace, State(), Expand(q, groups[idx].id, groups[idx].access * access, level + 1, e.st))
                      else State() == e.st)
                  && (e.descend && Over(q, e.st) ==> trace.On() || request <= old(calcRightRes)))
      ensures r.Done? && r.value ==> !trace.On() && !(request <= old(calcRightRes))
      ensures calcRightRes <= request && Spent(walkedGroups, visits, root)
      ensures r.Failed? ==> exists key :: db(key) == Missing(r.code) && r.code < 0
      decreases MAX_LEVEL + 1 - level, 0, 0
    {
      hide Spent;
      hide Memo;
      hide Enter;
      hide Completes;
      ghost var before := State();
      var visit;
      suffix', visit := MarkGroup(uri, groups, idx, suffix, access, level, q, root);
      if visit {
        var authorized := AuthorizeObjGroup(trace, request, groups[idx].id, groups[idx].access * access, db, q);
        if authorized.Failed? {
          return suffix', authorized;
        }
        assert State() == Enter(q, uri, groups, idx, suffix, access, level, before).st;
        if authorized.value && (!isNeedExclusive || isFoundExclusive) {
          return suffix', Done(true);
        }
        var inner := PrepareObjGroup(
          trace, request, groups[idx].id, groups[idx].access * access, level + 1, db, q, root);
        if inner.Failed? {
          return suffix', inner;
        }
      }
      return suffix', Done(false);
    }

    method FinalCheck() returns (ok: bool)
      ensures ok <==> (isNeedExclusive ==> isFoundExclusive)
    {
      ok := if isNeedExclusive && isFoundExclusive then true else !isNeedExclusive;
    }

    /** One pass: an answer before its end is given only when nothing more can change. */
    method AuthorizeObjGroups(id: string, request: Access, db: string -> Fetched, trace: Trace, ghost q: Query)
      returns (r: Option<Outcome<Access>>)
      requires q == Question(db, request) && calcRightRes <= request
      requires checkedGroups == walkedGroups == map[] && !cut && visits == multiset{}
      modifies this`calcRightRes, this`checkedGroups, this`isFoundExclusive, this`walkedGroups, this`cut, this`visits
      ensures r.None? ==> Tracks(q, trace, State(), Pass(q, id, old(isFoundExclusive), old(calcRightRes)))
      ensures r.Some? && r.value.Done? ==>
                !trace.On() && r.value.value == request && Over(q, Pass(q, id, old(isFoundExclusive), old(calcRightRes)))
      ensures r.Some? && r.value.Failed? ==> exists key :: db(key) == Missing(r.value.code) && r.value.code < 0
      ensures r.Some? && r.value.Done? ==> EndsEarly(q, id, old(isFoundExclusive), old(calcRightRes))
      ensures r.None? ==> trace.On() || !EndsEarly(q, id, old(isFoundExclusive), old(calcRightRes))
      ensures calcRightRes <= request
      ensures forall g :: visits[g] <= if g == id then 6 else 5
    {
      hide Memo;
      hide Spent;
      hide Grant;
      hide CompletesBelow;
      MemoEmpty(q, calcRightRes);
      ghost var start := State();
      ghost var start1 := Check(q, start, named.allResources, FULL);
      ghost var start2 := Check(q, start1, id, FULL);
      ghost var target := Pass(q, id, start.found, start.granted);
      assert target == Expand(q, id, FULL, 0, start2);
      ExpandGrows(q, id, FULL, 0, start2);
      var directly := [named.allResources, id];
      for i := 0 to 2
        invariant State() == (if i == 0 then start else if i == 1 then start1 else start2)
        invariant Memo(q, checkedGroups, calcRightRes) && calcRightRes <= request
        invariant !trace.On() ==> (i >= 1 ==> !CompletedBy(q, start, start1)) && (i == 2 ==> !CompletedBy(q, start1, start2))
      {
        var checked := AuthorizeObjGroup(trace, request, directly[i], FULL, db, q);
        if checked.Failed? {
          return Some(Failed(checked.code));
        }
        var final := FinalCheck();
        if checked.value && final {
          return Some(Done(calcRightRes));
        }
      }
      StartInBudget(id);
      var walked := PrepareObjGroup(trace, request, id, FULL, 0, db, q, id);
      VisitBound(walkedGroups, visits, id);
      if walked.Failed? {
        return Some(Failed(walked.code));
      }
      var final := FinalCheck();
      if walked.value && final {
        return Some(Done(calcRightRes));
      }
      return None;
    }
  }

  // ----- following the reference walk

  /** With tracing the state is the one of the reference walk; without, it agrees with it. */
  predicate Tracks(q: Query, trace: Trace, st: WalkState, target: WalkState) {
    if trace.On() then st == target else Agrees(q, st, target)
  }

  lemma TracksSelf(q: Query, trace: Trace, st: WalkState)
    ensures Tracks(q, trace, st, st)
  {
  }

  lemma FoundTracks(q: Query, trace: Trace, st: WalkState, target: WalkState)
    ensures Tracks(q, trace, st, target) ==> Tracks(q, trace, st.(found := true), target.(found := true))
    ensures Over(q, st) ==> Over(q, st.(found := true))
  {
  }

  /** What is left of the loop over the entries leads from here to the target, or nothing can change any more. */
  ghost predicate OnTrack(
    q: Query, trace: Trace, uri: string, gs: seq<Right>, idx: nat, suffix: bool, access: Access, level: nat,
    st: WalkState, target: WalkState)
    requires idx <= |gs| && level <= MAX_LEVEL
  {
    Edges(q, uri, gs, idx, suffix, access, level, st) == target || (!trace.On() && Over(q, st) && Over(q, target))
  }

  lemma TrackStep(
    q: Query, trace: Trace, uri: string, gs: seq<Right>, idx: nat, suffix: bool, access: Access, level: nat,
    st: WalkState, st': WalkState, target: WalkState)
    requires idx < |gs| && level <= MAX_LEVEL
    requires OnTrack(q, trace, uri, gs, idx, suffix, access, level, st, target)
    requires var e := Enter(q, uri, gs, idx, suffix, access, level, st);
             if e.descend then Tracks(q, trace, st', Expand(q, gs[idx].id, gs[idx].access * access, level + 1, e.st))
             else st' == e.st
    ensures var e := Enter(q, uri, gs, idx, suffix, access, level, st);
            OnTrack(q, trace, uri, gs, idx + 1, e.suffix, access, level, st', target)
  {
    var e := Enter(q, uri, gs, idx, suffix, access, level, st);
    EnterGrows(q, uri, gs, idx, suffix, access, level, st);
    var below := e.st;
    if e.descend {
      below := Expand(q, gs[idx].id, gs[idx].access * access, level + 1, e.st);
      ExpandGrows(q, gs[idx].id, gs[idx].access * access, level + 1, e.st);
    }
    EdgesGrow(q, uri, gs, idx + 1, e.suffix, access, level, below);
  }

  lemma TrackOver(
    q: Query, trace: Trace, uri: string, gs: seq<Right>, idx: nat, suffix: bool, access: Access, level: nat,
    st: WalkState, target: WalkState)
    requires idx < |gs| && level <= MAX_LEVEL
    requires OnTrack(q, trace, uri, gs, idx, suffix, access, level, st, target)
    requires Over(q, Enter(q, uri, gs, idx, suffix, access, level, st).st)
    ensures Over(q, target)
  {
    var e := Enter(q, uri, gs, idx, suffix, access, level, st);
    var below := e.st;
    if e.descend {
      below := Expand(q, gs[idx].id, gs[idx].access * access, level + 1, e.st);
      ExpandGrows(q, gs[idx].id, gs[idx].access * access, level + 1, e.st);
    }
    EdgesGrow(q, uri, gs, idx + 1, e.suffix, access, level, below);
  }

  // ----- where the engine stops before the walk is through

  /**
   An entry of this very record grants the last of what was requested: the loop is left. What entries further down grant
   is collected, but their early ends are not passed on, so it never ends a loop above.
   */
  ghost predicate Completes(
    q: Query, uri: string, gs: seq<Right>, idx: nat, suffix: bool, access: Access, level: nat, st: WalkState)
    requires idx <= |gs| && level <= MAX_LEVEL
    decreases |gs| - idx
  {
    idx < |gs| && !(q.request <= st.granted)
    && var e := Enter(q, uri, gs, idx, suffix, access, level, st);
       || (e.descend && Over(q, e.st))
       || Completes(q, uri, gs, idx + 1, e.suffix, access, level,
                    if e.descend then Expand(q, gs[idx].id, gs[idx].access * access, level + 1, e.st) else e.st)
  }

  ghost predicate CompletesBelow(q: Query, uri: string, access: Access, level: nat, st: WalkState) {
    level <= MAX_LEVEL && q.groups(uri).Entries?
    && Completes(q, uri, q.groups(uri).rights, 0, false, access, level, st.(visits := st.visits + multiset{uri}))
  }

  predicate CompletedBy(q: Query, st: WalkState, st': WalkState) {
    !(q.request <= st.granted) && Over(q, st')
  }

  /** The last of what was requested is granted by all-resources, by the object itself, or by an entry of the object. */
  ghost predicate EndsEarly(q: Query, id: string, found: bool, granted: Access) {
    var st := WalkState(map[], found, granted, false, multiset{});
    var st1 := Check(q, st, q.named.allResources, FULL);
    var st2 := Check(q, st1, id, FULL);
    CompletedBy(q, st, st1) || CompletedBy(q, st1, st2) || CompletesBelow(q, id, FULL, 0, st2)
  }

  lemma CompletesHere(
    q: Query, uri: string, gs: seq<Right>, idx: nat, suffix: bool, access: Access, level: nat, st: WalkState)
    requires idx < |gs| && level <= MAX_LEVEL && !(q.request <= st.granted)
    requires var e := Enter(q, uri, gs, idx, suffix, access, level, st); e.descend && Over(q, e.st)
    ensures Completes(q, uri, gs, idx, suffix, access, level, st)
  {
    hide Enter;
  }

  lemma CompletesNowhere(
    q: Query, uri: string, gs: seq<Right>, suffix: bool, access: Access, level: nat, st: WalkState)
    requires level <= MAX_LEVEL
    ensures !Completes(q, uri, gs, |gs|, suffix, access, level, st)
  {
  }

  /** An entry that does not end the loop leaves the question to the entries behind it. */
  lemma CompletesLater(
    q: Query, trace: Trace, uri: string, gs: seq<Right>, idx: nat, suffix: bool, access: Access, level: nat, st: WalkState,
    st': WalkState)
    requires idx < |gs| && level <= MAX_LEVEL
    requires var e := Enter(q, uri, gs, idx, suffix, access, level, st);
             if e.descend then Tracks(q, trace, st', Expand(q, gs[idx].id, gs[idx].access * access, level + 1, e.st))
             else st' == e.st
    requires var e := Enter(q, uri, gs, idx, suffix, access, level, st);
             e.descend && Over(q, e.st) ==> q.request <= st.granted
    ensures var e := Enter(q, uri, gs, idx, suffix, access, level, st);
            Completes(q, uri, gs, idx + 1, e.suffix, access, level, st')
            == Completes(q, uri, gs, idx, suffix, access, level, st)
  {
    var e := Enter(q, uri, gs, idx, suffix, access, level, st);
    EnterGrows(q, uri, gs, idx, suffix, access, level, st);
    hide Enter;
    if e.descend {
      ExpandGrows(q, gs[idx].id, gs[idx].access * access, level + 1, e.st);
    }
  }

  /** What the memo says was checked has been collected. */
  ghost predicate Memo(q: Query, checkedGroups: map<string, Access>, granted: Access) {
    forall g :: g in checkedGroups ==> Grant(q, g, checkedGroups[g]) <= granted
  }

  lemma MemoEmpty(q: Query, granted: Access)
    ensures Memo(q, map[], granted)
  {
  }

  lemma MemoGives(q: Query, memo: map<string, Access>, granted: Access, group: string)
    requires Memo(q, memo, granted) && group in memo
    ensures Grant(q, group, memo[group]) <= granted
  {
  }

  lemma MemoKept(
    q: Query, memo: map<string, Access>, granted: Access, memo': map<string, Access>, granted': Access, group: string)
    requires Memo(q, memo, granted) && granted <= granted'
    requires forall g :: g in memo' && g != group ==> g in memo && memo'[g] == memo[g]
    requires group in memo' ==> (group in memo && memo'[group] == memo[group]) || Grant(q, group, memo'[group]) <= granted'
    ensures Memo(q, memo', granted')
  {
  }

  /** The first i permission flags. */
  function Below(i: nat): (flags: Access)
    requires i <= 4
    ensures flags <= FULL && (i == 4 ==> flags == FULL)
    ensures i < 4 ==> FLAGS[i] !in flags && FLAGS[i] in FULL
  {
    match i
    case 0 => {}
    case 1 => {Create}
    case 2 => {Create, Read}
    case 3 => {Create, Read, Update}
    case _ => {Create, Read, Update, Delete}
  }

  lemma {:induction false} PrefixGrows(q: Query, permissions: seq<Right>, k: nat, access: Access)
    requires k <= |permissions|
    ensures GrantPrefix(q, permissions, k, access) <= GrantPrefix(q, permissions, |permissions|, access)
    decreases |permissions| - k
  {
    if k < |permissions| {
      PrefixGrows(q, permissions, k + 1, access);
    }
  }

  // ----- filters

  /** The filter record of a resource: its first right, or the whole text when nothing decodes; too short means none. */
  function GetFilter(db: string -> Fetched, id: string): Option<(string, Access)> {
    match db(FILTER_PREFIX + id)
    case Missing(_) => None
    case Text(text, rights) =>
      if |text| < 3 then Some(("", {}))
      else if rights != [] then Some((rights[0].id, rights[0].access))
      else Some((text, {}))
  }

  /** The object and the groups its membership record names, where filters are looked for. */
  function FirstLevel(db: string -> Fetched, id: string): seq<string> {
    [id] + match db(MEMBERSHIP_PREFIX + id)
           case Missing(_) => []
           case Text(_, rights) => seq(|rights|, i requires 0 <= i < |rights| => rights[i].id)
  }

  /** The first resource with a filter record decides; ("", {}) when there is none. */
  function FirstFilter(db: string -> Fetched, ids: seq<string>): (string, Access) {
    if ids == [] then ("", {})
    else match GetFilter(db, ids[0])
         case Some(filter) => filter
         case None => FirstFilter(db, ids[1..])
  }

  function FilterOf(db: string -> Fetched, id: string): (string, Access) {
    FirstFilter(db, FirstLevel(db, id))
  }

  // ----- the answer

  function Subjects(db: string -> Fetched, user: string): Collected {
    GroupsOf(Memberships(db), user)
  }

  /** The question a pass asks: the user itself is a subject with full access. */
  function Asks(db: string -> Fetched, user: string, request: Access, filter: string): Query {
    var c := Subjects(db, user);
    Query(Memberships(db), Permissions(db, filter), NAMES, c.results[user := NewRight(user)], c.exclusive, request)
  }

  /** The answer a finished pass stands for. */
  function Answer(q: Query, st: WalkState): Access {
    if q.need ==> st.found then st.granted else {}
  }

  /** The reference answer without a filter: one pass, no tracing, no memo, no early exit. */
  function Verdict(db: string -> Fetched, id: string, user: string, request: Access): Access {
    var q := Asks(db, user, request, "");
    Answer(q, Pass(q, id, false, {}))
  }

  /** The first of the two passes made when a filter applies: only what the filter leaves to others is asked for. */
  function FirstPass(db: string -> Fetched, id: string, user: string, request: Access): (Query, WalkState) {
    var q := Asks(db, user, request * FilterOf(db, id).1, "");
    (q, Pass(q, id, false, {}))
  }

  /** The reference answer with a filter: a second pass over the filtered permissions adds to the first. */
  function FilteredVerdict(db: string -> Fetched, id: string, user: string, request: Access): Access {
    var (_, st) := FirstPass(db, id, user, request);
    var q := Asks(db, user, request, FilterOf(db, id).0);
    Answer(q, Pass(q, id, st.found, st.granted))
  }

  /** What a run with tracing answers: every pass that is begun is made to its end. */
  function TracedVerdict(db: string -> Fetched, id: string, user: string, request: Access): Access {
    if FilterOf(db, id).0 == "" then Verdict(db, id, user, request) else FilteredVerdict(db, id, user, request)
  }

  /** The first pass is enough for a run without tracing. */
  ghost predicate FirstPassEnds(db: string -> Fetched, id: string, user: string, request: Access) {
    FilterOf(db, id).0 != "" && EndsEarly(FirstPass(db, id, user, request).0, id, false, {})
  }

  /** What a run without tracing answers. */
  ghost function UntracedVerdict(db: string -> Fetched, id: string, user: string, request: Access): Access {
    if FirstPassEnds(db, id, user, request) then request * FilterOf(db, id).1 else TracedVerdict(db, id, user, request)
  }

  /** What to ask for in the first pass, and the filter of the second one, if any. */
  method ChooseFilter(db: string -> Fetched, id: string, request: Access)
    returns (requestWithFilter: Access, filterValue: string)
    ensures filterValue == FilterOf(db, id).0
    ensures requestWithFilter == if filterValue == "" then request else request * FilterOf(db, id).1
  {
    var firstLevel := FirstLevel(db, id);
    requestWithFilter, filterValue := request, "";
    var i := 0;
    while i < |firstLevel|
      invariant i <= |firstLevel| && requestWithFilter == request && filterValue == ""
      invariant FirstFilter(db, firstLevel[i..]) == FilterOf(db, id)
    {
      var filter := GetFilter(db, firstLevel[i]);
      if filter.Some? {
        filterValue := filter.value.0;
        if filterValue != "" {
          requestWithFilter := request * filter.value.1;
        }
        break;
      }
      i := i + 1;
    }
  }

  /** The final check, on a context in the state of a finished pass. */
  method Finish(azc: AzContext, ghost q: Query, ghost p: WalkState) returns (access: Access)
    requires azc.isNeedExclusive == q.need && azc.calcRightRes == p.granted && (q.need ==> azc.isFoundExclusive == p.found)
    ensures access == Answer(q, p)
  {
    var final := azc.FinalCheck();
    access := if final then azc.calcRightRes else {};
  }

  /** The pass over the filtered permissions, which goes on from what the first pass left. */
  method SecondPass(
    azc: AzContext, id: string, request: Access, db: string -> Fetched, trace: Trace, ghost q: Query, ghost p1: WalkState)
    returns (r: Outcome<Access>)
    requires q == azc.Question(db, request) && p1.granted <= request
    requires azc.calcRightRes == p1.granted && (q.need ==> azc.isFoundExclusive == p1.found)
    modifies azc
    ensures r.Done? ==> r.value == Answer(q, Pass(q, id, p1.found, p1.granted))
    ensures r.Failed? ==> exists key :: db(key) == Missing(r.code) && r.code < 0
  {
    hide Pass;
    hide EndsEarly;
    hide Memberships;
    hide Permissions;
    hide Tracks;
    hide Over;
    hide Answer;
    azc.checkedGroups, azc.walkedGroups, azc.cut, azc.visits := map[], map[], false, multiset{};
    ghost var found := azc.isFoundExclusive;
    ghost var p := Pass(q, id, found, p1.granted);
    FoundIrrelevant(q, id, found, p1.found, p1.granted);
    PassWithin(q, id, found, p1.granted);
    OverAnswers(q, p);
    var second := azc.AuthorizeObjGroups(id, request, db, trace, q);
    if second.Some? {
      return second.value;
    }
    TracksAnswers(q, trace, azc.State(), p);
    var access := Finish(azc, q, p);
    return Done(access);
  }

  /** The two passes and the final check, on a context that has just been set up. */
  method RunPasses(
    azc: AzContext, id: string, request: Access, requestWithFilter: Access, filterValue: string, db: string -> Fetched,
    trace: Trace, ghost q1: Query, ghost q2: Query)
    returns (r: Outcome<Access>)
    requires azc.State() == WalkState(map[], false, {}, false, multiset{})
    requires azc.checkedGroups == map[] && azc.filterValue == "" && requestWithFilter <= request
    requires q1 == azc.Question(db, requestWithFilter)
    requires q2 == q1.(acl := Permissions(db, filterValue), request := request)
    modifies azc
    ensures var p1 := Pass(q1, id, false, {});
            var p2 := Pass(q2, id, p1.found, p1.granted);
            r.Done? ==> r.value == if filterValue == "" then Answer(q1, p1)
                                   else if !trace.On() && EndsEarly(q1, id, false, {}) then requestWithFilter
                                   else Answer(q2, p2)
    ensures r.Failed? ==> exists key :: db(key) == Missing(r.code) && r.code < 0
  {
    hide Pass;
    hide EndsEarly;
    hide Memberships;
    hide Permissions;
    hide Tracks;
    hide Over;
    hide Answer;
    ghost var p1 := Pass(q1, id, false, {});
    PassWithin(q1, id, false, {});
    OverAnswers(q1, p1);
    var first := azc.AuthorizeObjGroups(id, requestWithFilter, db, trace, q1);
    if first.Some? {
      return first.value;
    }
    TracksAnswers(q1, trace, azc.State(), p1);
    azc.filterValue := filterValue;
    if azc.filterValue != "" {
      r := SecondPass(azc, id, request, db, trace, q2, p1);
    } else {
      var access := Finish(azc, q1, p1);
      r := Done(access);
    }
  }

  /** A state past which nothing can change answers with all that was asked for. */
  lemma OverAnswers(q: Query, st: WalkState)
    requires st.granted <= q.request
    ensures Over(q, st) ==> Answer(q, st) == q.request
  {
  }

  lemma TracksAnswers(q: Query, trace: Trace, st: WalkState, target: WalkState)
    requires Tracks(q, trace, st, target) && st.granted <= q.request && target.granted <= q.request
    ensures st.granted == target.granted && (q.need ==> st.found == target.found) && Answer(q, st) == Answer(q, target)
  {
  }

  /** A pass never grants more than was asked for. */
  lemma PassWithin(q: Query, id: string, found: bool, granted: Access)
    requires granted <= q.request
    ensures Pass(q, id, found, granted).granted <= q.request
  {
    forall f | f in Pass(q, id, found, granted).granted ensures f in q.request {
      PassSound(q, id, found, granted, f);
    }
  }

  /**
   The entry point. Without a filter the answer is the reference answer, whatever is traced. With a filter a run without
   tracing answers what its first pass asked for just when that pass ends early, and the reference answer otherwise.
   */
  method Authorize(id: string, user: string, request: Access, db: string -> Fetched, trace: Trace)
    returns (r: Outcome<Access>)
    ensures r.Done? ==>
      r.value == if trace.On() then TracedVerdict(db, id, user, request) else UntracedVerdict(db, id, user, request)
    ensures r.Failed? ==> exists key :: db(key) == Missing(r.code) && r.code < 0
  {
    var collector := new Collector();
    var collected := collector.GetResourceGroups(db, user, FULL, 0, false);
    if collected.Failed? {
      return Failed(collected.code);
    }
    ghost var c := Subjects(db, user);
    assert collector.View() == c;
    hide *;
    var azc := new AzContext(NAMES, collector.results[user := NewRight(user)], collector.exclusive);
    var requestWithFilter, filterValue := ChooseFilter(db, id, request);
    ghost var q1, q2 := Asks(db, user, requestWithFilter, ""), Asks(db, user, request, filterValue);
    r := RunPasses(azc, id, request, requestWithFilter, filterValue, db, trace, q1, q2);
  }

  // ----- outside exclusive mode the found flag changes nothing else

  predicate SameButFound(a: WalkState, b: WalkState) {
    a.(found := b.found) == b
  }

  lemma EnterSameButFound(
    q: Query, uri: string, gs: seq<Right>, idx: nat, suffix: bool, access: Access, level: nat, a: WalkState, b: WalkState)
    requires idx < |gs| && !q.need && SameButFound(a, b)
    ensures var e, f := Enter(q, uri, gs, idx, suffix, access, level, a), Enter(q, uri, gs, idx, suffix, access, level, b);
            e.suffix == f.suffix && e.descend == f.descend && SameButFound(e.st, f.st)
  {
    hide Grant;
  }

  lemma EdgesSameButFound(
    q: Query, uri: string, gs: seq<Right>, idx: nat, suffix: bool, access: Access, level: nat, a: WalkState, b: WalkState)
    requires idx <= |gs| && level <= MAX_LEVEL && !q.need && SameButFound(a, b)
    ensures SameButFound(Edges(q, uri, gs, idx, suffix, access, level, a), Edges(q, uri, gs, idx, suffix, access, level, b))
    decreases MAX_LEVEL + 1 - level, 0, 0, |gs| - idx
  {
    if idx < |gs| {
      EnterSameButFound(q, uri, gs, idx, suffix, access, level, a, b);
      var e, f := Enter(q, uri, gs, idx, suffix, access, level, a), Enter(q, uri, gs, idx, suffix, access, level, b);
      hide Enter;
      var a', b' := e.st, f.st;
      if e.descend {
        var group, mask := gs[idx].id, gs[idx].access * access;
        ExpandSameButFound(q, group, mask, level + 1, e.st, f.st);
        a', b' := Expand(q, group, mask, level + 1, e.st), Expand(q, group, mask, level + 1, f.st);
      }
      EdgesSameButFound(q, uri, gs, idx + 1, e.suffix, access, level, a', b');
    }
  }

  lemma ExpandSameButFound(q: Query, uri: string, access: Access, level: nat, a: WalkState, b: WalkState)
    requires !q.need && SameButFound(a, b)
    ensures SameButFound(Expand(q, uri, access, level, a), Expand(q, uri, access, level, b))
    decreases MAX_LEVEL + 1 - level, 0, 1
  {
    if level <= MAX_LEVEL && q.groups(uri).Entries? {
      EdgesSameButFound(q, uri, q.groups(uri).rights, 0, false, access, level,
                        a.(visits := a.visits + multiset{uri}), b.(visits := b.visits + multiset{uri}));
    }
  }

  lemma FoundIrrelevant(q: Query, id: string, found: bool, found': bool, granted: Access)
    requires q.need ==> found == found'
    ensures Answer(q, Pass(q, id, found, granted)) == Answer(q, Pass(q, id, found', granted))
    ensures Over(q, Pass(q, id, found, granted)) == Over(q, Pass(q, id, found', granted))
  {
    if !q.need {
      var a := WalkState(map[], found, granted, false, multiset{});
      var b := WalkState(map[], found', granted, false, multiset{});
      ExpandSameButFound(q, id, FULL, 0, Check(q, Check(q, a, q.named.allResources, FULL), id, FULL),
                         Check(q, Check(q, b, q.named.allResources, FULL), id, FULL));
    }
  }

  // ----- what the answer means

  /** Exclusive access, when the subject is in an exclusive group, needs an exclusive reason on the side of the object. */
  ghost predicate Admitted(q: Query, id: string) {
    q.need ==> ExclusiveReason(q, id)
  }

  /**
   The central theorem. Unless a call was cut by the level guard, a flag is in the answer exactly when it was requested,
   some group in reach along entries that all carry it grants it to a group of the subject, and exclusive access admits it.
   */
  lemma VerdictExact(db: string -> Fetched, id: string, user: string, request: Access, flag: Flag)
    requires var q := Asks(db, user, request, ""); !Pass(q, id, false, {}).cut
    ensures var q := Asks(db, user, request, "");
            flag in Verdict(db, id, user, request) <==> Justified(q, id, flag) && Admitted(q, id)
  {
    hide Pass;
    hide Justified;
    hide ExclusiveReason;
    var q := Asks(db, user, request, "");
    PassExact(q, id, false, {}, flag);
    if q.need {
      PassExclusive(q, id, false, {});
    }
  }

  /** The same without mention of the guard, for objects with at most 32 groups in reach. */
  lemma VerdictExactForFewGroups(
    db: string -> Fetched, id: string, user: string, request: Access, flag: Flag, groups: set<string>)
    requires var q := Asks(db, user, request, ""); ClosedUnder(q, id, groups) && |groups| <= 32
    ensures var q := Asks(db, user, request, "");
            flag in Verdict(db, id, user, request) <==> Justified(q, id, flag) && Admitted(q, id)
  {
    FewGroupsUncut(Asks(db, user, request, ""), id, false, {}, groups);
    VerdictExact(db, id, user, request, flag);
  }

  /** And for objects whose groups are acyclic and at most 32 deep. */
  lemma VerdictExactForShallow(
    db: string -> Fetched, id: string, user: string, request: Access, flag: Flag, rank: string -> nat)
    requires RankedGroups(Asks(db, user, request, ""), rank) && rank(id) <= 32
    ensures var q := Asks(db, user, request, "");
            flag in Verdict(db, id, user, request) <==> Justified(q, id, flag) && Admitted(q, id)
  {
    ShallowObjectUncut(Asks(db, user, request, ""), id, false, {}, rank);
    VerdictExact(db, id, user, request, flag);
  }

  /** With a filter the answer joins what is granted to all, cut down to what the filter leaves to others, and to the filter. */
  lemma FilteredVerdictExact(db: string -> Fetched, id: string, user: string, request: Access, flag: Flag)
    requires var (q1, p1) := FirstPass(db, id, user, request);
             !p1.cut && !Pass(Asks(db, user, request, FilterOf(db, id).0), id, p1.found, p1.granted).cut
    ensures var q1 := Asks(db, user, request * FilterOf(db, id).1, "");
            var q2 := Asks(db, user, request, FilterOf(db, id).0);
            flag in FilteredVerdict(db, id, user, request) <==>
            (Justified(q1, id, flag) || Justified(q2, id, flag))
            && (q2.need ==> ExclusiveReason(q1, id) || ExclusiveReason(q2, id))
  {
    hide Pass;
    hide Justified;
    hide ExclusiveReason;
    var (q1, p1) := FirstPass(db, id, user, request);
    var q2 := Asks(db, user, request, FilterOf(db, id).0);
    PassExact(q1, id, false, {}, flag);
    PassExact(q2, id, p1.found, p1.granted, flag);
    if q2.need {
      PassExclusive(q1, id, false, {});
      PassExclusive(q2, id, p1.found, p1.granted);
    }
  }

  /** Tracing is transparent: without a filter two runs that both end give one answer, whatever each of them traces. */
  method AuthorizeTwice(id: string, user: string, request: Access, db: string -> Fetched, trace: Trace, trace': Trace)
    returns (r: Outcome<Access>, r': Outcome<Access>)
    requires FilterOf(db, id).0 == ""
    ensures r.Done? && r'.Done? ==> r == r'
  {
    r := Authorize(id, user, request, db, trace);
    r' := Authorize(id, user, request, db, trace');
  }
}
