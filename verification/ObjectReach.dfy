/** What the reference walk computes: plain per-flag reachability in the membership graph. */
module ObjectReach {
  import opened Access
  import opened Rights
  import opened ObjectWalk

  // ----- the specification

  /** A membership entry of `from` that leads to `to` and carries the mark. */
  ghost predicate Step(q: Query, mark: Mark, from: string, to: string) {
    q.groups(from).Entries? && exists g :: g in q.groups(from).rights && Follows(g, mark, to)
  }

  predicate Follows(g: Right, mark: Mark, to: string) {
    g.id == to && to != "" && g.marker != IS_EXCLUSIVE && Carries(g.access, mark)
  }

  ghost predicate IsPath(q: Query, mark: Mark, from: string, to: string, path: seq<string>) {
    |path| > 0 && path[0] == from && path[|path| - 1] == to
    && forall i | 0 <= i < |path| - 1 :: Step(q, mark, path[i], path[i + 1])
  }

  ghost predicate Reachable(q: Query, mark: Mark, from: string, to: string) {
    exists path :: IsPath(q, mark, from, to, path)
  }

  /** Reachable by at most n membership entries. */
  ghost predicate ReachableWithin(q: Query, mark: Mark, from: string, to: string, n: nat) {
    exists path :: IsPath(q, mark, from, to, path) && |path| <= n + 1
  }

  lemma ExtendPath(q: Query, mark: Mark, from: string, mid: string, to: string, n: nat)
    requires ReachableWithin(q, mark, from, mid, n) && Step(q, mark, mid, to)
    ensures ReachableWithin(q, mark, from, to, n + 1)
  {
    var path :| IsPath(q, mark, from, mid, path) && |path| <= n + 1;
    assert IsPath(q, mark, from, to, path + [to]);
  }

  // ----- facts kept by every step of the walk

  /** The group was walked, and the mark is among the rights it was walked with. */
  predicate In(st: WalkState, group: string, mark: Mark) {
    group in st.walked && Carries(st.walked[group], mark)
  }

  ghost predicate Grows(st: WalkState, st': WalkState) {
    && (forall g :: g in st.walked ==> g in st'.walked && st.walked[g] <= st'.walked[g])
    && st.granted <= st'.granted
    && (st.found ==> st'.found)
    && (st.cut ==> st'.cut)
  }

  /** An entry adds no pair but its own group with the marks of its mask, and adds those unless it is skipped. */
  lemma EnterIn(
    q: Query, uri: string, gs: seq<Right>, idx: nat, suffix: bool, access: Access, level: nat, st: WalkState,
    h: string, m: Mark)
    requires idx < |gs|
    ensures var g := gs[idx];
            In(Enter(q, uri, gs, idx, suffix, access, level, st).st, h, m) <==>
            In(st, h, m)
            || (g.id != "" && g.marker != IS_EXCLUSIVE && h == g.id && Carries(g.access * access, m))
  {
  }

  lemma EnterGrows(q: Query, uri: string, gs: seq<Right>, idx: nat, suffix: bool, access: Access, level: nat, st: WalkState)
    requires idx < |gs|
    ensures Grows(st, Enter(q, uri, gs, idx, suffix, access, level, st).st)
  {
  }

  lemma EdgesGrow(q: Query, uri: string, gs: seq<Right>, idx: nat, suffix: bool, access: Access, level: nat, st: WalkState)
    requires idx <= |gs| && level <= MAX_LEVEL
    ensures Grows(st, Edges(q, uri, gs, idx, suffix, access, level, st))
    decreases MAX_LEVEL + 1 - level, 0, 0, |gs| - idx
  {
    if idx < |gs| {
      var e := Enter(q, uri, gs, idx, suffix, access, level, st);
      EnterGrows(q, uri, gs, idx, suffix, access, level, st);
      var st' := e.st;
      if e.descend {
        st' := Expand(q, gs[idx].id, gs[idx].access * access, level + 1, e.st);
        ExpandGrows(q, gs[idx].id, gs[idx].access * access, level + 1, e.st);
      }
      EdgesGrow(q, uri, gs, idx + 1, e.suffix, access, level, st');
    }
  }

  lemma ExpandGrows(q: Query, uri: string, access: Access, level: nat, st: WalkState)
    ensures Grows(st, Expand(q, uri, access, level, st))
    decreases MAX_LEVEL + 1 - level, 0, 1
  {
    if level <= MAX_LEVEL && q.groups(uri).Entries? {
      EdgesGrow(q, uri, q.groups(uri).rights, 0, false, access, level, st.(visits := st.visits + multiset{uri}));
    }
  }

  // ----- soundness: whatever the walk collects is justified by a path of at most 33 entries, guard or no guard

  /** Some group in reach grants the requested flag, along entries that all carry it. */
  ghost predicate Justified(q: Query, id: string, flag: Flag) {
    flag in q.request
    && (GrantedAt(q, q.named.allResources, flag)
        || exists group :: Reachable(q, Has(flag), id, group) && GrantedAt(q, group, flag))
  }

  ghost predicate JustifiedWithin(q: Query, id: string, flag: Flag, n: nat) {
    flag in q.request
    && (GrantedAt(q, q.named.allResources, flag)
        || exists group :: ReachableWithin(q, Has(flag), id, group, n) && GrantedAt(q, group, flag))
  }

  ghost predicate Sound(q: Query, id: string, before: Access, st: WalkState) {
    && (forall g, m :: In(st, g, m) ==> ReachableWithin(q, m, id, g, MAX_LEVEL + 1))
    && (forall f :: f in st.granted ==> f in before || JustifiedWithin(q, id, f, MAX_LEVEL + 1))
  }

  lemma Loosen(q: Query, m: Mark, from: string, to: string, n: nat, n': nat)
    requires ReachableWithin(q, m, from, to, n) && n <= n'
    ensures ReachableWithin(q, m, from, to, n')
  {
  }

  lemma EnterSound(
    q: Query, id: string, before: Access, uri: string, gs: seq<Right>, idx: nat, suffix: bool, access: Access, level: nat,
    st: WalkState)
    requires idx < |gs| && level <= MAX_LEVEL && q.groups(uri) == Entries(gs)
    requires Sound(q, id, before, st) && forall m :: Carries(access, m) ==> ReachableWithin(q, m, id, uri, level)
    ensures Sound(q, id, before, Enter(q, uri, gs, idx, suffix, access, level, st).st)
    ensures gs[idx].id != "" && gs[idx].marker != IS_EXCLUSIVE ==>
              forall m :: Carries(gs[idx].access * access, m) ==> ReachableWithin(q, m, id, gs[idx].id, level + 1)
  {
    var e := Enter(q, uri, gs, idx, suffix, access, level, st).st;
    var g := gs[idx];
    forall h, m | In(e, h, m)
      ensures In(st, h, m)
              || (g.id != "" && g.marker != IS_EXCLUSIVE && h == g.id && Carries(g.access * access, m))
    {
      EnterIn(q, uri, gs, idx, suffix, access, level, st, h, m);
    }
    if g.id != "" && g.marker != IS_EXCLUSIVE {
      forall m | Carries(g.access * access, m)
        ensures ReachableWithin(q, m, id, g.id, level + 1) && ReachableWithin(q, m, id, g.id, MAX_LEVEL + 1)
      {
        assert Follows(g, m, g.id);
        ExtendPath(q, m, id, uri, g.id, level);
        Loosen(q, m, id, g.id, level + 1, MAX_LEVEL + 1);
      }
      forall f | f in Grant(q, g.id, g.access * access) ensures JustifiedWithin(q, id, f, MAX_LEVEL + 1) {
        GrantFlag(q, g.id, g.access * access, f);
        assert Carries(g.access * access, Has(f));
      }
    }
  }

  lemma EdgesSound(
    q: Query, id: string, before: Access, uri: string, gs: seq<Right>, idx: nat, suffix: bool, access: Access, level: nat,
    st: WalkState)
    requires idx <= |gs| && level <= MAX_LEVEL && q.groups(uri) == Entries(gs)
    requires Sound(q, id, before, st) && forall m :: Carries(access, m) ==> ReachableWithin(q, m, id, uri, level)
    ensures Sound(q, id, before, Edges(q, uri, gs, idx, suffix, access, level, st))
    decreases MAX_LEVEL + 1 - level, 0, 0, |gs| - idx
  {
    if idx < |gs| {
      var e := Enter(q, uri, gs, idx, suffix, access, level, st);
      EnterSound(q, id, before, uri, gs, idx, suffix, access, level, st);
      var st' := e.st;
      if e.descend {
        st' := Expand(q, gs[idx].id, gs[idx].access * access, level + 1, e.st);
        ExpandSound(q, id, before, gs[idx].id, gs[idx].access * access, level + 1, e.st);
      }
      EdgesSound(q, id, before, uri, gs, idx + 1, e.suffix, access, level, st');
    }
  }

  lemma ExpandSound(q: Query, id: string, before: Access, uri: string, access: Access, level: nat, st: WalkState)
    requires Sound(q, id, before, st) && forall m :: Carries(access, m) ==> ReachableWithin(q, m, id, uri, level)
    ensures Sound(q, id, before, Expand(q, uri, access, level, st))
    decreases MAX_LEVEL + 1 - level, 0, 1
  {
    if level <= MAX_LEVEL && q.groups(uri).Entries? {
      var st0 := st.(visits := st.visits + multiset{uri});
      assert Sound(q, id, before, st0) by {
        assert forall g, m :: In(st0, g, m) ==> In(st, g, m);
      }
      var gs := q.groups(uri).rights;
      EdgesSound(q, id, before, uri, gs, 0, false, access, level, st0);
      SoundKept(q, id, before, Edges(q, uri, gs, 0, false, access, level, st0), Expand(q, uri, access, level, st));
    } else {
      SoundKept(q, id, before, st, Expand(q, uri, access, level, st));
    }
  }

  lemma SoundKept(q: Query, id: string, before: Access, st: WalkState, st': WalkState)
    requires Sound(q, id, before, st) && st'.walked == st.walked && st'.granted == st.granted
    ensures Sound(q, id, before, st')
  {
    assert forall g, m :: In(st', g, m) ==> In(st, g, m);
  }

  // ----- completeness: unless a call was cut, every pair (group, mark) in reach is walked and its grants are collected

  /** What the group grants for this mark has been collected. */
  ghost predicate Checked(q: Query, st: WalkState, g: string, m: Mark) {
    m.Has? && m.flag in q.request && GrantedAt(q, g, m.flag) ==> m.flag in st.granted
  }

  /** Every entry of the group that carries the mark has been walked with it. */
  ghost predicate Settled(q: Query, st: WalkState, g: string, m: Mark) {
    q.groups(g).Entries? ==>
      forall e :: e in q.groups(g).rights && Follows(e, m, e.id) && e.id != g ==> In(st, e.id, m)
  }

  /** The pairs one call of Expand is still working on. */
  ghost function Frame(uri: string, access: Access): iset<(string, Mark)> {
    iset m: Mark | Carries(access, m) :: (uri, m)
  }

  /** Every walked pair is checked, and settled unless a call in progress still works on it. */
  ghost predicate Covered(q: Query, st: WalkState, open: iset<(string, Mark)>) {
    forall g, m :: In(st, g, m) ==> Checked(q, st, g, m) && ((g, m) in open || Settled(q, st, g, m))
  }

  lemma Persist(q: Query, st: WalkState, st': WalkState, g: string, m: Mark)
    requires Grows(st, st')
    ensures Checked(q, st, g, m) ==> Checked(q, st', g, m)
    ensures Settled(q, st, g, m) ==> Settled(q, st', g, m)
  {
  }

  /** The first idx entries of uri have been walked with every mark of the access. */
  ghost predicate Handled(st: WalkState, uri: string, gs: seq<Right>, idx: nat, access: Access)
    requires idx <= |gs|
  {
    forall k, m | 0 <= k < idx && Carries(access, m) && Follows(gs[k], m, gs[k].id) && gs[k].id != uri ::
      In(st, gs[k].id, m)
  }

  lemma EnterCovers(
    q: Query, uri: string, gs: seq<Right>, idx: nat, suffix: bool, access: Access, level: nat, st: WalkState,
    open: iset<(string, Mark)>)
    requires idx < |gs|
    requires Covered(q, st, open + Frame(uri, access)) && Handled(st, uri, gs, idx, access)
    requires forall m :: Carries(access, m) ==> Checked(q, st, uri, m)
    ensures var e := Enter(q, uri, gs, idx, suffix, access, level, st);
            var group := gs[idx];
            && Handled(e.st, uri, gs, idx + 1, access)
            && (forall m :: Carries(access, m) ==> Checked(q, e.st, uri, m))
            && (if e.descend then
                  Covered(q, e.st, open + Frame(uri, access) + Frame(group.id, group.access * access))
                  && forall m :: Carries(group.access * access, m) ==> Checked(q, e.st, group.id, m)
                else Covered(q, e.st, open + Frame(uri, access)))
  {
    var e := Enter(q, uri, gs, idx, suffix, access, level, st);
    var group := gs[idx];
    var mask := group.access * access;
    EnterGrows(q, uri, gs, idx, suffix, access, level, st);
    forall m | Carries(access, m) ensures Checked(q, e.st, uri, m) {
      Persist(q, st, e.st, uri, m);
    }
    if e.descend {
      forall m | Carries(mask, m) ensures Checked(q, e.st, group.id, m) {
        if m.Has? {
          GrantFlag(q, group.id, mask, m.flag);
        }
      }
    }
    forall g, m | In(e.st, g, m)
      ensures Checked(q, e.st, g, m)
      ensures (g, m) in open + Frame(uri, access) || (e.descend && (g, m) in Frame(group.id, mask)) || Settled(q, e.st, g, m)
    {
      EnterIn(q, uri, gs, idx, suffix, access, level, st, g, m);
      Persist(q, st, e.st, g, m);
    }
    forall k, m | 0 <= k < idx + 1 && Carries(access, m) && Follows(gs[k], m, gs[k].id) && gs[k].id != uri
      ensures In(e.st, gs[k].id, m)
    {
      EnterIn(q, uri, gs, idx, suffix, access, level, st, gs[k].id, m);
    }
  }

  lemma EdgesCover(
    q: Query, uri: string, gs: seq<Right>, idx: nat, suffix: bool, access: Access, level: nat, st: WalkState,
    open: iset<(string, Mark)>)
    requires idx <= |gs| && level <= MAX_LEVEL
    requires Covered(q, st, open + Frame(uri, access)) && Handled(st, uri, gs, idx, access)
    requires forall m :: Carries(access, m) ==> Checked(q, st, uri, m)
    ensures var st' := Edges(q, uri, gs, idx, suffix, access, level, st);
            st'.cut || (Covered(q, st', open + Frame(uri, access)) && Handled(st', uri, gs, |gs|, access))
    decreases MAX_LEVEL + 1 - level, 0, 0, |gs| - idx
  {
    if idx < |gs| {
      var e := Enter(q, uri, gs, idx, suffix, access, level, st);
      EnterCovers(q, uri, gs, idx, suffix, access, level, st, open);
      var st' := e.st;
      if e.descend {
        var mask := gs[idx].access * access;
        st' := Expand(q, gs[idx].id, mask, level + 1, e.st);
        ExpandCovers(q, gs[idx].id, mask, level + 1, e.st, open + Frame(uri, access));
        ExpandGrows(q, gs[idx].id, mask, level + 1, e.st);
        forall m | Carries(access, m) ensures Checked(q, st', uri, m) {
          Persist(q, e.st, st', uri, m);
        }
      }
      EdgesGrow(q, uri, gs, idx + 1, e.suffix, access, level, st');
      if !st'.cut {
        EdgesCover(q, uri, gs, idx + 1, e.suffix, access, level, st', open);
      }
    }
  }

  lemma ExpandCovers(
    q: Query, uri: string, access: Access, level: nat, st: WalkState, open: iset<(string, Mark)>)
    requires Covered(q, st, open + Frame(uri, access))
    requires forall m :: Carries(access, m) ==> Checked(q, st, uri, m)
    ensures var st' := Expand(q, uri, access, level, st);
            st'.cut || (Covered(q, st', open) && forall m :: Carries(access, m) ==> Settled(q, st', uri, m))
    decreases MAX_LEVEL + 1 - level, 0, 1
  {
    var st' := Expand(q, uri, access, level, st);
    if level <= MAX_LEVEL {
      var st0 := st.(visits := st.visits + multiset{uri});
      CoveredKept(q, st, st0, open + Frame(uri, access));
      if q.groups(uri).Entries? {
        var gs := q.groups(uri).rights;
        var st1 := Edges(q, uri, gs, 0, false, access, level, st0);
        EdgesCover(q, uri, gs, 0, false, access, level, st0, open);
        if !st1.cut {
          CoveredKept(q, st1, st', open + Frame(uri, access));
          forall m | Carries(access, m) ensures Settled(q, st', uri, m) {
            assert forall e :: e in gs && Follows(e, m, e.id) && e.id != uri ==> In(st1, e.id, m);
          }
        }
      } else {
        CoveredKept(q, st0, st', open + Frame(uri, access));
      }
    }
  }

  lemma CoveredKept(q: Query, st: WalkState, st': WalkState, open: iset<(string, Mark)>)
    requires Covered(q, st, open) && st'.walked == st.walked && st'.granted == st.granted
    ensures Covered(q, st', open)
  {
    forall g, m | In(st', g, m) ensures Checked(q, st', g, m) && ((g, m) in open || Settled(q, st', g, m)) {
      assert In(st, g, m);
    }
  }

  // ----- one pass over the groups of an object, and what it grants

  /** The pass: all-resources group, the object itself, then the walk from the object. */
  function Pass(q: Query, id: string, found: bool, granted: Access): WalkState {
    var st := WalkState(map[], found, granted, false, multiset{});
    Expand(q, id, FULL, 0, Check(q, Check(q, st, q.named.allResources, FULL), id, FULL))
  }

  lemma PathWalked(q: Query, st: WalkState, m: Mark, id: string, to: string, path: seq<string>)
    requires IsPath(q, m, id, to, path)
    requires Covered(q, st, iset{}) && Settled(q, st, id, m)
    ensures to == id || In(st, to, m)
    decreases |path|
  {
    if |path| > 1 {
      var mid := path[|path| - 2];
      var prefix := path[..|path| - 1];
      forall i | 0 <= i < |prefix| - 1 ensures Step(q, m, prefix[i], prefix[i + 1]) {
        assert Step(q, m, path[i], path[i + 1]);
      }
      PathWalked(q, st, m, id, mid, prefix);
      assert Step(q, m, mid, path[|path| - 2 + 1]);
      assert Settled(q, st, mid, m);
    }
  }

  lemma PassSound(q: Query, id: string, found: bool, granted: Access, flag: Flag)
    requires flag in Pass(q, id, found, granted).granted
    ensures flag in granted || JustifiedWithin(q, id, flag, 33)
  {
    var st := WalkState(map[], found, granted, false, multiset{});
    var st2 := Check(q, Check(q, st, q.named.allResources, FULL), id, FULL);
    forall m, n: nat ensures ReachableWithin(q, m, id, id, n) {
      assert IsPath(q, m, id, id, [id]);
    }
    forall f | f in st2.granted ensures f in granted || JustifiedWithin(q, id, f, MAX_LEVEL + 1) {
      GrantFlag(q, q.named.allResources, FULL, f);
      GrantFlag(q, id, FULL, f);
    }
    ExpandSound(q, id, granted, id, FULL, 0, st2);
  }

  lemma PassCovered(q: Query, id: string, found: bool, granted: Access)
    requires !Pass(q, id, found, granted).cut
    ensures var st' := Pass(q, id, found, granted);
            && granted <= st'.granted
            && Covered(q, st', iset{})
            && (forall m :: Carries(FULL, m) ==> Settled(q, st', id, m) && Checked(q, st', id, m))
            && (forall m :: Carries(FULL, m) ==> Checked(q, st', q.named.allResources, m))
  {
    var st := WalkState(map[], found, granted, false, multiset{});
    var st1 := Check(q, st, q.named.allResources, FULL);
    var st2 := Check(q, st1, id, FULL);
    var st' := Pass(q, id, found, granted);
    forall m | Carries(FULL, m)
      ensures Checked(q, st2, id, m) && Checked(q, st1, q.named.allResources, m)
    {
      if m.Has? {
        GrantFlag(q, id, FULL, m.flag);
        GrantFlag(q, q.named.allResources, FULL, m.flag);
      }
    }
    ExpandCovers(q, id, FULL, 0, st2, iset{});
    ExpandGrows(q, id, FULL, 0, st2);
    forall m | Carries(FULL, m) ensures Checked(q, st', id, m) && Checked(q, st', q.named.allResources, m) {
      Persist(q, st2, st', id, m);
      Persist(q, st1, st', q.named.allResources, m);
    }
  }

  /**
   The central fact: unless a call was cut by the level guard, a pass grants a flag exactly when it was requested and some
   group in reach along entries that all carry it grants it.
   */
  lemma PassExact(q: Query, id: string, found: bool, granted: Access, flag: Flag)
    requires !Pass(q, id, found, granted).cut
    ensures flag in Pass(q, id, found, granted).granted <==> flag in granted || Justified(q, id, flag)
  {
    if flag in Pass(q, id, found, granted).granted {
      PassSound(q, id, found, granted, flag);
    }
    PassCovered(q, id, found, granted);
    hide Pass;
    hide Covered;
    if Justified(q, id, flag) {
      PassComplete(q, id, Pass(q, id, found, granted), flag);
    }
  }

  /** Where every walked pair is checked and settled, whatever is justified is granted. */
  lemma PassComplete(q: Query, id: string, st: WalkState, flag: Flag)
    requires Covered(q, st, iset{}) && Justified(q, id, flag)
    requires forall m :: Carries(FULL, m) ==>
               Settled(q, st, id, m) && Checked(q, st, id, m) && Checked(q, st, q.named.allResources, m)
    ensures flag in st.granted
  {
    hide Settled;
    if GrantedAt(q, q.named.allResources, flag) {
      assert flag in FULL && Checked(q, st, q.named.allResources, Has(flag));
    } else {
      var group :| Reachable(q, Has(flag), id, group) && GrantedAt(q, group, flag);
      var path :| IsPath(q, Has(flag), id, group, path);
      assert flag in FULL && Checked(q, st, id, Has(flag));
      PathWalked(q, st, Has(flag), id, group, path);
      assert Checked(q, st, group, Has(flag));
    }
  }
}
