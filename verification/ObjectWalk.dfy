/**
 The reference walk over the groups of an object: no tracing, no memo of checked groups, no early exit. It keeps the two
 things that bound the real walk, the pruning of groups already walked with the same rights and the level guard.
 The lemmas say what this walk computes.
 */
module ObjectWalk {
  import opened Access
  import opened Rights

  /** One authorization question: the records in view, the groups of the subject and the requested flags. */
  datatype Query = Query(
    groups: string -> Record, acl: string -> Record, named: Naming,
    subjects: map<string, Right>, need: bool, request: Access)

  /** The names the engine knows about: the group of everything, and two tests that exclusive access looks at. */
  datatype Naming = Naming(allResources: string, suffixed: string -> bool, ttl: string -> bool)

  datatype WalkState = WalkState(
    walked: map<string, Access>, found: bool, granted: Access, cut: bool, visits: multiset<string>)

  // ----- one group

  function Contribution(q: Query, p: Right, access: Access): Access {
    if p.id in q.subjects then
      q.request * access * q.subjects[p.id].access * Effective(p.access) * FULL
    else {}
  }

  /** The flags granted by the first k permissions of a group under an object mask. */
  function GrantPrefix(q: Query, permissions: seq<Right>, k: nat, access: Access): Access
    requires k <= |permissions|
  {
    if k == 0 then {}
    else GrantPrefix(q, permissions, k - 1, access) + Contribution(q, permissions[k - 1], access)
  }

  function Grant(q: Query, group: string, access: Access): Access {
    match q.acl(group)
    case NoRecord => {}
    case Entries(permissions) => GrantPrefix(q, permissions, |permissions|, access)
  }

  /** The permission names a subject group that has the flag, allows the flag and does not deny it. */
  ghost predicate Allows(q: Query, p: Right, flag: Flag) {
    flag in FULL && p.id in q.subjects && flag in q.subjects[p.id].access
    && flag in p.access && Denial(flag) !in p.access
  }

  ghost predicate GrantedAt(q: Query, group: string, flag: Flag) {
    q.acl(group).Entries? && exists p :: p in q.acl(group).rights && Allows(q, p, flag)
  }

  lemma {:induction false} GrantPrefixFlag(q: Query, permissions: seq<Right>, k: nat, access: Access, flag: Flag)
    requires k <= |permissions|
    ensures flag in GrantPrefix(q, permissions, k, access) <==>
            flag in q.request && flag in access && exists p :: p in permissions[..k] && Allows(q, p, flag)
  {
    if k > 0 {
      GrantPrefixFlag(q, permissions, k - 1, access, flag);
      EffectiveFlag(permissions[k - 1].access, flag);
      var p := permissions[k - 1];
      assert permissions[..k] == permissions[..k - 1] + [p];
      assert flag in Contribution(q, p, access) <==> flag in q.request && flag in access && Allows(q, p, flag);
    }
  }

  /** A group grants exactly the requested flags of the mask that some permission of it allows. */
  lemma GrantFlag(q: Query, group: string, access: Access, flag: Flag)
    ensures flag in Grant(q, group, access) <==> flag in q.request && flag in access && GrantedAt(q, group, flag)
  {
    match q.acl(group)
    case NoRecord =>
    case Entries(permissions) =>
      GrantPrefixFlag(q, permissions, |permissions|, access, flag);
      assert permissions[..|permissions|] == permissions;
  }

  // ----- the walk

  /** The exclusive bookkeeping of one membership entry: (a suffix group was seen, an exclusive reason was found). */
  function ExclusiveStep(
    q: Query, uri: string, gs: seq<Right>, idx: nat, level: nat, suffix: bool, found: bool): (bool, bool)
    requires idx < |gs|
  {
    if !q.need || found then (suffix, found)
    else
      var key := gs[idx].id;
      var suffix' := suffix || (level == 0 && q.named.suffixed(key));
      var atRoot := level == 0 && ((idx == |gs| - 1 && !suffix') || q.named.ttl(key));
      (suffix', atRoot || ((level == 0 || q.named.suffixed(uri))
                           && key in q.subjects && q.subjects[key].marker == IS_EXCLUSIVE))
  }

  predicate Pruned(walked: map<string, Access>, group: string, access: Access) {
    group in walked && access <= walked[group]
  }

  /** The group is recorded as walked with these rights too. */
  function MarkWalked(st: WalkState, group: string, access: Access): WalkState {
    st.(walked := st.walked[group := access + (if group in st.walked then st.walked[group] else {})])
  }

  /** What the permissions of the group grant is collected. */
  function Check(q: Query, st: WalkState, group: string, access: Access): WalkState {
    st.(granted := st.granted + Grant(q, group, access))
  }

  datatype Entry = Entry(suffix: bool, descend: bool, st: WalkState)

  /** One membership entry up to the decision whether to go down into its group. */
  function Enter(
    q: Query, uri: string, gs: seq<Right>, idx: nat, suffix: bool, access: Access, level: nat, st: WalkState): Entry
    requires idx < |gs|
  {
    var group := gs[idx];
    if group.id == "" then Entry(suffix, false, st)
    else
      var mask := group.access * access;
      var (suffix', found') := ExclusiveStep(q, uri, gs, idx, level, suffix, st.found);
      var st1 := st.(found := found');
      if group.marker == IS_EXCLUSIVE || Pruned(st.walked, group.id, mask) then Entry(suffix', false, st1)
      else if group.id == uri then Entry(suffix', false, MarkWalked(st1, group.id, mask))
      else Entry(suffix', true, Check(q, MarkWalked(st1, group.id, mask), group.id, mask))
  }

  function Edges(
    q: Query, uri: string, gs: seq<Right>, idx: nat, suffix: bool, access: Access, level: nat, st: WalkState): WalkState
    requires idx <= |gs| && level <= MAX_LEVEL
    decreases MAX_LEVEL + 1 - level, 0, 0, |gs| - idx
  {
    if idx == |gs| then st
    else
      var e := Enter(q, uri, gs, idx, suffix, access, level, st);
      var st' := if e.descend then Expand(q, gs[idx].id, gs[idx].access * access, level + 1, e.st) else e.st;
      Edges(q, uri, gs, idx + 1, e.suffix, access, level, st')
  }

  function Expand(q: Query, uri: string, access: Access, level: nat, st: WalkState): WalkState
    decreases MAX_LEVEL + 1 - level, 0, 1
  {
    if level > MAX_LEVEL then st.(cut := true)
    else
      var st0 := st.(visits := st.visits + multiset{uri});
      match q.groups(uri)
      case NoRecord => if level == 0 then st0.(found := true) else st0
      case Entries(gs) =>
        var st1 := Edges(q, uri, gs, 0, false, access, level, st0);
        if |gs| == 0 then st1.(found := true) else st1
  }
}
