/** What an answer means in terms of keys, entries and texts of the store, and of the groups collected for the user. */
module StoreAnswers {
  import opened Access
  import opened Authorization
  import opened ExclusiveWalk
  import opened FilterRuns
  import opened ObjectReach
  import opened ObjectWalk
  import opened Rights
  import opened SubjectGroups

  // ----- the store

  predicate Listed(db: string -> Fetched, key: string, e: Right) {
    db(key).Text? && e in db(key).rights
  }

  /** A membership entry that is not marked as exclusive leads from a resource to a group; it has all the flags. */
  ghost predicate LeadsTo(db: string -> Fetched, from: string, to: string, flags: Access) {
    to != "" && exists e :: Listed(db, "M" + from, e) && e.id == to && e.marker != 'X' && flags <= e.access
  }

  ghost predicate IsWay(db: string -> Fetched, from: string, to: string, flags: Access, way: seq<string>) {
    && |way| > 0 && way[0] == from && way[|way| - 1] == to
    && forall i | 0 <= i < |way| - 1 :: LeadsTo(db, way[i], way[i + 1], flags)
  }

  ghost predicate InReach(db: string -> Fetched, from: string, to: string, flags: Access) {
    exists way :: IsWay(db, from, to, flags, way)
  }

  /** The groups collected for a user. */
  function OwnGroups(db: string -> Fetched, user: string): map<string, Right> {
    GroupsOf(Memberships(db), user).results
  }

  /** What is permitted to these is permitted to the user. */
  predicate ActsFor(db: string -> Fetched, user: string, g: string, flag: Flag) {
    && flag in {Create, Read, Update, Delete}
    && (g == user || (g in OwnGroups(db, user) && flag in OwnGroups(db, user)[g].access))
  }

  ghost predicate Permits(db: string -> Fetched, user: string, p: Right, flag: Flag) {
    ActsFor(db, user, p.id, flag) && flag in p.access && Denial(flag) !in p.access
  }

  ghost predicate Permitted(db: string -> Fetched, user: string, filter: string, group: string, flag: Flag) {
    exists p :: Listed(db, "P" + filter + group, p) && Permits(db, user, p, flag)
  }

  /** The group of everything, the object or a group in reach of it permits the flag to the user. */
  ghost predicate Granted(db: string -> Fetched, user: string, filter: string, id: string, flag: Flag) {
    Permitted(db, user, filter, "v-s:AllResourcesGroup", flag)
    || exists group :: InReach(db, id, group, {flag}) && Permitted(db, user, filter, group, flag)
  }

  // ----- what the questions come to

  lemma StepMeans(db: string -> Fetched, q: Query, mark: Mark, from: string, to: string)
    requires q.groups(from) == RecordOf(db("M" + from))
    ensures Step(q, mark, from, to) <==> LeadsTo(db, from, to, if mark.Has? then {mark.flag} else {})
  {
    if Step(q, mark, from, to) {
      var g :| g in q.groups(from).rights && Follows(g, mark, to);
      assert Listed(db, "M" + from, g);
    }
    if LeadsTo(db, from, to, if mark.Has? then {mark.flag} else {}) {
      var e :| Listed(db, "M" + from, e) && e.id == to && e.marker != 'X' && (if mark.Has? then {mark.flag} else {}) <= e.access;
      assert Follows(e, mark, to);
    }
  }

  lemma ReachMeans(db: string -> Fetched, q: Query, mark: Mark, from: string, to: string)
    requires forall x :: q.groups(x) == RecordOf(db("M" + x))
    ensures Reachable(q, mark, from, to) <==> InReach(db, from, to, if mark.Has? then {mark.flag} else {})
  {
    forall x, y ensures Step(q, mark, x, y) <==> LeadsTo(db, x, y, if mark.Has? then {mark.flag} else {}) {
      StepMeans(db, q, mark, x, y);
    }
    hide Step;
    hide LeadsTo;
    if Reachable(q, mark, from, to) {
      var path :| IsPath(q, mark, from, to, path);
      assert IsWay(db, from, to, if mark.Has? then {mark.flag} else {}, path);
    }
    if InReach(db, from, to, if mark.Has? then {mark.flag} else {}) {
      var way :| IsWay(db, from, to, if mark.Has? then {mark.flag} else {}, way);
      assert IsPath(q, mark, from, to, way);
    }
  }

  lemma Asked(db: string -> Fetched, user: string, request: Access, filter: string)
    ensures var q := Asks(db, user, request, filter);
            && (forall x :: q.groups(x) == RecordOf(db("M" + x)))
            && (forall x :: q.acl(x) == RecordOf(db("P" + filter + x)))
            && q.subjects == OwnGroups(db, user)[user := NewRight(user)]
            && q.need == GroupsOf(Memberships(db), user).exclusive && q.request == request && q.named == NAMES
  {
    hide GroupsOf;
  }

  lemma PermittedMeans(db: string -> Fetched, q: Query, user: string, filter: string, group: string, flag: Flag)
    requires q.acl(group) == RecordOf(db("P" + filter + group))
    requires q.subjects == OwnGroups(db, user)[user := NewRight(user)]
    ensures GrantedAt(q, group, flag) <==> Permitted(db, user, filter, group, flag)
  {
    hide OwnGroups;
    forall p ensures Allows(q, p, flag) <==> Permits(db, user, p, flag) {
    }
    hide Allows;
    hide Permits;
    if GrantedAt(q, group, flag) {
      var p :| p in q.acl(group).rights && Allows(q, p, flag);
      assert Listed(db, "P" + filter + group, p);
    }
    if Permitted(db, user, filter, group, flag) {
      var p :| Listed(db, "P" + filter + group, p) && Permits(db, user, p, flag);
      assert p in q.acl(group).rights;
    }
  }

  lemma JustifiedMeans(db: string -> Fetched, user: string, request: Access, filter: string, id: string, flag: Flag)
    ensures Justified(Asks(db, user, request, filter), id, flag) <==> flag in request && Granted(db, user, filter, id, flag)
  {
    var q := Asks(db, user, request, filter);
    Asked(db, user, request, filter);
    hide Asks;
    forall group
      ensures GrantedAt(q, group, flag) <==> Permitted(db, user, filter, group, flag)
      ensures Reachable(q, Has(flag), id, group) <==> InReach(db, id, group, {flag})
    {
      PermittedMeans(db, q, user, filter, group, flag);
      ReachMeans(db, q, Has(flag), id, group);
    }
    hide Reachable;
    hide InReach;
    hide GrantedAt;
    hide Permitted;
  }

  // ----- exclusive reasons

  ghost predicate HasPart(text: string, part: string) {
    exists a, b :: text == a + part + b
  }

  lemma ContainsMeans(text: string, part: string)
    ensures Contains(text, part) <==> HasPart(text, part)
  {
    if Contains(text, part) {
      var i :| 0 <= i <= |text| && OccursAt(text, part, i);
      assert text == text[..i] + part + text[i + |part|..];
    }
    if HasPart(text, part) {
      var a, b :| text == a + part + b;
      assert OccursAt(text, part, |a|);
    }
  }

  /** The user is in the group as an exclusive one. */
  predicate ExclusiveFor(db: string -> Fetched, user: string, g: string) {
    g != user && g in OwnGroups(db, user) && OwnGroups(db, user)[g].marker == 'X'
  }

  /** The object is in no group at all, or in one that is never exclusive, or its entries end with a group and none has the suffix. */
  ghost predicate ReasonAtObject(db: string -> Fetched, id: string) {
    match db("M" + id)
    case Missing(_) => true
    case Text(_, entries) =>
      || (exists e | e in entries :: HasPart(e.id, "cfg:TTLResourcesGroup"))
      || (entries != [] && entries[|entries| - 1].id != "" && forall e | e in entries :: !HasPart(e.id, "_group"))
  }

  /** A record without entries, or one of the object or a group with the suffix that names an exclusive group of the user. */
  ghost predicate ReasonAtGroup(db: string -> Fetched, user: string, id: string, uri: string) {
    db("M" + uri).Text?
    && (db("M" + uri).rights == []
        || ((uri == id || HasPart(uri, "_group"))
            && exists e :: Listed(db, "M" + uri, e) && e.id != "" && ExclusiveFor(db, user, e.id)))
  }

  ghost predicate ReasonGiven(db: string -> Fetched, user: string, id: string) {
    ReasonAtObject(db, id) || exists uri :: InReach(db, id, uri, {}) && ReasonAtGroup(db, user, id, uri)
  }

  lemma NamesMean(x: string)
    ensures NAMES.suffixed(x) <==> HasPart(x, "_group")
    ensures NAMES.ttl(x) <==> HasPart(x, "cfg:TTLResourcesGroup")
    ensures x == "" ==> !HasPart(x, "_group") && !HasPart(x, "cfg:TTLResourcesGroup")
  {
    ContainsMeans(x, "_group");
    ContainsMeans(x, "cfg:TTLResourcesGroup");
  }

  lemma ObjectReasonMeans(db: string -> Fetched, q: Query, id: string)
    requires q.groups(id) == RecordOf(db("M" + id)) && q.named == NAMES
    ensures ObjectReason(q, id) <==> ReasonAtObject(db, id)
  {
    forall x
      ensures NAMES.suffixed(x) <==> HasPart(x, "_group")
      ensures NAMES.ttl(x) <==> HasPart(x, "cfg:TTLResourcesGroup")
      ensures x == "" ==> !HasPart(x, "_group") && !HasPart(x, "cfg:TTLResourcesGroup")
    {
      NamesMean(x);
    }
    hide HasPart;
    if q.groups(id).Entries? {
      var gs := q.groups(id).rights;
      assert Unsuffixed(q, gs, |gs|) <==> forall e | e in gs :: !HasPart(e.id, "_group") by {
        if Unsuffixed(q, gs, |gs|) {
          forall e | e in gs ensures !HasPart(e.id, "_group") {
            var k :| 0 <= k < |gs| && gs[k] == e;
          }
        }
      }
      hide Unsuffixed;
    }
  }

  lemma GroupReasonMeans(db: string -> Fetched, q: Query, user: string, id: string, uri: string)
    requires q.groups(uri) == RecordOf(db("M" + uri)) && q.named == NAMES
    requires q.subjects == OwnGroups(db, user)[user := NewRight(user)]
    ensures GroupReason(q, id, uri) <==> ReasonAtGroup(db, user, id, uri)
  {
    NamesMean(uri);
    hide HasPart;
    hide OwnGroups;
    forall g ensures ExclusiveSubject(q, g) <==> ExclusiveFor(db, user, g) {
    }
    hide ExclusiveSubject;
    hide ExclusiveFor;
    if db("M" + uri).Text? {
      if e :| e in q.groups(uri).rights && e.id != "" && ExclusiveSubject(q, e.id) {
        assert Listed(db, "M" + uri, e);
      }
      if e :| Listed(db, "M" + uri, e) && e.id != "" && ExclusiveFor(db, user, e.id) {
        assert e in q.groups(uri).rights;
      }
    }
  }

  lemma ReasonMeans(db: string -> Fetched, user: string, request: Access, filter: string, id: string)
    ensures ExclusiveReason(Asks(db, user, request, filter), id) <==> ReasonGiven(db, user, id)
  {
    var q := Asks(db, user, request, filter);
    Asked(db, user, request, filter);
    hide Asks;
    ObjectReasonMeans(db, q, id);
    forall uri
      ensures GroupReason(q, id, uri) <==> ReasonAtGroup(db, user, id, uri)
      ensures Reachable(q, Any, id, uri) <==> InReach(db, id, uri, {})
    {
      GroupReasonMeans(db, q, user, id, uri);
      ReachMeans(db, q, Any, id, uri);
    }
    hide Reachable;
    hide InReach;
    hide GroupReason;
    hide ReasonAtGroup;
    hide ObjectReason;
    hide ReasonAtObject;
  }

  // ----- answers

  /** Where exclusive access is required of the user, the object must give a reason. */
  ghost predicate Admits(db: string -> Fetched, user: string, id: string) {
    GroupsOf(Memberships(db), user).exclusive ==> ReasonGiven(db, user, id)
  }

  /**
   The central theorem in these terms: where no filter is found and no call was cut,
   a flag is in the answer of a run with any tracing modes just when it is requested, granted and admitted.
   */
  lemma AnswerInStore(db: string -> Fetched, id: string, user: string, request: Access, flag: Flag)
    requires forall k: nat, it :: LookedAt(db, id, k, it) ==> db("F" + it).Missing?
    requires !Pass(Asks(db, user, request, ""), id, false, {}).cut
    ensures TracedVerdict(db, id, user, request) == UntracedVerdict(db, id, user, request)
    ensures flag in TracedVerdict(db, id, user, request) <==>
      flag in request && Granted(db, user, "", id, flag) && Admits(db, user, id)
  {
    NoFilter(db, id);
    VerdictExact(db, id, user, request, flag);
    JustifiedMeans(db, user, request, "", id, flag);
    ReasonMeans(db, user, request, "", id);
    Asked(db, user, request, "");
    hide Verdict;
    hide FilterOf;
    hide Asks;
    hide Justified;
    hide Granted;
    hide ReasonGiven;
    hide ExclusiveReason;
    hide Pass;
  }

  /**
   And with a filter: runs that make both passes join what all permissions grant, cut down to what the filter leaves to others,
   and what the permissions under the filter grant; one admission serves both.
   */
  lemma FilteredAnswerInStore(
    db: string -> Fetched, id: string, user: string, request: Access, flag: Flag, filter: string, others: Access)
    requires FilterOf(db, id) == (filter, others) && filter != "" && PassesUncut(db, id, user, request)
    ensures flag in TracedVerdict(db, id, user, request) <==>
      && ((flag in request * others && Granted(db, user, "", id, flag))
          || (flag in request && Granted(db, user, filter, id, flag)))
      && Admits(db, user, id)
  {
    FilteredVerdictExact(db, id, user, request, flag);
    JustifiedMeans(db, user, request * others, "", id, flag);
    JustifiedMeans(db, user, request, filter, id, flag);
    ReasonMeans(db, user, request * others, "", id);
    ReasonMeans(db, user, request, filter, id);
    Asked(db, user, request, filter);
    hide FilteredVerdict;
    hide FilterOf;
    hide Asks;
    hide Justified;
    hide Granted;
    hide ReasonGiven;
    hide ExclusiveReason;
    hide Pass;
  }
}
