/** A user and an object in the same exclusive group. */
module ExclusiveMembers {
  import opened Access
  import opened Authorization
  import opened ExclusiveWalk
  import opened ObjectReach
  import opened ObjectWalk
  import Paths
  import opened Rights
  import opened StoreAnswers
  import opened SubjectGroups
  import opened SubjectMarkers

  /** Every entry in reach that names the group marks it as exclusive, and there is one. */
  ghost predicate ExclusiveMember(db: string -> Fetched, user: string, g: string) {
    && Paths.Reachable(MembershipGraph(Memberships(db)), user, g) && g != user
    && forall e :: NamedBy(Memberships(db), user, g, e) ==> e.marker == 'X'
  }

  /** The membership record of the object names the group, whatever the marker. */
  predicate MemberRecord(db: string -> Fetched, id: string, g: string) {
    var record := db("M" + id);
    g != "" && record.Text? && exists e :: e in record.rights && e.id == g
  }

  /** The group they share is the exclusive reason, whether a filter applies or not. */
  lemma SharedExclusiveGroup(
    db: string -> Fetched, id: string, user: string, request: Access, filter: string, g: string)
    requires ExclusiveMember(db, user, g) && MemberRecord(db, id, g)
    requires !GroupsOf(Memberships(db), user).cut
    ensures ExclusiveReason(Asks(db, user, request, filter), id)
  {
    hide *;
    MemberStored(db, user, g);
    MemberReason(db, user, id, g);
    ReasonMeans(db, user, request, filter, id);
  }

  lemma MemberStored(db: string -> Fetched, user: string, g: string)
    requires ExclusiveMember(db, user, g) && !GroupsOf(Memberships(db), user).cut
    ensures ExclusiveFor(db, user, g)
  {
    hide GroupsOf;
    hide NamedBy;
    hide Paths.Reachable;
    hide MembershipGraph;
    hide Memberships;
    hide FromEntry;
    SubjectClosure(Memberships(db), user, g);
    OneMarker(Memberships(db), user, g, 'X');
  }

  lemma MemberReason(db: string -> Fetched, user: string, id: string, g: string)
    requires ExclusiveFor(db, user, g) && MemberRecord(db, id, g)
    ensures ReasonGiven(db, user, id)
  {
    hide ExclusiveFor;
    hide HasPart;
    hide ReasonAtObject;
    var e :| e in db("M" + id).rights && e.id == g;
    assert Listed(db, "M" + id, e);
    assert ReasonAtGroup(db, user, id, id);
    assert IsWay(db, id, id, {}, [id]);
  }

  /** Then exclusive access takes nothing away: the answer is what the permissions alone justify. */
  lemma SharedExclusiveVerdict(
    db: string -> Fetched, id: string, user: string, request: Access, g: string, flag: Flag)
    requires ExclusiveMember(db, user, g) && MemberRecord(db, id, g)
    requires !GroupsOf(Memberships(db), user).cut && !Pass(Asks(db, user, request, ""), id, false, {}).cut
    ensures flag in Verdict(db, id, user, request) <==> Justified(Asks(db, user, request, ""), id, flag)
  {
    hide *;
    SharedExclusiveGroup(db, id, user, request, "", g);
    VerdictExact(db, id, user, request, flag);
    AdmittedWithReason(Asks(db, user, request, ""), id);
  }

  lemma AdmittedWithReason(q: Query, id: string)
    requires ExclusiveReason(q, id)
    ensures Admitted(q, id)
  {
  }
}
