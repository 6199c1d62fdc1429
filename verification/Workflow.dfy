/** Stopping a workflow: a traversal of possibly cyclic elements whose visited mark for the first one is 0. */
module Workflow {
  import opened Paths

  datatype Element = Element(
    decisionForms: seq<string>, workItems: seq<string>, workOrders: seq<string>, processes: seq<string>,
    completed: bool, stopped: bool, deleted: bool)

  type Store = map<string, Element>

  function Successors(store: Store, id: string): set<string> {
    if id in store then
      (set w | w in store[id].workItems) + (set w | w in store[id].workOrders) + (set w | w in store[id].processes)
    else {}
  }

  ghost function Elements(store: Store): Graph<string> {
    Graph(id => Successors(store, id))
  }

  /** The element lists the other one as a work item, a work order or a process. */
  predicate Lists(store: Store, e: string, w: string) {
    e in store && (w in store[e].workItems || w in store[e].workOrders || w in store[e].processes)
  }

  /** In reach is the first element, whatever an element in reach lists, and nothing else. */
  lemma ReachByLists(store: Store, root: string, w: string)
    ensures Reachable(Elements(store), root, w)
      <==> w == root || exists e :: Reachable(Elements(store), root, e) && Lists(store, e, w)
  {
    ReachableSelf(Elements(store), root);
    forall e, x ensures Lists(store, e, x) <==> x in Elements(store).next(e) {
    }
    if e :| Reachable(Elements(store), root, e) && Lists(store, e, w) {
      ReachableNext(Elements(store), root, e, w);
    }
    if Reachable(Elements(store), root, w) && w != root {
      var path :| IsPath(Elements(store), root, w, path);
      var n := |path| - 2;
      assert IsPath(Elements(store), root, path[n], path[..n + 1]);
      assert path[n + 1] in Elements(store).next(path[n]);
    }
  }

  /** Everything an element refers to is stored. */
  ghost predicate Complete(store: Store) {
    forall id :: id in store ==>
      (forall f :: f in store[id].decisionForms ==> f in store) && (forall w :: w in Successors(store, id) ==> w in store)
  }

  // ----- the specification

  ghost predicate FormInReach(store: Store, root: string, f: string) {
    exists e :: Reachable(Elements(store), root, e) && e in store && f in store[e].decisionForms
  }

  ghost predicate ProcessInReach(store: Store, root: string, p: string) {
    exists e :: Reachable(Elements(store), root, e) && e in store && p in store[e].processes
  }

  /** Exactly the incomplete decision forms and processes of elements in reach are stopped, and the forms deleted. */
  ghost predicate StoppedFrom(store: Store, root: string, store': Store) {
    && store'.Keys == store.Keys
    && forall x :: x in store ==>
         var form := !store[x].completed && FormInReach(store, root, x);
         var process := !store[x].completed && ProcessInReach(store, root, x);
         && (store'[x].deleted <==> store[x].deleted || form)
         && (store'[x].stopped <==> store[x].stopped || form || process)
         && store'[x] == store[x].(deleted := store'[x].deleted, stopped := store'[x].stopped)
  }

  // ----- invariants of the traversal; `store` is the store at the start, `now` the current one

  predicate Marked(path: map<string, nat>, id: string): (marked: bool)
    ensures marked ==> id in path
  {
    id in path && path[id] != 0
  }

  function Unmarked(keys: set<string>, path: map<string, nat>): set<string> {
    set id | id in keys && !Marked(path, id)
  }

  ghost function Left(was: Store, path: map<string, nat>): nat {
    |Unmarked(was.Keys, path)|
  }

  /** Only stopped and deleted flags were raised. */
  ghost predicate Raised(store: Store, now: Store) {
    now.Keys == store.Keys
    && forall x :: x in store ==>
         && now[x] == store[x].(deleted := now[x].deleted, stopped := now[x].stopped)
         && (store[x].deleted ==> now[x].deleted) && (store[x].stopped ==> now[x].stopped)
  }

  /** Whatever was raised hangs off an element in reach. */
  ghost predicate Justified(store: Store, root: string, now: Store) {
    forall x :: x in store && x in now ==>
      && (now[x].deleted ==> store[x].deleted || (!store[x].completed && FormInReach(store, root, x)))
      && (now[x].stopped ==>
            store[x].stopped || (!store[x].completed && (FormInReach(store, root, x) || ProcessInReach(store, root, x))))
  }

  ghost predicate FormsDone(now: Store, forms: seq<string>) {
    forall f :: f in forms && f in now && !now[f].completed ==> now[f].deleted && now[f].stopped
  }

  ghost predicate ProcessesDone(now: Store, processes: seq<string>) {
    forall p :: p in processes && p in now && !now[p].completed ==> now[p].stopped
  }

  ghost predicate Handled(store: Store, now: Store, path: map<string, nat>, e: string) {
    e in store && FormsDone(now, store[e].decisionForms) && ProcessesDone(now, store[e].processes)
    && forall w :: w in Successors(store, e) ==> Marked(path, w)
  }

  /** Every element entered is handled, or still open. */
  ghost predicate Covered(store: Store, now: Store, path: map<string, nat>, open: set<string>) {
    forall e :: e in path && e !in open ==> Handled(store, now, path, e)
  }

  /** Some element in reach leads back to the root. */
  ghost predicate Returns(store: Store, root: string) {
    exists e :: e in store && Reachable(Elements(store), root, e) && root in Successors(store, e)
  }

  /** Marks: 0 only for the root, and the body ran once per mark, once more for the root. */
  ghost predicate Counted(path: map<string, nat>, runs: multiset<string>, root: string) {
    && (path == map[] || root in path)
    && (forall e :: e in path && path[e] == 0 ==> e == root)
    && (forall e :: runs[e] == (if Marked(path, e) then 1 else 0) + (if e == root && path != map[] then 1 else 0))
  }

  ghost predicate Grown(now: Store, path: map<string, nat>, now': Store, path': map<string, nat>) {
    && Raised(now, now') && path.Keys <= path'.Keys && forall e :: Marked(path, e) ==> Marked(path', e)
  }

  lemma HandledGrows(was: Store, now: Store, path: map<string, nat>, now': Store, path': map<string, nat>, e: string)
    requires Handled(was, now, path, e) && Grown(now, path, now', path')
    ensures Handled(was, now', path', e)
  {
  }

  /** What holds between any two steps of the traversal. */
  ghost predicate Going(
    was: Store, root: string, now: Store, path: map<string, nat>, runs: multiset<string>, open: set<string>)
  {
    && Complete(was) && Raised(was, now) && Justified(was, root, now)
    && (forall e :: e in path ==> e in was && Reachable(Elements(was), root, e))
    && Covered(was, now, path, open) && Counted(path, runs, root)
    && (Marked(path, root) ==> Returns(was, root))
  }

  /** Raising the flags of one incomplete form or process keeps it. */
  lemma RaiseOne(
    was: Store, root: string, now: Store, path: map<string, nat>, runs: multiset<string>, open: set<string>, x: string,
    r: Element)
    requires Going(was, root, now, path, runs, open) && x in now
    requires r == now[x].(deleted := r.deleted, stopped := true) && (now[x].deleted ==> r.deleted)
    requires !now[x].completed && (FormInReach(was, root, x) || (ProcessInReach(was, root, x) && r.deleted == now[x].deleted))
    ensures Going(was, root, now[x := r], path, runs, open) && Grown(now, path, now[x := r], path)
  {
    var now' := now[x := r];
    hide FormInReach;
    hide ProcessInReach;
    hide Complete;
    hide Counted;
    hide Handled;
    assert Grown(now, path, now', path);
    assert Raised(was, now') && Justified(was, root, now');
    hide Justified;
    hide Raised;
    assert Covered(was, now', path, open) by {
      forall e | e in path && e !in open ensures Handled(was, now', path, e) {
        HandledGrows(was, now, path, now', path, e);
      }
    }
  }

  lemma GoingFacts(
    was: Store, root: string, now: Store, path: map<string, nat>, runs: multiset<string>, open: set<string>, e: string)
    requires Going(was, root, now, path, runs, open) && e in was
    ensures (forall f :: f in was[e].decisionForms ==> f in now) && (forall w :: w in Successors(was, e) ==> w in was && w in now)
    ensures forall x :: x in now ==> x in was && now[x] == was[x].(deleted := now[x].deleted, stopped := now[x].stopped)
  {
  }

  lemma GrownRefl(now: Store, path: map<string, nat>)
    ensures Grown(now, path, now, path)
  {
  }

  lemma GrownTransitive(
    now: Store, path: map<string, nat>, now': Store, path': map<string, nat>, now'': Store, path'': map<string, nat>)
    requires Grown(now, path, now', path') && Grown(now', path', now'', path'')
    ensures Grown(now, path, now'', path'')
  {
  }

  /** The element is entered: it is open until its body is through. */
  lemma Enters(
    was: Store, root: string, now: Store, path: map<string, nat>, runs: multiset<string>, open: set<string>, id: string)
    requires Going(was, root, now, path, runs, open) && id in was && Reachable(Elements(was), root, id)
    requires !Marked(path, id) && (path == map[] ==> id == root)
    requires path != map[] && id == root ==> Returns(was, root)
    ensures var path' := path[id := |path|];
            && Going(was, root, now, path', runs + multiset{id}, open + {id}) && Grown(now, path, now, path')
            && id in path' && path' != map[] && (path != map[] ==> Marked(path', id))
            && (if path == map[] then Left(was, path') <= Left(was, path) else Left(was, path') < Left(was, path))
  {
    var path' := path[id := |path|];
    EntersMarks(was, now, path, root, id);
    assert Counted(path, runs, root);
    EntersBody(path, runs, root, id);
    EntersCovers(was, now, path, open, id);
    hide Grown;
    hide Returns;
    hide Counted;
    hide Complete;
    hide Raised;
    hide Justified;
    hide Covered;
    hide Marked;
    hide Left;
  }

  lemma EntersMarks(was: Store, now: Store, path: map<string, nat>, root: string, id: string)
    requires id in was && !Marked(path, id) && (path == map[] ==> id == root)
    ensures var path' := path[id := |path|];
            && Grown(now, path, now, path') && path' != map[]
            && (path != map[] ==> Marked(path', id)) && (path == map[] ==> !Marked(path', root))
            && (id != root ==> (Marked(path', root) <==> Marked(path, root)))
            && (if path == map[] then Left(was, path') <= Left(was, path) else Left(was, path') < Left(was, path))
  {
    var path' := path[id := |path|];
    UnmarkedShrinks(was.Keys, path, path');
    assert id in path';
    hide Unmarked;
  }

  lemma EntersCovers(was: Store, now: Store, path: map<string, nat>, open: set<string>, id: string)
    requires Covered(was, now, path, open) && Grown(now, path, now, path[id := |path|])
    ensures Covered(was, now, path[id := |path|], open + {id})
  {
    var path' := path[id := |path|];
    hide Handled;
    hide Grown;
    forall e | e in path' && e !in open + {id} ensures Handled(was, now, path', e) {
      HandledGrows(was, now, path, now, path', e);
    }
  }

  lemma Leaves(
    was: Store, root: string, now: Store, path: map<string, nat>, runs: multiset<string>, open: set<string>, id: string)
    requires Going(was, root, now, path, runs, open + {id}) && Handled(was, now, path, id)
    ensures Going(was, root, now, path, runs, open)
  {
  }

  lemma FormsStay(now: Store, path: map<string, nat>, now': Store, path': map<string, nat>, forms: seq<string>)
    requires Grown(now, path, now', path')
    ensures FormsDone(now, forms) ==> FormsDone(now', forms)
    ensures ProcessesDone(now, forms) ==> ProcessesDone(now', forms)
    ensures (forall w :: w in forms ==> Marked(path, w)) ==> (forall w :: w in forms ==> Marked(path', w))
  {
  }

  lemma MarkStays(now: Store, path: map<string, nat>, now': Store, path': map<string, nat>, e: string)
    requires Grown(now, path, now', path') && Marked(path, e)
    ensures Marked(path', e)
  {
  }

  lemma AllFollow(was: Store, e: string)
    requires e in was
    ensures (forall w :: w in was[e].workItems ==> w in Successors(was, e))
    ensures (forall w :: w in was[e].workOrders ==> w in Successors(was, e))
  {
  }

  lemma NowHandled(was: Store, now: Store, path: map<string, nat>, e: string)
    requires e in was && FormsDone(now, was[e].decisionForms) && ProcessesDone(now, was[e].processes)
    requires forall w :: w in was[e].workItems ==> Marked(path, w)
    requires forall w :: w in was[e].workOrders ==> Marked(path, w)
    requires forall w :: w in was[e].processes ==> Marked(path, w)
    ensures Handled(was, now, path, e)
  {
  }

  /** Entering an element that is not marked: its mark is 0 only for the root, the first time. */
  lemma EntersBody(path: map<string, nat>, runs: multiset<string>, root: string, id: string)
    requires Counted(path, runs, root) && !Marked(path, id) && (path == map[] ==> id == root)
    ensures Counted(path[id := |path|], runs + multiset{id}, root)
  {
    if path != map[] {
      assert root in path && |path| > 0;
    }
  }

  lemma UnmarkedShrinks(keys: set<string>, path: map<string, nat>, path': map<string, nat>)
    requires forall e :: Marked(path, e) ==> Marked(path', e)
    ensures |Unmarked(keys, path')| <= |Unmarked(keys, path)|
    ensures forall e :: e in keys && !Marked(path, e) && Marked(path', e) ==>
                          |Unmarked(keys, path')| < |Unmarked(keys, path)|
  {
    var a, b := Unmarked(keys, path'), Unmarked(keys, path);
    assert a <= b && b == a + (b - a);
    forall e | e in keys && !Marked(path, e) && Marked(path', e) ensures |a| < |b| {
      assert e in b - a;
    }
  }

  lemma NoneDone(now: Store)
    ensures ProcessesDone(now, [])
  {
  }

  lemma AProcessFollows(was: Store, root: string, e: string, p: string)
    requires Reachable(Elements(was), root, e) && e in was && p in was[e].processes
    ensures p in Successors(was, e) && Reachable(Elements(was), root, p) && (p == root ==> Returns(was, root))
  {
    ReachableNext(Elements(was), root, e, p);
  }

  lemma Starts(was: Store, root: string)
    requires Complete(was) && root in was
    ensures Going(was, root, was, map[], multiset{}, {}) && Reachable(Elements(was), root, root)
  {
    ReachableSelf(Elements(was), root);
  }

  lemma AllEntered(was: Store, root: string, now: Store, path: map<string, nat>, e: string)
    requires (forall x :: x in path ==> Handled(was, now, path, x)) && root in path
    requires Reachable(Elements(was), root, e)
    ensures e in path
  {
    ClosedHoldsReachable(Elements(was), root, e, iset x | x in path);
  }

  lemma AllStopped(was: Store, root: string, now: Store, path: map<string, nat>)
    requires (forall x :: x in path ==> Handled(was, now, path, x)) && root in path
    requires Raised(was, now) && Justified(was, root, now)
    ensures StoppedFrom(was, root, now)
  {
    forall x | x in was && !was[x].completed && FormInReach(was, root, x) ensures now[x].deleted && now[x].stopped {
      var e :| Reachable(Elements(was), root, e) && e in was && x in was[e].decisionForms;
      AllEntered(was, root, now, path, e);
    }
    forall x | x in was && !was[x].completed && ProcessInReach(was, root, x) ensures now[x].stopped {
      var e :| Reachable(Elements(was), root, e) && e in was && x in was[e].processes;
      AllEntered(was, root, now, path, e);
    }
    hide FormInReach;
    hide ProcessInReach;
    hide Handled;
  }

  lemma Ends(was: Store, root: string, now: Store, path: map<string, nat>, runs: multiset<string>)
    requires Going(was, root, now, path, runs, {}) && root in path
    ensures StoppedFrom(was, root, now)
    ensures path.Keys == set e | e in was && Reachable(Elements(was), root, e)
    ensures forall e :: runs[e] == (if e in path then 1 else 0) + if e == root && Returns(was, root) then 1 else 0
  {
    assert forall x :: x in path ==> Handled(was, now, path, x);
    AllStopped(was, root, now, path);
    hide StoppedFrom;
    hide Raised;
    hide Justified;
    hide Handled;
    hide Reachable;
    forall e | Reachable(Elements(was), root, e) ensures e in path {
      AllEntered(was, root, now, path, e);
    }
  }

  class Stopper {
    var store: Store
    var path: map<string, nat>
    ghost var runs: multiset<string>

    constructor (store: Store)
      ensures this.store == store && path == map[] && runs == multiset{}
    {
      this.store, path, runs := store, map[], multiset{};
    }

    /** The element, unless its mark says it was handled: stop its forms, go on to what it leads to, stop its processes. */
    method RecursiveCall(id: string, elem: Element, ghost was: Store, ghost root: string, ghost open: set<string>)
      requires Going(was, root, store, path, runs, open) && id in was && Reachable(Elements(was), root, id)
      requires elem == was[id].(deleted := elem.deleted, stopped := elem.stopped)
      requires path == map[] ==> id == root
      requires path != map[] && id == root ==> Returns(was, root)
      modifies this
      ensures Going(was, root, store, path, runs, open) && id in path && (old(path) != map[] ==> Marked(path, id))
      ensures Grown(old(store), old(path), store, path)
      decreases Left(was, path), if path == map[] then 1 else 0, 0
    {
      hide *;
      GrownRefl(store, path);
      if Marked(path, id) {
        return;
      }
      Enters(was, root, store, path, runs, open, id);
      path := path[id := |path|];
      runs := runs + multiset{id};
      ghost var path0 := path;
      GoThrough(id, elem, was, root, open + {id});
      GrownTransitive(old(store), old(path), old(store), path0, store, path);
      if old(path) != map[] {
        MarkStays(old(store), path0, store, path, id);
      }
      Leaves(was, root, store, path, runs, open, id);
    }

    /** The body proper, its element marked. */
    method GoThrough(id: string, elem: Element, ghost was: Store, ghost root: string, ghost inside: set<string>)
      requires Going(was, root, store, path, runs, inside) && id in was && Reachable(Elements(was), root, id) && id in path
      requires elem == was[id].(deleted := elem.deleted, stopped := elem.stopped)
      modifies this
      ensures Going(was, root, store, path, runs, inside) && id in path && Handled(was, store, path, id)
      ensures Grown(old(store), old(path), store, path)
      decreases Left(was, path), 0, 3
    {
      hide *;
      StopForms(elem.decisionForms, was, root, inside, id);
      ghost var store1, path1 := store, path;
      AllFollow(was, id);
      VisitAll(elem.workItems, was, root, inside, id);
      ghost var store2, path2 := store, path;
      GrownTransitive(old(store), old(path), store1, path1, store2, path2);
      VisitAll(elem.workOrders, was, root, inside, id);
      ghost var store3, path3 := store, path;
      GrownTransitive(store1, path1, store2, path2, store3, path3);
      StopProcesses(elem.processes, was, root, inside, id);
      GrownTransitive(store2, path2, store3, path3, store, path);
      GrownTransitive(store1, path1, store2, path2, store, path);
      GrownTransitive(old(store), old(path), store1, path1, store, path);
      FormsStay(store1, path1, store, path, elem.decisionForms);
      FormsStay(store2, path2, store, path, elem.workItems);
      FormsStay(store3, path3, store, path, elem.workOrders);
      NowHandled(was, store, path, id);
    }

    /** Incomplete decision forms are deleted and stopped. */
    method StopForms(forms: seq<string>, ghost was: Store, ghost root: string, ghost open: set<string>, ghost e: string)
      requires Going(was, root, store, path, runs, open) && e in was && Reachable(Elements(was), root, e)
      requires forms == was[e].decisionForms
      modifies this`store
      ensures Going(was, root, store, path, runs, open) && Grown(old(store), path, store, path) && FormsDone(store, forms)
    {
      hide Going;
      hide Grown;
      GrownRefl(store, path);
      for i := 0 to |forms|
        invariant Going(was, root, store, path, runs, open) && Grown(old(store), path, store, path)
        invariant FormsDone(store, forms[..i])
      {
        GoingFacts(was, root, store, path, runs, open, e);
        var df := store[forms[i]];
        if !df.completed {
          df := df.(deleted := true, stopped := true);
          assert FormInReach(was, root, forms[i]);
          RaiseOne(was, root, store, path, runs, open, forms[i], df);
          GrownTransitive(old(store), path, store, path, store[forms[i] := df], path);
          FormsStay(store, path, store[forms[i] := df], path, forms[..i]);
          store := store[forms[i] := df];
        }
        assert forms[..i + 1] == forms[..i] + [forms[i]];
      }
      assert forms[..|forms|] == forms;
    }

    method VisitAll(ids: seq<string>, ghost was: Store, ghost root: string, ghost open: set<string>, ghost e: string)
      requires Going(was, root, store, path, runs, open) && e in was && Reachable(Elements(was), root, e) && e in path
      requires forall w :: w in ids ==> w in Successors(was, e)
      modifies this
      ensures Going(was, root, store, path, runs, open) && Grown(old(store), old(path), store, path)
      ensures e in path && (forall w :: w in ids ==> Marked(path, w)) && Left(was, path) <= Left(was, old(path))
      decreases Left(was, path), 0, 2
    {
      hide Going;
      hide Successors;
      hide Grown;
      hide Left;
      GrownRefl(store, path);
      for i := 0 to |ids|
        invariant Going(was, root, store, path, runs, open) && Grown(old(store), old(path), store, path) && e in path
        invariant Left(was, path) <= Left(was, old(path))
        invariant forall w :: w in ids[..i] ==> Marked(path, w)
      {
        GoingFacts(was, root, store, path, runs, open, e);
        ReachableNext(Elements(was), root, e, ids[i]);
        assert ids[i] == root ==> Returns(was, root);
        ghost var store0, path0 := store, path;
        Visit(ids[i], store[ids[i]], was, root, open, ids[..i], e);
        GrownTransitive(old(store), old(path), store0, path0, store, path);
        assert ids[..i + 1] == ids[..i] + [ids[i]];
      }
      assert ids[..|ids|] == ids;
    }

    /** One more of the elements that e leads to; those visited before stay visited. */
    method Visit(
      id: string, elem: Element, ghost was: Store, ghost root: string, ghost open: set<string>, ghost visited: seq<string>,
      ghost e: string)
      requires Going(was, root, store, path, runs, open) && id in was && Reachable(Elements(was), root, id) && e in path
      requires elem == was[id].(deleted := elem.deleted, stopped := elem.stopped)
      requires (forall w :: w in visited ==> Marked(path, w)) && (id == root ==> Returns(was, root))
      modifies this
      ensures Going(was, root, store, path, runs, open) && Grown(old(store), old(path), store, path) && e in path
      ensures (forall w :: w in visited + [id] ==> Marked(path, w)) && Left(was, path) <= Left(was, old(path))
      decreases Left(was, path), 0, 1
    {
      hide Going;
      RecursiveCall(id, elem, was, root, open);
      FormsStay(old(store), old(path), store, path, visited);
      UnmarkedShrinks(was.Keys, old(path), path);
    }

    /** Incomplete processes are stopped, and each is gone into. */
    method StopProcesses(ids: seq<string>, ghost was: Store, ghost root: string, ghost open: set<string>, ghost e: string)
      requires Going(was, root, store, path, runs, open) && e in was && Reachable(Elements(was), root, e) && e in path
      requires ids == was[e].processes
      modifies this
      ensures Going(was, root, store, path, runs, open) && Grown(old(store), old(path), store, path)
      ensures ProcessesDone(store, ids) && forall w :: w in ids ==> Marked(path, w)
      decreases Left(was, path), 0, 2
    {
      hide *;
      GrownRefl(store, path);
      assert ProcessesDone(store, []) by { NoneDone(store); }
      for i := 0 to |ids|
        invariant Going(was, root, store, path, runs, open) && Grown(old(store), old(path), store, path) && e in path
        invariant Left(was, path) <= Left(was, old(path))
        invariant ProcessesDone(store, ids[..i]) && forall w :: w in ids[..i] ==> Marked(path, w)
      {
        GoingFacts(was, root, store, path, runs, open, e);
        AProcessFollows(was, root, e, ids[i]);
        ghost var store0, path0 := store, path;
        StopProcess(ids[i], was, root, open, ids[..i], e);
        ghost var store1 := store;
        GoingFacts(was, root, store, path, runs, open, e);
        Visit(ids[i], store[ids[i]], was, root, open, ids[..i], e);
        GrownTransitive(store0, path0, store1, path0, store, path);
        GrownTransitive(old(store), old(path), store0, path0, store, path);
        FormsStay(store1, path0, store, path, ids[..i] + [ids[i]]);
        assert ids[..i + 1] == ids[..i] + [ids[i]];
      }
      assert ids[..|ids|] == ids;
    }

    method StopProcess(
      id: string, ghost was: Store, ghost root: string, ghost open: set<string>, ghost done: seq<string>, ghost e: string)
      requires Going(was, root, store, path, runs, open) && e in was && Reachable(Elements(was), root, e)
      requires id in was[e].processes && id in store && ProcessesDone(store, done)
      modifies this`store
      ensures Going(was, root, store, path, runs, open) && Grown(old(store), path, store, path)
      ensures ProcessesDone(store, done + [id])
    {
      hide Going;
      GrownRefl(store, path);
      var df := store[id];
      if !df.completed {
        df := df.(stopped := true);
        assert ProcessInReach(was, root, id);
        RaiseOne(was, root, store, path, runs, open, id, df);
        FormsStay(store, path, store[id := df], path, done);
        store := store[id := df];
      }
    }

    /** Called with nothing visited: it ends, stops exactly what hangs off the elements in reach, and enters each of them. */
    method Stop(id: string)
      requires Complete(store) && id in store && path == map[] && runs == multiset{}
      modifies this
      ensures StoppedFrom(old(store), id, store)
      ensures path.Keys == set e | e in old(store) && Reachable(Elements(old(store)), id, e)
      ensures forall e :: runs[e] == (if e in path then 1 else 0) + if e == id && Returns(old(store), id) then 1 else 0
    {
      hide *;
      ghost var was := store;
      Starts(was, id);
      RecursiveCall(id, store[id], was, id, {});
      Ends(was, id, store, path, runs);
    }
  }
}
