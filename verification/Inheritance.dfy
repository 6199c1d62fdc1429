/** Class specifications inherited from superclasses, completed in place while they are asked for. */
module Inheritance {

  /** What the ontology says of a class itself; a specification is the id of an individual, by property. */
  datatype Class = Class(superClasses: seq<string>, properties: seq<string>, specifications: Specs)

  type Specs = map<string, string>

  type Tree = map<string, Class>

  const RESOURCE := "rdfs:Resource"

  /** Unknown classes fall back to the top level class. */
  function Resolve(tree: Tree, uri: string): string {
    if uri in tree then uri else RESOURCE
  }

  /** The tree has the top level class, and a rank that gets smaller with every superclass: it has no cycle. */
  ghost predicate Acyclic(tree: Tree, rank: string -> nat) {
    && RESOURCE in tree
    && forall c :: c in tree ==>
         forall i | 0 <= i < |tree[c].superClasses| :: rank(Resolve(tree, tree[c].superClasses[i])) < rank(c)
  }

  // ----- what should come out

  /** The first map, with what only the second one has. */
  function Fill(specs: Specs, more: Specs): Specs {
    more + specs
  }

  /** The own specifications of a class, completed by those of its first k superclasses. */
  ghost function UpTo(tree: Tree, rank: string -> nat, c: string, k: nat): Specs
    requires Acyclic(tree, rank) && c in tree && k <= |tree[c].superClasses|
    decreases rank(c), k
  {
    if k == 0 then tree[c].specifications
    else Fill(UpTo(tree, rank, c, k - 1), Complete(tree, rank, tree[c].superClasses[k - 1]))
  }

  ghost function Complete(tree: Tree, rank: string -> nat, uri: string): Specs
    requires Acyclic(tree, rank)
    decreases rank(Resolve(tree, uri)), |tree[Resolve(tree, uri)].superClasses| + 1
  {
    var c := Resolve(tree, uri);
    UpTo(tree, rank, c, |tree[c].superClasses|)
  }

  predicate Part(a: Specs, b: Specs) {
    forall p :: p in a ==> p in b && b[p] == a[p]
  }

  /** More superclasses only add. */
  lemma {:induction false} UpToGrows(tree: Tree, rank: string -> nat, c: string, j: nat, k: nat)
    requires Acyclic(tree, rank) && c in tree && j <= k <= |tree[c].superClasses|
    ensures Part(UpTo(tree, rank, c, j), UpTo(tree, rank, c, k))
  {
    if j < k {
      UpToGrows(tree, rank, c, j, k - 1);
      hide Complete;
      hide Acyclic;
    }
  }

  /** In between: what the class had at first, or has been given since, but nothing that does not belong to it. */
  ghost predicate Between(tree: Tree, rank: string -> nat, c: string, specs: Specs)
    requires Acyclic(tree, rank) && c in tree
  {
    Part(tree[c].specifications, specs) && Part(specs, Complete(tree, rank, c))
  }

  /** Filling in one more superclass gets a partly completed map one superclass further. */
  lemma FillsOneMore(tree: Tree, rank: string -> nat, c: string, k: nat, specs: Specs)
    requires Acyclic(tree, rank) && c in tree && k < |tree[c].superClasses|
    requires Part(UpTo(tree, rank, c, k), specs) && Part(specs, Complete(tree, rank, c))
    ensures var filled := Fill(specs, Complete(tree, rank, tree[c].superClasses[k]));
            Part(UpTo(tree, rank, c, k + 1), filled) && Part(filled, Complete(tree, rank, c)) && Part(specs, filled)
  {
    var more, all := Complete(tree, rank, tree[c].superClasses[k]), Complete(tree, rank, c);
    UpToGrows(tree, rank, c, k + 1, |tree[c].superClasses|);
    assert all == UpTo(tree, rank, c, |tree[c].superClasses|);
    assert UpTo(tree, rank, c, k + 1) == Fill(UpTo(tree, rank, c, k), more);
    hide *;
    FillBetween(UpTo(tree, rank, c, k), specs, more, all);
  }

  /** Completing a part of the whole, when the whole agrees on what comes next. */
  lemma FillBetween(least: Specs, specs: Specs, more: Specs, all: Specs)
    requires Part(least, specs) && Part(specs, all) && Part(Fill(least, more), all)
    ensures var filled := Fill(specs, more); Part(Fill(least, more), filled) && Part(filled, all) && Part(specs, filled)
  {
    assert forall p :: p in Fill(least, more) <==> p in least || p in more;
  }

  lemma SamePart(a: Specs, b: Specs)
    requires Part(a, b) && Part(b, a)
    ensures a == b
  {
    assert forall p :: p in a <==> p in b;
  }

  class OntologyModel {
    const tree: Tree
    ghost const rank: string -> nat
    // the specifications in the class tree, which are completed in place
    var specifications: map<string, Specs>

    ghost predicate Valid()
      reads this
    {
      && Acyclic(tree, rank) && specifications.Keys == tree.Keys
      && forall c :: c in tree ==> Between(tree, rank, c, specifications[c])
    }

    constructor (tree: Tree, ghost rank: string -> nat)
      requires Acyclic(tree, rank)
      ensures Valid() && this.tree == tree && this.rank == rank
    {
      this.tree, this.rank := tree, rank;
      specifications := map c | c in tree :: tree[c].specifications;
      new;
      forall c | c in tree ensures Between(tree, rank, c, specifications[c]) {
        UpToGrows(tree, rank, c, 0, |tree[c].superClasses|);
      }
    }

    /** The answer is the completed map, whatever was asked for before; maps only grow towards their completion. */
    method GetSpecs(uri: string) returns (specs: Specs)
      requires Valid()
      modifies this
      ensures Valid() && specs == Complete(tree, rank, uri) && specifications[Resolve(tree, uri)] == specs
      ensures Grown(tree, old(specifications), specifications)
      decreases rank(Resolve(tree, uri)), if uri in tree then 0 else 1, 1
    {
      hide UpTo;
      hide Complete;
      hide Part;
      hide Acyclic;
      if uri in tree {
        AskAll(uri);
        ghost var asked := specifications;
        FillAll(uri);
        GrownOne(tree, asked, uri, specifications[uri]);
        GrownTransitive(tree, old(specifications), asked, specifications);
      } else {
        Fallback(tree, rank, uri);
        var top := GetSpecs(RESOURCE);
      }
      specs := specifications[Resolve(tree, uri)];
    }

    /** With all superclasses complete, the map of the class is completed from them, one after the other. */
    method FillAll(uri: string)
      requires Valid() && uri in tree
      requires forall k | 0 <= k < |tree[uri].superClasses| ::
        IsComplete(tree, rank, specifications, tree[uri].superClasses[k])
      modifies this
      ensures Valid() && specifications == old(specifications)[uri := Complete(tree, rank, uri)]
      ensures Part(old(specifications)[uri], Complete(tree, rank, uri))
    {
      hide UpTo;
      hide Complete;
      hide Part;
      hide Acyclic;
      var superClasses := tree[uri].superClasses;
      ghost var asked := specifications;
      Begins(tree, rank, uri, asked[uri]);
      var i := 0;
      while i < |superClasses|
        invariant i <= |superClasses| && uri in specifications && specifications == asked[uri := specifications[uri]]
        invariant Part(UpTo(tree, rank, uri, i), specifications[uri]) && Part(asked[uri], specifications[uri])
        invariant Part(specifications[uri], Complete(tree, rank, uri))
      {
        HigherUp(tree, rank, uri, i);
        FillsOneMore(tree, rank, uri, i, specifications[uri]);
        PartTransitive(asked[uri], specifications[uri], Fill(specifications[uri], asked[Resolve(tree, superClasses[i])]));
        FillFrom(uri, Resolve(tree, superClasses[i]));
        i := i + 1;
      }
      Ends(tree, rank, uri, specifications[uri]);
    }

    /** All superclasses are asked first. */
    method AskAll(uri: string)
      requires Valid() && uri in tree
      modifies this
      ensures Valid() && Grown(tree, old(specifications), specifications)
      ensures forall k | 0 <= k < |tree[uri].superClasses| ::
        IsComplete(tree, rank, specifications, tree[uri].superClasses[k])
      decreases rank(uri), 0, 0
    {
      hide UpTo;
      hide Complete;
      hide Part;
      hide Acyclic;
      var superClasses := tree[uri].superClasses;
      GrownSame(tree, specifications);
      for i := 0 to |superClasses|
        invariant Valid() && Grown(tree, old(specifications), specifications)
        invariant forall k | 0 <= k < i :: IsComplete(tree, rank, specifications, superClasses[k])
      {
        HigherUp(tree, rank, uri, i);
        ghost var before := specifications;
        var superSpecs := GetSpecs(superClasses[i]);
        GrownTransitive(tree, old(specifications), before, specifications);
        forall k | 0 <= k < i
          ensures IsComplete(tree, rank, specifications, superClasses[k])
        {
          HigherUp(tree, rank, uri, k);
          StaysComplete(tree, rank, superClasses[k], before, specifications);
        }
      }
    }

    /** What the class does not have is taken from the superclass. */
    method FillFrom(c: string, superClass: string)
      requires c in specifications && superClass in specifications
      modifies this
      ensures specifications == old(specifications)[c := Fill(old(specifications)[c], old(specifications)[superClass])]
    {
      var superSpecs := specifications[superClass];
      ghost var was := specifications[c];
      var properties := superSpecs.Keys;
      while properties != {}
        invariant properties <= superSpecs.Keys && c in specifications
        invariant specifications == old(specifications)[c := specifications[c]]
        invariant forall p :: p in specifications[c] <==> p in was || (p in superSpecs && p !in properties)
        invariant forall p :: p in specifications[c] ==> specifications[c][p] == if p in was then was[p] else superSpecs[p]
      {
        var property :| property in properties;
        properties := properties - {property};
        if property !in specifications[c] {
          specifications := specifications[c := specifications[c][property := superSpecs[property]]];
        }
      }
      assert specifications[c] == Fill(was, superSpecs);
    }

    /** A later answer to the same question is the same, whatever is asked in between. */
    method AskTwice(uri: string, between: seq<string>) returns (first: Specs, second: Specs)
      requires Valid()
      modifies this
      ensures Valid() && first == second == Complete(tree, rank, uri)
    {
      first := GetSpecs(uri);
      for i := 0 to |between|
        invariant Valid()
      {
        var other := GetSpecs(between[i]);
      }
      second := GetSpecs(uri);
    }
  }

  ghost predicate IsComplete(tree: Tree, rank: string -> nat, specifications: map<string, Specs>, uri: string)
    requires Acyclic(tree, rank)
  {
    Resolve(tree, uri) in specifications && specifications[Resolve(tree, uri)] == Complete(tree, rank, uri)
  }

  /** No map loses anything. */
  ghost predicate Grown(tree: Tree, a: map<string, Specs>, b: map<string, Specs>) {
    forall c :: c in tree && c in a && c in b ==> Part(a[c], b[c])
  }

  lemma GrownSame(tree: Tree, a: map<string, Specs>)
    ensures Grown(tree, a, a)
  {
  }

  lemma GrownOne(tree: Tree, a: map<string, Specs>, c: string, specs: Specs)
    requires c in a && Part(a[c], specs)
    ensures Grown(tree, a, a[c := specs])
  {
  }

  lemma GrownTransitive(tree: Tree, a: map<string, Specs>, b: map<string, Specs>, c: map<string, Specs>)
    requires Grown(tree, a, b) && Grown(tree, b, c) && a.Keys == b.Keys == c.Keys
    ensures Grown(tree, a, c)
  {
    forall k | k in tree && k in a ensures Part(a[k], c[k]) {
      PartTransitive(a[k], b[k], c[k]);
    }
  }

  lemma PartTransitive(a: Specs, b: Specs, c: Specs)
    requires Part(a, b) && Part(b, c)
    ensures Part(a, c)
  {
  }

  lemma StaysComplete(tree: Tree, rank: string -> nat, uri: string, a: map<string, Specs>, b: map<string, Specs>)
    requires Acyclic(tree, rank) && Resolve(tree, uri) in a && Resolve(tree, uri) in b && Grown(tree, a, b)
    requires a[Resolve(tree, uri)] == Complete(tree, rank, uri)
    requires Between(tree, rank, Resolve(tree, uri), b[Resolve(tree, uri)])
    ensures b[Resolve(tree, uri)] == Complete(tree, rank, uri)
  {
    Fallback(tree, rank, uri);
    hide Complete;
    hide Acyclic;
    SamePart(b[Resolve(tree, uri)], Complete(tree, rank, uri));
  }

  lemma HigherUp(tree: Tree, rank: string -> nat, c: string, k: nat)
    requires Acyclic(tree, rank) && c in tree && k < |tree[c].superClasses|
    ensures Resolve(tree, tree[c].superClasses[k]) in tree
    ensures rank(Resolve(tree, tree[c].superClasses[k])) < rank(c) && Resolve(tree, tree[c].superClasses[k]) != c
  {
  }

  /** An unknown class has what the top level class has. */
  lemma Fallback(tree: Tree, rank: string -> nat, uri: string)
    requires Acyclic(tree, rank)
    ensures Resolve(tree, uri) in tree && RESOURCE in tree
    ensures Complete(tree, rank, uri) == Complete(tree, rank, Resolve(tree, uri))
  {
  }

  lemma Begins(tree: Tree, rank: string -> nat, c: string, specs: Specs)
    requires Acyclic(tree, rank) && c in tree && Between(tree, rank, c, specs)
    ensures Part(UpTo(tree, rank, c, 0), specs) && Part(specs, specs)
  {
    hide Complete;
  }

  lemma Ends(tree: Tree, rank: string -> nat, c: string, specs: Specs)
    requires Acyclic(tree, rank) && c in tree
    requires Part(UpTo(tree, rank, c, |tree[c].superClasses|), specs) && Part(specs, Complete(tree, rank, c))
    ensures specs == Complete(tree, rank, c) && Between(tree, rank, c, specs)
  {
    UpToGrows(tree, rank, c, 0, |tree[c].superClasses|);
    SamePart(specs, Complete(tree, rank, c));
    hide UpTo;
  }

  // ----- the completed map in terms of the classes themselves

  /** A class and all its superclasses depth first, from left to right; a class is named as often as it is met. */
  ghost function Before(tree: Tree, rank: string -> nat, c: string, k: nat): seq<string>
    requires Acyclic(tree, rank) && c in tree && k <= |tree[c].superClasses|
    decreases rank(c), k
  {
    if k == 0 then [c] else Before(tree, rank, c, k - 1) + Ancestry(tree, rank, tree[c].superClasses[k - 1])
  }

  ghost function Ancestry(tree: Tree, rank: string -> nat, uri: string): seq<string>
    requires Acyclic(tree, rank)
    decreases rank(Resolve(tree, uri)), |tree[Resolve(tree, uri)].superClasses| + 1
  {
    var c := Resolve(tree, uri);
    Before(tree, rank, c, |tree[c].superClasses|)
  }

  /** The class itself comes first, an unknown one as the top level class; then everything its superclasses lead to, in turn. */
  lemma AncestryStarts(tree: Tree, rank: string -> nat, uri: string)
    requires Acyclic(tree, rank)
    ensures uri !in tree ==> Ancestry(tree, rank, uri) == Ancestry(tree, rank, "rdfs:Resource")
    ensures uri in tree ==> Ancestry(tree, rank, uri) != [] && Ancestry(tree, rank, uri)[0] == uri
    ensures uri in tree && tree[uri].superClasses == [] ==> Ancestry(tree, rank, uri) == [uri]
    ensures uri in tree && tree[uri].superClasses != [] ==>
      [uri] + Ancestry(tree, rank, tree[uri].superClasses[0]) <= Ancestry(tree, rank, uri)
  {
    if uri in tree {
      BeforeStarts(tree, rank, uri, |tree[uri].superClasses|);
    }
  }

  lemma {:induction false} BeforeStarts(tree: Tree, rank: string -> nat, c: string, k: nat)
    requires Acyclic(tree, rank) && c in tree && k <= |tree[c].superClasses|
    ensures Before(tree, rank, c, k) != [] && Before(tree, rank, c, k)[0] == c
    ensures k > 0 ==> [c] + Ancestry(tree, rank, tree[c].superClasses[0]) <= Before(tree, rank, c, k)
  {
    hide Before;
    hide Ancestry;
    if k == 0 {
      BeforeNone(tree, rank, c);
    } else {
      BeforeStarts(tree, rank, c, k - 1);
      BeforeNone(tree, rank, c);
      BeforeMore(tree, rank, c, k);
    }
  }

  lemma BeforeNone(tree: Tree, rank: string -> nat, c: string)
    requires Acyclic(tree, rank) && c in tree
    ensures Before(tree, rank, c, 0) == [c]
  {
  }

  lemma BeforeMore(tree: Tree, rank: string -> nat, c: string, k: nat)
    requires Acyclic(tree, rank) && c in tree && 0 < k <= |tree[c].superClasses|
    ensures Before(tree, rank, c, k) == Before(tree, rank, c, k - 1) + Ancestry(tree, rank, tree[c].superClasses[k - 1])
  {
    hide Ancestry;
  }

  /** The first class of a list that has a specification for the property. */
  ghost predicate FirstHas(tree: Tree, classes: seq<string>, p: string, spec: string) {
    exists i | 0 <= i < |classes| ::
      && classes[i] in tree && p in tree[classes[i]].specifications && tree[classes[i]].specifications[p] == spec
      && forall j | 0 <= j < i :: classes[j] in tree && p !in tree[classes[j]].specifications
  }

  ghost predicate NoneHas(tree: Tree, classes: seq<string>, p: string) {
    forall j | 0 <= j < |classes| :: classes[j] in tree && p !in tree[classes[j]].specifications
  }

  /** The specification of a property in a completed map: the one found first, if there is any. */
  ghost predicate Found(tree: Tree, classes: seq<string>, specs: Specs, p: string) {
    if p in specs then FirstHas(tree, classes, p, specs[p]) else NoneHas(tree, classes, p)
  }

  lemma FoundConcat(tree: Tree, a: seq<string>, b: seq<string>, x: Specs, y: Specs, p: string)
    requires Found(tree, a, x, p) && Found(tree, b, y, p)
    ensures Found(tree, a + b, Fill(x, y), p)
  {
    if p in x {
      var i :| 0 <= i < |a| && a[i] in tree && p in tree[a[i]].specifications && tree[a[i]].specifications[p] == x[p]
               && forall j | 0 <= j < i :: a[j] in tree && p !in tree[a[j]].specifications;
      assert (a + b)[i] == a[i];
    } else if p in y {
      var i :| 0 <= i < |b| && b[i] in tree && p in tree[b[i]].specifications && tree[b[i]].specifications[p] == y[p]
               && forall j | 0 <= j < i :: b[j] in tree && p !in tree[b[j]].specifications;
      assert (a + b)[|a| + i] == b[i];
    }
  }

  lemma {:induction false} UpToFound(tree: Tree, rank: string -> nat, c: string, k: nat, p: string)
    requires Acyclic(tree, rank) && c in tree && k <= |tree[c].superClasses|
    ensures Found(tree, Before(tree, rank, c, k), UpTo(tree, rank, c, k), p)
    decreases rank(c), k
  {
    if k > 0 {
      var s := tree[c].superClasses[k - 1];
      UpToFound(tree, rank, c, k - 1, p);
      UpToFound(tree, rank, Resolve(tree, s), |tree[Resolve(tree, s)].superClasses|, p);
      assert Complete(tree, rank, s) == UpTo(tree, rank, Resolve(tree, s), |tree[Resolve(tree, s)].superClasses|);
      assert Ancestry(tree, rank, s) == Before(tree, rank, Resolve(tree, s), |tree[Resolve(tree, s)].superClasses|);
      assert Before(tree, rank, c, k) == Before(tree, rank, c, k - 1) + Ancestry(tree, rank, s);
      assert UpTo(tree, rank, c, k) == Fill(UpTo(tree, rank, c, k - 1), Complete(tree, rank, s));
      hide *;
      FoundConcat(tree, Before(tree, rank, c, k - 1), Ancestry(tree, rank, s), UpTo(tree, rank, c, k - 1),
                  Complete(tree, rank, s), p);
    } else {
      FoundAlone(tree, c, p);
    }
  }

  lemma FoundAlone(tree: Tree, c: string, p: string)
    requires c in tree
    ensures Found(tree, [c], tree[c].specifications, p)
  {
    if p in tree[c].specifications {
      assert [c][0] in tree && p in tree[[c][0]].specifications;
    }
  }

  /** A property is specified for a class iff the class or one of its superclasses specifies it, and the first one decides. */
  lemma CompleteFound(tree: Tree, rank: string -> nat, uri: string, p: string)
    requires Acyclic(tree, rank)
    ensures Found(tree, Ancestry(tree, rank, uri), Complete(tree, rank, uri), p)
  {
    var c := Resolve(tree, uri);
    UpToFound(tree, rank, c, |tree[c].superClasses|, p);
  }

  // ----- properties, which are collected without any memory

  ghost function PropsUpTo(tree: Tree, rank: string -> nat, c: string, k: nat): seq<string>
    requires Acyclic(tree, rank) && c in tree && k <= |tree[c].superClasses|
    decreases rank(c), k
  {
    if k == 0 then tree[c].properties
    else PropsUpTo(tree, rank, c, k - 1) + GetProps(tree, rank, tree[c].superClasses[k - 1])
  }

  ghost function GetProps(tree: Tree, rank: string -> nat, uri: string): seq<string>
    requires Acyclic(tree, rank)
    decreases rank(Resolve(tree, uri)), |tree[Resolve(tree, uri)].superClasses| + 1
  {
    var c := Resolve(tree, uri);
    PropsUpTo(tree, rank, c, |tree[c].superClasses|)
  }

  ghost predicate SomeHas(tree: Tree, classes: seq<string>, p: string) {
    exists i | 0 <= i < |classes| :: classes[i] in tree && p in tree[classes[i]].properties
  }

  lemma SomeHasConcat(tree: Tree, a: seq<string>, b: seq<string>, p: string)
    ensures SomeHas(tree, a + b, p) <==> SomeHas(tree, a, p) || SomeHas(tree, b, p)
  {
    if SomeHas(tree, a, p) {
      var i :| 0 <= i < |a| && a[i] in tree && p in tree[a[i]].properties;
      assert (a + b)[i] == a[i];
    }
    if SomeHas(tree, b, p) {
      var i :| 0 <= i < |b| && b[i] in tree && p in tree[b[i]].properties;
      assert (a + b)[|a| + i] == b[i];
    }
  }

  lemma {:induction false} PropsUpToFrom(tree: Tree, rank: string -> nat, c: string, k: nat, p: string)
    requires Acyclic(tree, rank) && c in tree && k <= |tree[c].superClasses|
    ensures p in PropsUpTo(tree, rank, c, k) <==> SomeHas(tree, Before(tree, rank, c, k), p)
    decreases rank(c), k
  {
    if k > 0 {
      var s := tree[c].superClasses[k - 1];
      PropsUpToFrom(tree, rank, c, k - 1, p);
      PropsUpToFrom(tree, rank, Resolve(tree, s), |tree[Resolve(tree, s)].superClasses|, p);
      SomeHasConcat(tree, Before(tree, rank, c, k - 1), Ancestry(tree, rank, s), p);
      hide SomeHas;
    } else {
      assert [c][0] == c;
    }
  }

  /** The first occurrences, in order. */
  function FirstOnes(ids: seq<string>): seq<string> {
    if ids == [] then []
    else
      var before, last := ids[..|ids| - 1], ids[|ids| - 1];
      FirstOnes(before) + if last in before then [] else [last]
  }

  lemma {:induction false} FirstOnesOnce(ids: seq<string>)
    ensures forall p :: p in FirstOnes(ids) <==> p in ids
    ensures forall i, j | 0 <= i < j < |FirstOnes(ids)| :: FirstOnes(ids)[i] != FirstOnes(ids)[j]
  {
    if ids != [] {
      var before, last := ids[..|ids| - 1], ids[|ids| - 1];
      FirstOnesOnce(before);
      assert ids == before + [last];
    }
  }

  lemma {:induction false} FirstOnesPrefix(a: seq<string>, b: seq<string>)
    ensures FirstOnes(a) <= FirstOnes(a + b)
  {
    if b == [] {
      assert a + b == a;
    } else {
      assert (a + b)[..|a + b| - 1] == a + b[..|b| - 1];
      FirstOnesPrefix(a, b[..|b| - 1]);
    }
  }

  lemma FirstOnesMore(before: seq<string>, last: string)
    requires last !in before
    ensures FirstOnes(before + [last]) == FirstOnes(before) + [last]
  {
    assert (before + [last])[..|before|] == before;
  }

  /** In order: an id stands right behind those that are met before it is met first. */
  lemma FirstOnesInOrder(before: seq<string>, id: string, after: seq<string>)
    requires id !in before
    ensures FirstOnes(before) + [id] <= FirstOnes(before + [id] + after)
  {
    FirstOnesMore(before, id);
    FirstOnesPrefix(before + [id], after);
    hide FirstOnes;
  }

  /** Repeats are dropped in one loop that keeps what was seen. */
  method Unique(ids: seq<string>) returns (r: seq<string>)
    ensures r == FirstOnes(ids)
  {
    r := [];
    var seen: map<string, bool> := map[];
    for i := 0 to |ids|
      invariant r == FirstOnes(ids[..i]) && forall p :: p in seen <==> p in ids[..i]
    {
      assert ids[..i + 1][..i] == ids[..i] && ids[..i + 1] == ids[..i] + [ids[i]];
      if ids[i] !in seen {
        seen := seen[ids[i] := true];
        r := r + [ids[i]];
      }
    }
    assert ids[..|ids|] == ids;
  }

  /** What is asked for: the properties, each once. */
  ghost function ClassProperties(tree: Tree, rank: string -> nat, uri: string): seq<string>
    requires Acyclic(tree, rank)
  {
    FirstOnes(GetProps(tree, rank, uri))
  }

  /** The properties of a class are its own and those of its superclasses, each of them once. */
  lemma PropsFrom(tree: Tree, rank: string -> nat, uri: string, p: string)
    requires Acyclic(tree, rank)
    ensures var props := ClassProperties(tree, rank, uri);
            && (p in props <==> SomeHas(tree, Ancestry(tree, rank, uri), p))
            && forall i, j | 0 <= i < j < |props| :: props[i] != props[j]
  {
    var c := Resolve(tree, uri);
    PropsUpToFrom(tree, rank, c, |tree[c].superClasses|, p);
    FirstOnesOnce(GetProps(tree, rank, uri));
  }

  /** The properties of some classes, class after class. */
  ghost function PropertiesOf(tree: Tree, classes: seq<string>): seq<string>
    requires forall c | c in classes :: c in tree
  {
    if classes == [] then []
    else PropertiesOf(tree, classes[..|classes| - 1]) + tree[classes[|classes| - 1]].properties
  }

  lemma PropertiesMore(tree: Tree, classes: seq<string>, c: string)
    requires (forall x | x in classes :: x in tree) && c in tree
    ensures forall x | x in classes + [c] :: x in tree
    ensures PropertiesOf(tree, classes + [c]) == PropertiesOf(tree, classes) + tree[c].properties
  {
    assert (classes + [c])[..|classes|] == classes;
  }

  lemma {:induction false} PropertiesConcat(tree: Tree, a: seq<string>, b: seq<string>)
    requires (forall c | c in a :: c in tree) && forall c | c in b :: c in tree
    ensures forall c | c in a + b :: c in tree
    ensures PropertiesOf(tree, a + b) == PropertiesOf(tree, a) + PropertiesOf(tree, b)
  {
    if b == [] {
      assert a + b == a;
    } else {
      var k := |b| - 1;
      PropertiesConcat(tree, a, b[..k]);
      PropertiesMore(tree, a + b[..k], b[k]);
      PropertiesMore(tree, b[..k], b[k]);
      assert b[..k] + [b[k]] == b && a + b[..k] + [b[k]] == a + b;
    }
  }

  lemma PropertiesOfOne(tree: Tree, c: string)
    requires c in tree
    ensures PropertiesOf(tree, [c]) == tree[c].properties
  {
    assert [c][..0] == [];
  }

  lemma {:induction false} PropsInOrder(tree: Tree, rank: string -> nat, c: string, k: nat)
    requires Acyclic(tree, rank) && c in tree && k <= |tree[c].superClasses|
    ensures var classes := Before(tree, rank, c, k);
            (forall x | x in classes :: x in tree) && PropsUpTo(tree, rank, c, k) == PropertiesOf(tree, classes)
    decreases rank(c), k
  {
    hide PropertiesOf;
    if k > 0 {
      var s := tree[c].superClasses[k - 1];
      PropsInOrder(tree, rank, c, k - 1);
      PropsInOrder(tree, rank, Resolve(tree, s), |tree[Resolve(tree, s)].superClasses|);
      PropertiesConcat(tree, Before(tree, rank, c, k - 1), Ancestry(tree, rank, s));
    } else {
      PropertiesOfOne(tree, c);
    }
  }

  /** They come in the order in which the classes are met, the own ones first; a repeat keeps its first place. */
  lemma PropertiesInOrder(
    tree: Tree, rank: string -> nat, uri: string, before: seq<string>, property: string, after: seq<string>)
    requires Acyclic(tree, rank) && (forall c | c in Ancestry(tree, rank, uri) :: c in tree)
    requires PropertiesOf(tree, Ancestry(tree, rank, uri)) == before + [property] + after && property !in before
    ensures FirstOnes(before) + [property] <= ClassProperties(tree, rank, uri)
  {
    var c := Resolve(tree, uri);
    PropsInOrder(tree, rank, c, |tree[c].superClasses|);
    FirstOnesInOrder(before, property, after);
    hide FirstOnes;
    hide PropertiesOf;
  }

  /** All classes met are in the tree. */
  lemma AncestryKnown(tree: Tree, rank: string -> nat, uri: string)
    requires Acyclic(tree, rank)
    ensures forall c | c in Ancestry(tree, rank, uri) :: c in tree
  {
    var c := Resolve(tree, uri);
    PropsInOrder(tree, rank, c, |tree[c].superClasses|);
  }
}
