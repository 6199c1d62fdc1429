/** Numbering of documents: a save triggers the numerator, whose own save triggers nothing; and which saves keep the numbers apart. */
module Numeration {
  import opened Numerator
  import opened Wrappers

  /** The number 0 stands for no number. */
  datatype Doc = Doc(number: int, deleted: bool)

  type Docs = map<string, Doc>

  function Stored(docs: Docs, id: string): Option<Doc> {
    if id in docs then Some(docs[id]) else None
  }

  function NumberOf(prev: Option<Doc>): int {
    if prev.Some? then prev.value.number else 0
  }

  // ----- what one save does to the committed numbers

  /** No number now and none before: a new one is given out. */
  predicate Numbers(doc: Doc, prev: Option<Doc>) {
    doc.number == 0 && NumberOf(prev) == 0
  }

  /** What is stored in the end, when no new number is given out: an erased number comes back. */
  function Settled(doc: Doc, prev: Option<Doc>): Doc {
    if doc.number == 0 then doc.(number := NumberOf(prev)) else doc
  }

  ghost function CommittedAfter(committed: iset<int>, doc: Doc, prev: Option<Doc>): iset<int> {
    if doc.number == 0 || prev == Some(doc) then committed
    else if prev.None? then committed + iset{doc.number}
    else if doc.deleted then committed - iset{doc.number}
    else if NumberOf(prev) != 0 && NumberOf(prev) != doc.number then committed + iset{doc.number} - iset{NumberOf(prev)}
    else committed
  }

  // ----- the invariant

  predicate Live(docs: Docs, id: string) {
    id in docs && !docs[id].deleted
  }

  /** Live documents have numbers, different ones, and these are the committed numbers. */
  ghost predicate Consistent(docs: Docs, committed: iset<int>) {
    && (forall a :: Live(docs, a) ==> docs[a].number != 0 && docs[a].number in committed)
    && (forall a, b :: Live(docs, a) && Live(docs, b) && docs[a].number == docs[b].number ==> a == b)
    && (forall n :: n in committed ==> exists a :: Live(docs, a) && docs[a].number == n)
  }

  /** The committed numbers that are those of other documents. */
  ghost function Others(docs: Docs, committed: iset<int>, id: string): iset<int> {
    if Live(docs, id) then committed - iset{docs[id].number} else committed
  }

  /** What the numbers must be once one document has changed. */
  lemma OneChange(docs: Docs, committed: iset<int>, id: string, doc: Doc, committed': iset<int>)
    requires Consistent(docs, committed)
    ensures var others := Others(docs, committed, id);
            Consistent(docs[id := doc], committed') <==>
            if doc.deleted then committed' == others
            else doc.number != 0 && doc.number !in others && committed' == others + iset{doc.number}
  {
    var docs', others := docs[id := doc], Others(docs, committed, id);
    assert forall a :: a != id ==> Live(docs', a) == Live(docs, a) && (a in docs ==> docs'[a] == docs[a]);
    OthersMeans(docs, committed, id);
    if Consistent(docs', committed') {
      forall n | n in others ensures n in committed' && (Live(docs', id) ==> n != doc.number) {
        var a :| a != id && Live(docs, a) && docs[a].number == n;
        assert Live(docs', a);
      }
      forall n | n in committed' ensures n in others || (Live(docs', id) && n == doc.number) {
        var a :| Live(docs', a) && docs'[a].number == n;
        assert a != id ==> Live(docs, a);
      }
      assert Live(docs', id) <==> !doc.deleted;
    } else if if doc.deleted then committed' == others
              else doc.number != 0 && doc.number !in others && committed' == others + iset{doc.number} {
      ChangeKeeps(docs, committed, id, doc, committed');
      assert false;
    }
  }

  lemma OthersMeans(docs: Docs, committed: iset<int>, id: string)
    requires Consistent(docs, committed)
    ensures forall n :: n in Others(docs, committed, id) <==> exists a :: a != id && Live(docs, a) && docs[a].number == n
  {
    forall n | n in Others(docs, committed, id) ensures exists a :: a != id && Live(docs, a) && docs[a].number == n {
      var a :| Live(docs, a) && docs[a].number == n;
      assert a != id;
    }
  }

  lemma ChangeKeeps(docs: Docs, committed: iset<int>, id: string, doc: Doc, committed': iset<int>)
    requires Consistent(docs, committed)
    requires var others := Others(docs, committed, id);
             if doc.deleted then committed' == others
             else doc.number != 0 && doc.number !in others && committed' == others + iset{doc.number}
    ensures Consistent(docs[id := doc], committed')
  {
    var docs', others := docs[id := doc], Others(docs, committed, id);
    assert forall a :: a != id ==> Live(docs', a) == Live(docs, a) && (a in docs ==> docs'[a] == docs[a]);
    OthersMeans(docs, committed, id);
    forall a | Live(docs', a) ensures docs'[a].number != 0 && docs'[a].number in committed' {
      assert a != id ==> docs[a].number in others;
    }
    forall a, b | Live(docs', a) && Live(docs', b) && docs'[a].number == docs'[b].number ensures a == b {
      assert a != id ==> docs[a].number in others;
      assert b != id ==> docs[b].number in others;
    }
    forall n | n in committed' ensures exists a :: Live(docs', a) && docs'[a].number == n {
      if n in others {
        var a :| a != id && Live(docs, a) && docs[a].number == n;
        assert Live(docs', a);
      } else {
        assert Live(docs', id);
      }
    }
  }

  predicate Taken(docs: Docs, number: int) {
    exists a | a in docs :: Live(docs, a) && docs[a].number == number
  }

  lemma TakenMeans(docs: Docs, committed: iset<int>)
    requires Consistent(docs, committed)
    ensures forall n :: Taken(docs, n) <==> n in committed
  {
  }

  /**
   The saves that leave live numbers and committed ones the same: a new number for a document that is not deleted, an erased
   one that stays as deleted or not as it was, a save that changes nothing; a new document with a free number, or deleted with
   a number in use; a deletion with the number unchanged; a number changed to a free one, if the old one can be given back.
   */
  predicate Keeps(docs: Docs, id: string, doc: Doc) {
    var prev := Stored(docs, id);
    if Numbers(doc, prev) then !doc.deleted
    else if doc.number == 0 then doc.deleted == prev.value.deleted
    else if prev == Some(doc) then true
    else if prev.None? then doc.deleted <==> Taken(docs, doc.number)
    else if doc.deleted then if Live(docs, id) then doc.number == prev.value.number else !Taken(docs, doc.number)
    else
      && prev.value.number != 0 && doc.number != prev.value.number && !Taken(docs, doc.number)
      && (prev.value.deleted ==> !Taken(docs, prev.value.number))
  }

  /** Exactly these; `number` is the one given out, if one is. */
  lemma KeepsIff(docs: Docs, committed: iset<int>, id: string, doc: Doc, number: int)
    requires Consistent(docs, committed) && (Numbers(doc, Stored(docs, id)) ==> number != 0 && number !in committed)
    ensures var prev := Stored(docs, id);
            Keeps(docs, id, doc) <==>
            if Numbers(doc, prev) then Consistent(docs[id := doc.(number := number)], committed + iset{number})
            else Consistent(docs[id := Settled(doc, prev)], CommittedAfter(committed, doc, prev))
  {
    var prev := Stored(docs, id);
    var stored := if Numbers(doc, prev) then doc.(number := number) else Settled(doc, prev);
    var after := if Numbers(doc, prev) then committed + iset{number} else CommittedAfter(committed, doc, prev);
    OneChange(docs, committed, id, stored, after);
    assert Live(docs, id) ==> docs[id].number != 0 && docs[id].number in committed;
    TakenMeans(docs, committed);
    hide Consistent;
    hide Taken;
    var others := Others(docs, committed, id);
    if doc.number != 0 && prev.Some? && !doc.deleted && NumberOf(prev) != 0 && NumberOf(prev) != doc.number {
      Exchanged(committed, doc.number, NumberOf(prev));
    } else if doc.number != 0 && prev.Some? && doc.deleted {
      assert doc.number in committed && doc.number != NumberOf(prev) ==> after != committed;
      assert Live(docs, id) && doc.number != NumberOf(prev) ==> NumberOf(prev) in after && NumberOf(prev) !in others;
    }
    assert number in committed + iset{number};
    assert doc.number in committed + iset{doc.number};
  }

  /** One number taken for another. */
  lemma Exchanged(committed: iset<int>, number: int, was: int)
    requires number != was
    ensures var after := committed + iset{number} - iset{was};
            && (after == committed + iset{number} <==> was !in committed)
            && after == committed - iset{was} + iset{number}
  {
    if was in committed {
      assert was in committed + iset{number};
    }
  }

  /** What a save comes to: a new number above all committed ones, or the number and the committed numbers as said. */
  ghost predicate Saved(docs: Docs, committed: iset<int>, id: string, doc: Doc, docs': Docs, committed': iset<int>) {
    var prev := Stored(docs, id);
    if Numbers(doc, prev) then
      && id in docs' && docs' == docs[id := doc.(number := docs'[id].number)]
      && docs'[id].number > 0 && (forall v :: v in committed ==> v < docs'[id].number)
      && committed' == committed + iset{docs'[id].number}
    else docs' == docs[id := Settled(doc, prev)] && committed' == CommittedAfter(committed, doc, prev)
  }

  lemma SavedIff(docs: Docs, committed: iset<int>, id: string, doc: Doc, docs': Docs, committed': iset<int>)
    requires Consistent(docs, committed) && Saved(docs, committed, id, doc, docs', committed')
    ensures Consistent(docs', committed') <==> Keeps(docs, id, doc)
  {
    hide Consistent;
    hide Keeps;
    KeepsIff(docs, committed, id, doc, docs'[id].number);
  }

  class Registry {
    const scope: Scope
    const firstValue: int
    var docs: Docs

    ghost predicate Valid()
      reads this, scope
    {
      scope.Valid() && firstValue > 0
    }

    ghost predicate Good()
      reads this, scope
    {
      Valid() && Consistent(docs, scope.Committed())
    }

    constructor (firstValue: int)
      requires firstValue > 0
      ensures Good() && docs == map[] && fresh(scope)
    {
      this.firstValue, docs := firstValue, map[];
      scope := new Scope();
    }

    /** A document is stored, and the numerator runs on the event of it. */
    method Save(id: string, doc: Doc)
      requires Valid()
      modifies this, scope
      ensures Valid() && Saved(old(docs), old(scope.Committed()), id, doc, docs, scope.Committed())
      ensures old(Good()) ==> (Good() <==> Keeps(old(docs), id, doc))
    {
      var prev := Stored(docs, id);
      ghost var was, committed := docs, scope.Committed();
      docs := docs[id := doc];
      Numerate(id, doc, prev);
      if old(Good()) {
        SavedIff(was, committed, id, doc, docs, scope.Committed());
      }
    }

    /** The numerator on one event: the document as saved and its state before. What it stores does not trigger it again. */
    method Numerate(id: string, individual: Doc, prev: Option<Doc>)
      requires Valid() && id in docs && docs[id] == individual
      modifies this, scope
      ensures Valid()
      ensures if Numbers(individual, prev) then
                && id in docs && docs == old(docs)[id := individual.(number := docs[id].number)]
                && docs[id].number > 0 && (forall v :: v in old(scope.Committed()) ==> v < docs[id].number)
                && scope.Committed() == old(scope.Committed()) + iset{docs[id].number}
              else
                && docs == old(docs)[id := Settled(individual, prev)]
                && scope.Committed() == CommittedAfter(old(scope.Committed()), individual, prev)
    {
      var number, prevNumber := individual.number, NumberOf(prev);
      if number != 0 && prevNumber != 0 && number == prevNumber && individual.deleted == prev.value.deleted {
        return;
      }
      if number == 0 && prevNumber == 0 {
        number := scope.NextValueSimple(firstValue);
        var _ := scope.CommitValue(number);
        docs := docs[id := individual.(number := number)];
      } else if number == 0 {
        docs := docs[id := individual.(number := prevNumber)];
      } else if prev.None? {
        var _ := scope.CommitValue(number);
      } else if individual.deleted {
        scope.RevokeValue(number);
      } else if prevNumber != 0 && number != prevNumber {
        var _ := scope.CommitValue(number);
        scope.RevokeValue(prevNumber);
      }
    }

    // ----- the saves of one kind

    /** A document created without a number gets one above all committed numbers. */
    method Create(id: string)
      requires Good() && id !in docs
      modifies this, scope
      ensures Good()
      ensures id in docs && docs == old(docs)[id := Doc(docs[id].number, false)]
      ensures scope.Committed() == old(scope.Committed()) + iset{docs[id].number}
      ensures forall a :: Live(old(docs), a) ==> old(docs)[a].number < docs[id].number
    {
      Save(id, Doc(0, false));
    }

    /** Deleting a live document gives its number back, and no other. */
    method Delete(id: string)
      requires Good() && Live(docs, id)
      modifies this, scope
      ensures Good() && docs == old(docs)[id := Doc(old(docs)[id].number, true)]
      ensures scope.Committed() == old(scope.Committed()) - iset{old(docs)[id].number}
    {
      Save(id, docs[id].(deleted := true));
    }

    /** Saving a numbered document unchanged changes nothing. */
    method Resave(id: string)
      requires Good() && id in docs && docs[id].number != 0
      modifies this, scope
      ensures Good() && docs == old(docs) && scope.Committed() == old(scope.Committed())
    {
      assert docs[id := docs[id]] == docs;
      Save(id, docs[id]);
    }

    /** A live document saved with its number erased gets the same number back. */
    method Erase(id: string)
      requires Good() && Live(docs, id)
      modifies this, scope
      ensures Good() && docs == old(docs) && scope.Committed() == old(scope.Committed())
    {
      assert docs[id := docs[id]] == docs;
      Save(id, docs[id].(number := 0));
    }

    /** A document deleted with its number erased gets the number back, and the number stays committed. */
    method DeleteErased(id: string)
      requires Good() && Live(docs, id)
      modifies this, scope
      ensures docs == old(docs)[id := Doc(old(docs)[id].number, true)] && scope.Committed() == old(scope.Committed())
      ensures !Good()
    {
      Save(id, Doc(0, true));
    }

    /** A document created with a number of its own: the invariant survives just when the number was not committed. */
    method CreateNumbered(id: string, number: int)
      requires Good() && id !in docs && number != 0
      modifies this, scope
      ensures docs == old(docs)[id := Doc(number, false)] && scope.Committed() == old(scope.Committed()) + iset{number}
      ensures Good() <==> number !in old(scope.Committed())
    {
      Save(id, Doc(number, false));
    }

    /** A live document saved with another number, which is committed, while the old one is given back: the same. */
    method Renumber(id: string, number: int)
      requires Good() && Live(docs, id) && number != 0 && number != docs[id].number
      modifies this, scope
      ensures docs == old(docs)[id := Doc(number, false)]
      ensures scope.Committed() == old(scope.Committed()) + iset{number} - iset{old(docs)[id].number}
      ensures Good() <==> number !in old(scope.Committed())
    {
      Save(id, Doc(number, false));
    }

    /** Undeleting never keeps it: nothing is committed, so the number is missing or belongs to another document. */
    method Undelete(id: string)
      requires Good() && id in docs && docs[id].deleted && docs[id].number != 0
      modifies this, scope
      ensures docs == old(docs)[id := Doc(old(docs)[id].number, false)] && scope.Committed() == old(scope.Committed())
      ensures !Good()
    {
      Save(id, docs[id].(deleted := false));
    }

    // ----- runs

    /** Over any run of saves, up to the first that does not keep it, live numbers differ and are the committed ones. */
    method Run(saves: seq<(string, Doc)>) returns (n: nat)
      requires Good()
      modifies this, scope
      ensures Good() && n <= |saves| && (n < |saves| ==> !Keeps(docs, saves[n].0, saves[n].1))
    {
      hide Keeps;
      hide Saved;
      n := 0;
      while n < |saves| && Keeps(docs, saves[n].0, saves[n].1)
        invariant Good() && n <= |saves|
      {
        Save(saves[n].0, saves[n].1);
        n := n + 1;
      }
    }
  }
}
