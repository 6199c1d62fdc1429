/**
 The operator ">=". The priority table has "=>" in its place, so that it reduces everything before it, opening brackets
 included, and nothing after it reduces it. Which texts that are printed with the priority meant still parse to their tree.
 */
module VqlGreaterEqual {
  import opened Vql
  import opened VqlRoundTrip
  import opened VqlText
  import opened Wrappers

  /** The same with ">=", which is meant to bind like the other comparisons. */
  predicate Natural(d: Doc) {
    match d
    case Atom(mark, text) => Quote(mark) && Closing(mark) !in text
    case Binary(l, before, op, after, r) =>
      && Natural(l) && Natural(r) && White(before) && White(after)
      && Strength(l) >= Tightness(op) > 0 && Strength(r) > Tightness(op)
    case Bracketed(before, inner, after) => Natural(inner) && White(before) && White(after)
  }

  /** No ">=" anywhere. */
  predicate Free(d: Doc) {
    match d
    case Atom(_, _) => true
    case Binary(l, _, op, _, r) => op != ">=" && Free(l) && Free(r)
    case Bracketed(_, inner, _) => Free(inner)
  }

  /** No ">=" at all, or outside brackets one after the other, with nothing weaker or equal after the last operand. */
  predicate Leading(d: Doc) {
    Free(d) || (d.Binary? && d.op == ">=" && Free(d.r) && Leading(d.l))
  }

  /** A ">=" inside a bracket. */
  predicate Trapped(d: Doc) {
    match d
    case Atom(_, _) => false
    case Binary(l, _, _, _, r) => Trapped(l) || Trapped(r)
    case Bracketed(_, inner, _) => !Free(inner)
  }

  lemma {:induction false} NaturalSpelled(d: Doc)
    requires Natural(d)
    ensures Spelled(d) && (Free(d) ==> WellPrinted(d))
  {
    hide Tightness;
    hide IsBinary;
    if d.Binary? {
      Ranks(d.op);
      NaturalSpelled(d.l);
      NaturalSpelled(d.r);
    } else if d.Bracketed? {
      NaturalSpelled(d.inner);
    }
  }

  lemma {:induction false} LeadingUntrapped(d: Doc)
    ensures Leading(d) ==> !Trapped(d)
  {
    match d
    case Atom(_, _) =>
    case Binary(l, _, _, _, r) => LeadingUntrapped(l); LeadingUntrapped(r);
    case Bracketed(_, _, _) =>
  }

  // ----- inside brackets: operands are lost with the bracket

  function Nodes(t: TTA): (n: nat)
    ensures n > 0
  {
    1 + (match t.l case None => 0 case Some(l) => Nodes(l)) + (match t.r case None => 0 case Some(r) => Nodes(r))
  }

  function Weight(st: seq<TTA>): nat {
    if st == [] then 0 else Weight(st[..|st| - 1]) + Nodes(st[|st| - 1])
  }

  function Brackets(ops: seq<string>): (n: nat)
    ensures n <= |ops|
  {
    if ops == [] then 0 else Brackets(ops[..|ops| - 1]) + if ops[|ops| - 1] == "(" then 1 else 0
  }

  /** The nodes on the stacks, and those that waiting operators will add. */
  function Total(st: seq<TTA>, ops: seq<string>): nat {
    Weight(st) + |ops| - Brackets(ops)
  }

  predicate Known(ops: seq<string>) {
    forall o | o in ops :: IsBinary(o) || o == "("
  }

  /** From one pair of stacks to another at most n nodes are added, and fewer if a bracket got lost. */
  predicate Within(st: seq<TTA>, ops: seq<string>, st': seq<TTA>, ops': seq<string>, n: nat) {
    && Known(ops')
    && Total(st', ops') <= Total(st, ops) + n
    && (Brackets(ops') < Brackets(ops) ==> Total(st', ops') < Total(st, ops) + n)
  }

  lemma ProcessWeighs(st: seq<TTA>, op: string)
    ensures IsBinary(op) ==> Weight(ProcessOp(st, op)) == Weight(st) + 1 && ProcessOp(st, op) != []
    ensures !IsBinary(op) ==> Weight(ProcessOp(st, op)) <= Weight(st) - if st == [] then 0 else 1
  {
    hide IsBinary;
    var st' := Rest(Rest(st));
    var node := TTA(op, Plain, Top(Rest(st)), Top(st));
    assert Weight(st) - Weight(st') == Nodes(node) - 1;
    assert (st' + [node])[..|st'|] == st';
  }

  lemma {:induction false} PopsWithin(st: seq<TTA>, ops: seq<string>, stop: Stop)
    requires Known(ops)
    ensures var (st', ops') := PopWhile(st, ops, stop);
            && Known(ops') && Total(st', ops') <= Total(st, ops)
            && (st != [] ==> Within(st, ops, st', ops', 0))
            && (st != [] && stop == Bracket ==> st' != [])
    decreases |ops|
  {
    hide ProcessOp;
    hide Nodes;
    hide IsBinary;
    hide Priority;
    if ops != [] && !StopsAt(stop, ops[|ops| - 1]) {
      ProcessWeighs(st, ops[|ops| - 1]);
      BracketIsNoOperator();
      PopsWithin(ProcessOp(st, ops[|ops| - 1]), ops[..|ops| - 1], stop);
    }
  }

  lemma BracketIsNoOperator()
    ensures !IsBinary("(")
  {
  }

  lemma PriorityMissing()
    ensures Priority(">=") == -1
  {
  }

  /** An operator of the missing priority reduces everything. */
  lemma {:induction false} PopsAll(st: seq<TTA>, ops: seq<string>, priority: int)
    requires priority == -1
    ensures PopWhile(st, ops, Weaker(priority)) == PopWhile(st, ops, Never)
    ensures PopWhile(st, ops, Never).1 == []
    decreases |ops|
  {
    hide ProcessOp;
    if ops != [] {
      PopsAll(ProcessOp(st, ops[|ops| - 1]), ops[..|ops| - 1], priority);
    }
  }

  lemma PushWithin(st: seq<TTA>, ops: seq<string>, st': seq<TTA>, ops': seq<string>, op: string)
    requires Within(st, ops, st', ops', 0) && IsBinary(op)
    ensures Within(st, ops, st', ops' + [op], 1)
    ensures Brackets(ops) > 0 && ops' == [] ==> Total(st', ops' + [op]) <= Total(st, ops)
  {
    hide IsBinary;
    hide Weight;
    assert (ops' + [op])[..|ops'|] == ops';
    BracketIsNoOperator();
  }

  lemma OperatorWithin(st: seq<TTA>, ops: seq<string>, op: string)
    requires Known(ops) && st != [] && IsBinary(op)
    ensures var (st', ops') := Feed(st, ops, Operator(op));
            && Within(st, ops, st', ops', 1)
            && (op == ">=" && Brackets(ops) > 0 ==> Total(st', ops') <= Total(st, ops))
  {
    hide IsBinary;
    hide Priority;
    hide Total;
    hide Brackets;
    var (st', ops') := PopWhile(st, ops, Weaker(Priority(op)));
    PopsWithin(st, ops, Weaker(Priority(op)));
    hide Known;
    PushWithin(st, ops, st', ops', op);
    PriorityMissing();
    PopsAll(st, ops, -1);
    hide Within;
    hide PopWhile;
  }

  lemma {:induction false} CloseLeaves(st: seq<TTA>, ops: seq<string>)
    ensures var (_, ops') := PopWhile(st, ops, Bracket);
            Brackets(ops') == Brackets(ops) && (ops' != [] ==> ops'[|ops'| - 1] == "(")
    decreases |ops|
  {
    hide ProcessOp;
    if ops != [] && ops[|ops| - 1] != "(" {
      CloseLeaves(ProcessOp(st, ops[|ops| - 1]), ops[..|ops| - 1]);
    }
  }

  /** A waiting bracket is closed by taking it off. */
  lemma LastBracket(st: seq<TTA>, ops: seq<string>)
    requires Known(ops) && (ops != [] ==> ops[|ops| - 1] == "(")
    ensures Known(Rest(ops)) && Total(st, Rest(ops)) == Total(st, ops)
    ensures Brackets(Rest(ops)) == if Brackets(ops) == 0 then 0 else Brackets(ops) - 1
  {
    hide IsBinary;
    hide Weight;
  }

  lemma CloseWithin(st: seq<TTA>, ops: seq<string>)
    requires Known(ops) && st != []
    ensures var (st', ops') := Feed(st, ops, Close);
            && Known(ops') && st' != [] && Total(st', ops') <= Total(st, ops)
            && Brackets(ops') == if Brackets(ops) == 0 then 0 else Brackets(ops) - 1
  {
    hide Known;
    hide Total;
    hide Brackets;
    hide PopWhile;
    hide Within;
    hide IsBinary;
    hide Priority;
    hide Rest;
    var (st', ops') := PopWhile(st, ops, Bracket);
    assert Feed(st, ops, Close) == (st', Rest(ops'));
    hide Feed;
    PopsWithin(st, ops, Bracket);
    CloseLeaves(st, ops);
    LastBracket(st', ops');
  }

  /** What reading d does, and that a ">=" under a bracket makes it add less than the nodes of the tree. */
  predicate Loses(d: Doc, st: seq<TTA>, ops: seq<string>) {
    var (st', ops') := Read(d, st, ops);
    var n := Nodes(Tree(d));
    && st' != []
    && Within(st, ops, st', ops', n)
    && ((!Free(d) && Brackets(ops) > 0) || Trapped(d) ==> Total(st', ops') < Total(st, ops) + n)
  }

  lemma {:induction false} ReadLoses(d: Doc, st: seq<TTA>, ops: seq<string>)
    requires Spelled(d) && Known(ops)
    ensures Loses(d, st, ops)
    decreases d, 1
  {
    match d
    case Atom(_, _) =>
      assert (st + [Tree(d)])[..|st|] == st;
    case Binary(_, _, _, _, _) => BinaryLoses(d, st, ops);
    case Bracketed(_, _, _) => BracketedLoses(d, st, ops);
  }

  lemma {:induction false} BinaryLoses(d: Doc, st: seq<TTA>, ops: seq<string>)
    requires d.Binary? && Spelled(d) && Known(ops)
    ensures Loses(d, st, ops)
    decreases d, 0
  {
    hide Feed;
    hide White;
    hide IsBinary;
    hide Known;
    hide Total;
    hide Brackets;
    var (st1, ops1) := Read(d.l, st, ops);
    var (st2, ops2) := Feed(st1, ops1, Operator(d.op));
    ReadLoses(d.l, st, ops);
    OperatorWithin(st1, ops1, d.op);
    ReadLoses(d.r, st2, ops2);
    assert Nodes(Tree(d)) == Nodes(Tree(d.l)) + 1 + Nodes(Tree(d.r));
    hide Nodes;
    hide Tree;
  }

  lemma {:induction false} BracketedLoses(d: Doc, st: seq<TTA>, ops: seq<string>)
    requires d.Bracketed? && Spelled(d) && Known(ops)
    ensures Loses(d, st, ops)
    decreases d, 0
  {
    hide Feed;
    hide White;
    hide IsBinary;
    hide Nodes;
    hide Weight;
    var ops1 := ops + ["("];
    assert ops1[..|ops|] == ops && Brackets(ops1) == Brackets(ops) + 1;
    var (st2, ops2) := Read(d.inner, st, ops1);
    ReadLoses(d.inner, st, ops1);
    CloseWithin(st2, ops2);
    hide Brackets;
  }

  lemma {:induction false} TrappedLoses(d: Doc)
    requires Spelled(d) && Trapped(d)
    ensures Top(Remains(d)) != Some(Tree(d))
  {
    hide Nodes;
    hide PopWhile;
    hide Trapped;
    var (st, ops) := Read(d, [], []);
    ReadLoses(d, [], []);
    PopsWithin(st, ops, Never);
    NeverStops(st, ops);
    hide Read;
    assert Weight(Remains(d)) < Nodes(Tree(d));
  }

  // ----- outside brackets: the last ">=" is the root

  /** Nothing but operators wait, the first one is ">=". */
  predicate Rooted(ops: seq<string>) {
    ops != [] && ops[0] == ">=" && NoBracket(ops)
  }

  predicate NoBracket(ops: seq<string>) {
    forall o | o in ops :: IsBinary(o)
  }

  lemma {:induction false} PopsPrefix(st: seq<TTA>, ops: seq<string>, stop: Stop)
    ensures PopWhile(st, ops, stop).1 <= ops
    ensures ops != [] && StopsAt(stop, ops[0]) ==> PopWhile(st, ops, stop).1 != []
    decreases |ops|
  {
    hide ProcessOp;
    if ops != [] && !StopsAt(stop, ops[|ops| - 1]) {
      PopsPrefix(ProcessOp(st, ops[|ops| - 1]), ops[..|ops| - 1], stop);
    }
  }

  lemma OperatorStaysRooted(st: seq<TTA>, ops: seq<string>, op: string)
    requires NoBracket(ops) && IsBinary(op) && (Rooted(ops) || op == ">=")
    ensures Rooted(Feed(st, ops, Operator(op)).1)
  {
    if op == ">=" {
      TakesAll(st, ops);
      hide Feed;
    } else {
      Ranks(op);
      PriorityMissing();
      hide Priority;
      hide IsBinary;
      PopsPrefix(st, ops, Weaker(Priority(op)));
      hide PopWhile;
    }
  }

  lemma OperatorAdds(st: seq<TTA>, ops: seq<string>, op: string)
    requires NoBracket(ops) && IsBinary(op)
    ensures NoBracket(Feed(st, ops, Operator(op)).1)
  {
    hide IsBinary;
    hide Priority;
    PopsPrefix(st, ops, Weaker(Priority(op)));
    hide PopWhile;
  }

  /** Outside brackets, from the first ">=" on the operator stack starts with one. */
  lemma {:induction false} StaysRooted(d: Doc, st: seq<TTA>, ops: seq<string>)
    requires Natural(d) && !Trapped(d) && NoBracket(ops)
    ensures var (_, ops') := Read(d, st, ops); NoBracket(ops') && (Rooted(ops) || !Free(d) ==> Rooted(ops'))
  {
    hide NoBracket;
    match d
    case Atom(_, _) =>
    case Binary(l, _, op, _, r) =>
      var (st1, ops1) := Read(l, st, ops);
      var (st2, ops2) := Feed(st1, ops1, Operator(op));
      StaysRooted(l, st, ops);
      OperatorAdds(st1, ops1, op);
      if Rooted(ops1) || op == ">=" {
        OperatorStaysRooted(st1, ops1, op);
      }
      hide Feed;
      StaysRooted(r, st2, ops2);
    case Bracketed(_, inner, _) =>
      NaturalSpelled(d);
      ReadsBracketed(d, st, ops);
      assert ops + Operators(d) == ops;
  }

  lemma {:induction false} RootedTop(st: seq<TTA>, ops: seq<string>)
    requires Rooted(ops)
    ensures var st' := PopWhile(st, ops, Never).0; st' != [] && st'[|st'| - 1].op == ">="
    decreases |ops|
  {
    hide IsBinary;
    var op := ops[|ops| - 1];
    var rest := ops[..|ops| - 1];
    if rest == [] {
      assert PopWhile(ProcessOp(st, op), rest, Never) == (ProcessOp(st, op), rest);
    } else {
      hide ProcessOp;
      RootedTop(ProcessOp(st, op), rest);
    }
  }

  /** A ">=" outside brackets takes whatever the text before it parses to as its left operand. */
  lemma {:induction false} SplitsAt(d: Doc)
    requires d.Binary? && d.op == ">=" && WellPrinted(d.r)
    ensures var left := Remains(d.l);
            Remains(d) == Rest(left) + [TTA(">=", Plain, Top(left), Some(Tree(d.r)))]
  {
    var (st1, ops1) := Read(d.l, [], []);
    var (st2, ops2) := Feed(st1, ops1, Operator(">="));
    var (st, ops) := Read(d.r, st2, ops2);
    assert Read(d, [], []) == (st, ops);
    hide Read;
    TakesAll(st1, ops1);
    hide Feed;
    RightEnds(d.r, Remains(d.l));
  }

  lemma TakesAll(st: seq<TTA>, ops: seq<string>)
    ensures Feed(st, ops, Operator(">=")) == (PopWhile(st, ops, Never).0, [">="])
  {
    PriorityMissing();
    PopsAll(st, ops, -1);
    assert [] + [">="] == [">="];
    hide PopWhile;
    hide Priority;
  }

  /** The right operand is read, and the text ends. */
  lemma RightEnds(r: Doc, left: seq<TTA>)
    requires WellPrinted(r)
    ensures var (st, ops) := Read(r, left, [">="]);
            PopWhile(st, ops, Never).0 == Rest(left) + [TTA(">=", Plain, Top(left), Some(Tree(r)))]
  {
    PriorityMissing();
    OperatorsStrong(r);
    ReadyAfter(r);
    hide Priority;
    hide Strength;
    ReadsWell(r, left, [">="]);
    PopReduces(r, left, [">="], Never);
    hide Read;
    hide Tree;
    hide Operands;
    hide Operators;
    hide WellPrinted;
    PopOne(left + [Tree(r)], ">=");
    hide PopWhile;
    assert Rest(left + [Tree(r)]) == left;
  }

  lemma ReadyAfter(d: Doc)
    requires WellPrinted(d)
    ensures Ready([">="], d) && forall ops: seq<string> :: Ready(ops + ["("], d)
  {
    PriorityMissing();
    OperatorsStrong(d);
    assert [">="][0] == ">=";
  }

  lemma PopOne(st: seq<TTA>, op: string)
    ensures PopWhile(st, [op], Never) == (ProcessOp(st, op), [])
  {
    hide ProcessOp;
    assert [op][..0] == [];
  }

  lemma {:induction false} RemainsIff(d: Doc)
    requires Natural(d)
    ensures Top(Remains(d)) == Some(Tree(d)) <==> Leading(d)
  {
    hide Remains;
    NaturalSpelled(d);
    LeadingUntrapped(d);
    if Free(d) {
      OnlyTreeRemains(d);
    } else if Trapped(d) {
      TrappedLoses(d);
    } else if d.op == ">=" {
      LastFree(d);
      NaturalSpelled(d.r);
      SplitsAt(d);
      RemainsIff(d.l);
    } else {
      OtherRoot(d);
    }
  }

  /** Nothing binds tighter than ">=", so that its right operand is no operator outside brackets. */
  lemma LastFree(d: Doc)
    requires Natural(d) && !Trapped(d) && d.Binary? && d.op == ">="
    ensures Free(d.r)
  {
    assert Tightness(">=") == 4;
  }

  lemma OtherRoot(d: Doc)
    requires Natural(d) && !Trapped(d) && !Free(d)
    ensures Top(Remains(d)).Some? && Top(Remains(d)).value.op == ">="
  {
    StaysRooted(d, [], []);
    var (st, ops) := Read(d, [], []);
    RootedTop(st, ops);
  }

  // ----- main results

  /** Of the texts printed with the priority meant, exactly those parse to their tree. */
  lemma ParsesIff(d: Doc, before: string, after: string)
    requires Natural(d) && White(before) && White(after)
    ensures Parse(before + (Print(d) + after)) == Parsed(Some(Tree(d))) <==> Leading(d)
  {
    hide *;
    NaturalSpelled(d);
    ParseMeans(d, before, after);
    RemainsIff(d);
  }

  /** A query as the client joins it with the prefix of a control. */
  function Joined(prefix: Doc, query: Doc): Doc {
    Binary(Bracketed("", prefix, ""), " ", "&&", " ", Bracketed("", query, ""))
  }

  /** Joined to a prefix, a query is understood only if neither has a ">=". */
  lemma JoinedIff(prefix: Doc, query: Doc)
    requires Natural(prefix) && Natural(query)
    ensures var d := Joined(prefix, query);
            Parse(Print(d)) == Parsed(Some(Tree(d))) <==> Free(prefix) && Free(query)
  {
    hide *;
    var d := Joined(prefix, query);
    assert "" + (Print(d) + "") == Print(d);
    JoinedNatural(prefix, query);
    ParsesIff(d, "", "");
  }

  lemma JoinedNatural(prefix: Doc, query: Doc)
    requires Natural(prefix) && Natural(query)
    ensures var d := Joined(prefix, query);
            Natural(d) && White("") && (Leading(d) <==> Free(prefix) && Free(query))
  {
    var left, right := Bracketed("", prefix, ""), Bracketed("", query, "");
    assert Natural(left) && Natural(right);
    assert Free(left) == Free(prefix) && Free(right) == Free(query);
  }

  /** A ">=" between well-printed operands. */
  predicate GreaterEqual(d: Doc) {
    d.Binary? && d.op == ">=" && WellPrinted(d.l) && WellPrinted(d.r) && White(d.before) && White(d.after)
  }

  lemma GreaterEqualSpelled(d: Doc)
    requires GreaterEqual(d)
    ensures Spelled(d)
  {
    WellSpelled(d.l);
    WellSpelled(d.r);
  }

  /** Outside brackets ">=" binds looser than everything else, on both sides. */
  lemma GreaterEqualOutside(d: Doc)
    requires GreaterEqual(d)
    ensures Parse(Print(d)) == Parsed(Some(TTA(">=", Plain, Some(Tree(d.l)), Some(Tree(d.r)))))
  {
    assert "" + (Print(d) + "") == Print(d);
    GreaterEqualSpelled(d);
    ParseMeans(d, "", "");
    OnlyTreeRemains(d.l);
    SplitsAt(d);
    hide Remains;
    hide Parse;
  }

  /**
   Inside brackets ">=" throws away the bracket with its own left operand and one operand before the bracket, reduces all
   operators that wait over what is left, and takes the last of that for its left operand.
   */
  lemma BracketTakes(d: Doc, before: string, after: string, st: seq<TTA>, ops: seq<string>)
    requires GreaterEqual(d)
    ensures var left := PopWhile(Rest(st), ops, Never).0;
            Read(Bracketed(before, d, after), st, ops)
            == (Rest(left) + [TTA(">=", Plain, Top(left), Some(Tree(d.r)))], [])
  {
    var left := PopWhile(Rest(st), ops, Never).0;
    LeftTaken(d.l, st, ops);
    RightTaken(d.r, left);
    hide PopWhile;
    hide Priority;
    hide WellPrinted;
  }

  lemma LeftTaken(l: Doc, st: seq<TTA>, ops: seq<string>)
    requires WellPrinted(l)
    ensures var (st', ops') := Read(l, st, ops + ["("]);
            Feed(st', ops', Operator(">=")) == (PopWhile(Rest(st), ops, Never).0, [">="])
  {
    hide Feed;
    hide Read;
    hide Tree;
    hide Operands;
    hide Operators;
    hide Priority;
    hide PopWhile;
    hide WellPrinted;
    var ops1 := ops + ["("];
    ReadyAfter(l);
    ReadsWell(l, st, ops1);
    PopReduces(l, st, ops1, Never);
    TakesAll(st + Operands(l), ops1 + Operators(l));
    PopsBracket(st, Tree(l), ops);
  }

  /** A bracket that is reduced as if it were an operator takes two operands with it. */
  lemma PopsBracket(st: seq<TTA>, t: TTA, ops: seq<string>)
    ensures PopWhile(st + [t], ops + ["("], Never) == PopWhile(Rest(st), ops, Never)
  {
    var st1, ops1 := st + [t], ops + ["("];
    BracketIsNoOperator();
    hide IsBinary;
    assert ops1[..|ops|] == ops && ops1[|ops|] == "(" && Rest(st1) == st;
    assert PopWhile(st1, ops1, Never) == PopWhile(ProcessOp(st1, "("), ops, Never);
  }

  lemma RightTaken(r: Doc, left: seq<TTA>)
    requires WellPrinted(r)
    ensures var (st', ops') := Read(r, left, [">="]);
            Feed(st', ops', Close) == (Rest(left) + [TTA(">=", Plain, Top(left), Some(Tree(r)))], [])
  {
    OperatorsStrong(r);
    ReadyAfter(r);
    BracketStopsNone(r);
    hide Priority;
    hide Strength;
    ReadsWell(r, left, [">="]);
    PopReduces(r, left, [">="], Bracket);
    hide Read;
    hide Tree;
    hide Operands;
    hide Operators;
    hide WellPrinted;
    assert Rest(left + [Tree(r)]) == left;
    assert [">="][..0] == [];
    assert PopWhile(left + [Tree(r)], [">="], Bracket)
        == PopWhile(ProcessOp(left + [Tree(r)], ">="), [], Bracket);
  }

  /** A query that is just such a bracket. */
  lemma GreaterEqualInside(d: Doc)
    requires GreaterEqual(d)
    ensures Parse(Print(Bracketed("", d, ""))) == Parsed(Some(TTA(">=", Plain, None, Some(Tree(d.r)))))
  {
    var b := Bracketed("", d, "");
    assert "" + (Print(b) + "") == Print(b);
    GreaterEqualSpelled(d);
    ParseMeans(b, "", "");
    BracketTakes(d, "", "", [], []);
    hide Read;
    hide Parse;
  }

  /** The prefix is lost with it: a conjunction of nothing and nothing is left in its place. */
  lemma JoinedLosesPrefix(prefix: Doc, d: Doc)
    requires WellPrinted(prefix) && GreaterEqual(d)
    ensures Parse(Print(Joined(prefix, d)))
            == Parsed(Some(TTA(">=", Plain, Some(TTA("&&", Plain, None, None)), Some(Tree(d.r)))))
  {
    hide Parse;
    hide Print;
    var b := Joined(prefix, d);
    assert "" + (Print(b) + "") == Print(b);
    WellSpelled(prefix);
    GreaterEqualSpelled(d);
    assert Spelled(b);
    ParseMeans(b, "", "");
    JoinedRemains(prefix, d);
  }

  lemma JoinedRemains(prefix: Doc, d: Doc)
    requires WellPrinted(prefix) && GreaterEqual(d)
    ensures Remains(Joined(prefix, d)) == [TTA(">=", Plain, Some(TTA("&&", Plain, None, None)), Some(Tree(d.r)))]
  {
    var b := Joined(prefix, d);
    assert WellPrinted(b.l);
    var (st, ops) := Read(b.l, [], []);
    assert Read(b, [], []) == Read(b.r, Feed(st, ops, Operator("&&")).0, Feed(st, ops, Operator("&&")).1);
    hide Read;
    PrefixRead(b.l);
    hide Feed;
    BracketTakes(d, "", "", [Tree(prefix)], ["&&"]);
    assert Rest([Tree(prefix)]) == [];
    PopOne([], "&&");
  }

  lemma PrefixRead(b: Doc)
    requires b.Bracketed? && WellPrinted(b)
    ensures var (st, ops) := Read(b, [], []); Feed(st, ops, Operator("&&")) == ([Tree(b)], ["&&"])
  {
    ReadsWell(b, [], []);
    hide Read;
    hide Tree;
    assert [] + [Tree(b)] == [Tree(b)] && [] + ["&&"] == ["&&"];
  }
}
