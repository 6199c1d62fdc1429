/** Parsing gives back every tree from every priority-respecting way to print it. */
module VqlRoundTrip {
  import opened Vql
  import opened VqlText
  import opened Wrappers

  /** How tightly the operators bind: comparisons most, then equalities, then "and", then "or". Nothing else is an operator. */
  function Tightness(op: string): (n: nat)
    ensures n <= 4
  {
    if op in {"<", "<=", ">", ">="} then 4
    else if op in {"==", "===", "!=", "=*", "=+"} then 3
    else if op in {"&&"} then 2
    else if op in {"||"} then 1
    else 0
  }

  function Strength(d: Doc): nat {
    if d.Binary? then Tightness(d.op) else 5
  }

  /** Operands without their closing mark, and brackets at least where tightness and left association ask for them. */
  predicate WellPrinted(d: Doc) {
    match d
    case Atom(mark, text) => Quote(mark) && Closing(mark) !in text
    case Binary(l, before, op, after, r) =>
      && WellPrinted(l) && WellPrinted(r) && White(before) && White(after)
      && Strength(l) >= Tightness(op) > 0 && Strength(r) > Tightness(op) && op != ">="
    case Bracketed(before, inner, after) => WellPrinted(inner) && White(before) && White(after)
  }

  /** The table of the parser ranks the operators as meant, but for ">=". */
  lemma Ranks(op: string)
    ensures IsBinary(op) <==> Tightness(op) > 0
    ensures Tightness(op) > 0 && op != ">=" ==> Priority(op) == Tightness(op)
  {
  }

  lemma {:induction false} WellSpelled(d: Doc)
    requires WellPrinted(d)
    ensures Spelled(d)
  {
    hide Tightness;
    hide IsBinary;
    if d.Binary? {
      Ranks(d.op);
      WellSpelled(d.l);
      WellSpelled(d.r);
    } else if d.Bracketed? {
      WellSpelled(d.inner);
    }
  }

  // ----- the state after a printing is read

  /** The operands still waiting on the stack after d is read: its right spine is not reduced yet. */
  function Operands(d: Doc): seq<TTA> {
    if d.Binary? then [Tree(d.l)] + Operands(d.r) else [Tree(d)]
  }

  function Operators(d: Doc): seq<string> {
    if d.Binary? then [d.op] + Operators(d.r) else []
  }

  /** Whatever pops all waiting operators leaves just the tree. */
  lemma {:induction false} PopReduces(d: Doc, st: seq<TTA>, ops: seq<string>, stop: Stop)
    requires WellPrinted(d) && forall o | o in Operators(d) :: !StopsAt(stop, o)
    ensures PopWhile(st + Operands(d), ops + Operators(d), stop) == PopWhile(st + [Tree(d)], ops, stop)
  {
    hide Tightness;
    hide IsBinary;
    if d.Binary? {
      assert st + Operands(d) == (st + [Tree(d.l)]) + Operands(d.r);
      assert ops + Operators(d) == (ops + [d.op]) + Operators(d.r);
      assert d.op in Operators(d);
      PopReduces(d.r, st + [Tree(d.l)], ops + [d.op], stop);
      var st', ops' := st + [Tree(d.l)] + [Tree(d.r)], ops + [d.op];
      Ranks(d.op);
      assert Rest(Rest(st')) == st && ops'[..|ops'| - 1] == ops;
      assert ProcessOp(st', d.op) == st + [Tree(d)];
    } else {
      assert ops + Operators(d) == ops;
    }
  }

  lemma {:induction false} OperatorsStrong(d: Doc)
    requires WellPrinted(d)
    ensures forall o | o in Operators(d) :: Priority(o) >= Strength(d) && Priority(o) > 0
  {
    hide Tightness;
    hide Priority;
    if d.Binary? {
      OperatorsStrong(d.r);
      Ranks(d.op);
    }
  }

  /** The operator below binds less than d does. */
  predicate Ready(ops: seq<string>, d: Doc) {
    ops == [] || Priority(ops[|ops| - 1]) < Strength(d)
  }

  /** Reading d where it fits in: the stacks grow by what waits of d. */
  lemma {:induction false} ReadsWell(d: Doc, st: seq<TTA>, ops: seq<string>)
    requires WellPrinted(d) && Ready(ops, d)
    ensures Read(d, st, ops) == (st + Operands(d), ops + Operators(d))
    decreases d, 1
  {
    hide PopWhile;
    if d.Atom? {
      assert ops + Operators(d) == ops;
    } else if d.Binary? {
      ReadsBinary(d, st, ops);
    } else {
      ReadsBracketed(d, st, ops);
    }
  }

  lemma {:induction false} ReadsBinary(d: Doc, st: seq<TTA>, ops: seq<string>)
    requires d.Binary? && WellPrinted(d) && Ready(ops, d)
    ensures Read(d, st, ops) == (st + Operands(d), ops + Operators(d))
    decreases d, 0
  {
    hide Feed;
    hide Tree;
    hide White;
    hide Priority;
    hide Tightness;
    Ranks(d.op);
    var st1, ops1 := st + [Tree(d.l)], ops + [d.op];
    assert ops1[|ops1| - 1] == d.op;
    ReadsWell(d.l, st, ops);
    OperatorReduces(d.l, d.op, st, ops);
    ReadsWell(d.r, st1, ops1);
    assert st1 + Operands(d.r) == st + Operands(d) && ops1 + Operators(d.r) == ops + Operators(d);
  }

  lemma {:induction false} ReadsBracketed(d: Doc, st: seq<TTA>, ops: seq<string>)
    requires d.Bracketed? && WellPrinted(d)
    ensures Read(d, st, ops) == (st + Operands(d), ops + Operators(d))
    decreases d, 0
  {
    hide Feed;
    hide White;
    var inner := d.inner;
    OperatorsStrong(inner);
    ReadsWell(inner, st, ops + ["("]);
    BracketCloses(inner, st, ops);
    assert st + Operands(d) == st + [Tree(inner)] && ops + Operators(d) == ops;
  }

  /** The operator reduces what waits of its left operand, and nothing below. */
  lemma OperatorReduces(l: Doc, op: string, st: seq<TTA>, ops: seq<string>)
    requires WellPrinted(l) && Strength(l) >= Priority(op) && (ops == [] || Priority(ops[|ops| - 1]) < Priority(op))
    ensures Feed(st + Operands(l), ops + Operators(l), Operator(op)) == (st + [Tree(l)], ops + [op])
  {
    OperatorsStrong(l);
    hide Priority;
    PopReduces(l, st, ops, Weaker(Priority(op)));
  }

  lemma BracketCloses(inner: Doc, st: seq<TTA>, ops: seq<string>)
    requires WellPrinted(inner)
    ensures Feed(st + Operands(inner), ops + ["("] + Operators(inner), Close) == (st + [Tree(inner)], ops)
  {
    OperatorsStrong(inner);
    BracketStopsNone(inner);
    hide Priority;
    PopReduces(inner, st, ops + ["("], Bracket);
    assert Rest(ops + ["("]) == ops;
  }

  lemma BracketStopsNone(d: Doc)
    requires forall o | o in Operators(d) :: Priority(o) > 0
    ensures forall o | o in Operators(d) :: !StopsAt(Bracket, o)
  {
  }

  /**
   Round trip: the text of any well-printed document, with white space at either end, parses to its tree, and leaves nothing
   else on the operand stack and nothing on the operator stack.
   */
  lemma ParsePrint(d: Doc, before: string, after: string)
    requires WellPrinted(d) && White(before) && White(after)
    ensures var s := before + (Print(d) + after);
            Run(s, 0, [], []) == Stacks([Tree(d)], []) && Parse(s) == Parsed(Some(Tree(d)))
  {
    hide Run;
    hide Print;
    WellSpelled(d);
    ParseMeans(d, before, after);
    OnlyTreeRemains(d);
  }

  lemma OnlyTreeRemains(d: Doc)
    requires WellPrinted(d)
    ensures Remains(d) == [Tree(d)]
  {
    ReadsWell(d, [], []);
    PopReduces(d, [], [], Never);
    assert [] + [Tree(d)] == [Tree(d)];
  }

  // ----- every tree has printings: with the fewest brackets, and with all of them

  /** A complete tree over the ranked operators, with operands that one of the marks can enclose. */
  predicate Printable(t: TTA) {
    match t
    case TTA(text, Quoted, None, None) => '\'' !in text || '`' !in text
    case TTA(text, Range, None, None) => ']' !in text
    case TTA(op, Plain, Some(l), Some(r)) => Tightness(op) > 0 && op != ">=" && Printable(l) && Printable(r)
    case _ => false
  }

  function Enclose(d: Doc, need: bool): Doc {
    if need then Bracketed("", d, "") else d
  }

  /** Brackets everywhere, or only where priority or left association asks for them; one space around operators. */
  function DocOf(t: TTA, full: bool): (d: Doc)
    requires Printable(t)
    ensures WellPrinted(d) && Tree(d) == t
  {
    match t
    case TTA(text, Quoted, None, None) => Atom(if '\'' !in text then '\'' else '`', text)
    case TTA(text, Range, None, None) => Atom('[', text)
    case TTA(op, Plain, Some(l), Some(r)) =>
      var left, right := DocOf(l, full), DocOf(r, full);
      Binary(Enclose(left, full || Strength(left) < Tightness(op)), " ", op, " ",
             Enclose(right, full || Strength(right) <= Tightness(op)))
  }

  /** Every such tree survives printing and parsing, with few brackets or many. */
  lemma PrintParse(t: TTA, full: bool)
    requires Printable(t)
    ensures Parse(Print(DocOf(t, full))) == Parsed(Some(t))
  {
    ParsePrint(DocOf(t, full), "", "");
    assert "" + (Print(DocOf(t, full)) + "") == Print(DocOf(t, full));
  }

  // ----- which operator binds more tightly

  function Node(l: TTA, op: string, r: TTA): TTA {
    TTA(op, Plain, Some(l), Some(r))
  }

  /** Three texts with two operators between them. */
  function InARow(a: string, o1: string, b: string, o2: string, c: string): string {
    a + (" " + (o1 + (" " + (b + (" " + (o2 + (" " + c)))))))
  }

  lemma LeftFirst(a: string, o1: string, b: string, o2: string, c: string)
    ensures (a + (" " + (o1 + (" " + b)))) + (" " + (o2 + (" " + c))) == InARow(a, o1, b, o2, c)
  {
    var more := " " + (o2 + (" " + c));
    assert (" " + b) + more == " " + (b + more);
    assert (o1 + (" " + b)) + more == o1 + ((" " + b) + more);
    assert (" " + (o1 + (" " + b))) + more == " " + ((o1 + (" " + b)) + more);
    assert (a + (" " + (o1 + (" " + b)))) + more == a + ((" " + (o1 + (" " + b))) + more);
  }

  lemma ThreePrinted(a: Doc, o1: string, b: Doc, o2: string, c: Doc)
    ensures var text := InARow(Print(a), o1, Print(b), o2, Print(c));
            && Print(Binary(a, " ", o1, " ", Binary(b, " ", o2, " ", c))) == text
            && Print(Binary(Binary(a, " ", o1, " ", b), " ", o2, " ", c)) == text
  {
    LeftFirst(Print(a), o1, Print(b), o2, Print(c));
  }

  /**
   Three operands without brackets between them: the second operator is below the first one just when it is in a tighter
   group, and above it otherwise.
   */
  lemma ThreeOperands(a: Doc, o1: string, b: Doc, o2: string, c: Doc)
    requires WellPrinted(a) && WellPrinted(b) && WellPrinted(c) && !a.Binary? && !b.Binary? && !c.Binary?
    requires Tightness(o1) > 0 && Tightness(o2) > 0 && o1 != ">=" && o2 != ">="
    ensures Parse(InARow(Print(a), o1, Print(b), o2, Print(c)))
      == Parsed(Some(if Tightness(o2) > Tightness(o1) then Node(Tree(a), o1, Node(Tree(b), o2, Tree(c)))
                     else Node(Node(Tree(a), o1, Tree(b)), o2, Tree(c))))
  {
    hide Parse;
    hide Print;
    hide Closing;
    var d := if Tightness(o2) > Tightness(o1) then Binary(a, " ", o1, " ", Binary(b, " ", o2, " ", c))
             else Binary(Binary(a, " ", o1, " ", b), " ", o2, " ", c);
    var text := InARow(Print(a), o1, Print(b), o2, Print(c));
    ThreePrinted(a, o1, b, o2, c);
    assert "" + (text + "") == text;
    ParsePrint(d, "", "");
  }
}
