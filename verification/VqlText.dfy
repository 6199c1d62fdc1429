/** Printings of query trees, and what the parser does with their texts: the lexer can be left out of the account. */
module VqlText {
  import opened Vql
  import opened Wrappers

  // ----- printings

  /**
   A printing of a tree: operands in one of the three marks, brackets wherever wanted, any white space (also none) around
   operators and inside brackets.
   */
  datatype Doc =
    | Atom(mark: char, text: string)
    | Binary(l: Doc, before: string, op: string, after: string, r: Doc)
    | Bracketed(before: string, inner: Doc, after: string)

  function Print(d: Doc): string {
    match d
    case Atom(mark, text) => [mark] + (text + [Closing(mark)])
    case Binary(l, before, op, after, r) => Print(l) + (before + (op + (after + Print(r))))
    case Bracketed(before, inner, after) => "(" + (before + (Print(inner) + (after + ")")))
  }

  /** The tree the printing stands for. */
  function Tree(d: Doc): TTA {
    match d
    case Atom(mark, text) => TTA(text, if mark == '[' then Range else Quoted, None, None)
    case Binary(l, _, op, _, r) => TTA(op, Plain, Some(Tree(l)), Some(Tree(r)))
    case Bracketed(_, inner, _) => Tree(inner)
  }

  predicate White(w: string) {
    forall c | c in w :: c in {' ', '\t', '\r', '\n'}
  }

  /** Operands do not contain their closing mark; where the brackets are does not matter. */
  predicate Spelled(d: Doc) {
    match d
    case Atom(mark, text) => Quote(mark) && Closing(mark) !in text
    case Binary(l, before, op, after, r) => Spelled(l) && Spelled(r) && White(before) && White(after) && IsBinary(op)
    case Bracketed(before, inner, after) => Spelled(inner) && White(before) && White(after)
  }

  // ----- reading a stretch of text

  predicate At(s: string, i: nat, t: string) {
    i + |t| <= |s| && s[i..i + |t|] == t
  }

  lemma AtSplit(s: string, i: nat, a: string, b: string)
    requires At(s, i, a + b)
    ensures At(s, i, a) && At(s, i + |a|, b)
  {
    assert s[i..i + |a|] == (a + b)[..|a|] == a;
    assert s[i + |a|..i + |a| + |b|] == (a + b)[|a|..] == b;
  }

  lemma FirstAt(s: string, i: nat, t: string)
    requires At(s, i, t) && t != []
    ensures i < |s| && s[i] == t[0]
  {
    assert s[i..i + |t|][0] == t[0];
  }

  lemma SkipOne(s: string, i: nat, st: seq<TTA>, ops: seq<string>)
    requires i < |s| && Delim(s[i])
    ensures Run(s, i, st, ops) == Run(s, i + 1, st, ops)
  {
    assert Lex(s, i) == Skip(i + 1);
    hide Lex;
    hide Feed;
    hide PopWhile;
  }

  lemma FirstBlank(w: string)
    requires White(w) && w != []
    ensures Delim(w[0]) && White(w[1..])
  {
    assert w[0] in w;
    assert forall c | c in w[1..] :: c in w;
  }

  lemma {:induction false} SkipWhite(s: string, i: nat, w: string, st: seq<TTA>, ops: seq<string>)
    requires At(s, i, w) && White(w)
    ensures Run(s, i, st, ops) == Run(s, i + |w|, st, ops)
    decreases w
  {
    hide Run;
    hide At;
    hide Delim;
    hide White;
    if w != [] {
      assert w == [w[0]] + w[1..];
      FirstAt(s, i, w);
      AtSplit(s, i, [w[0]], w[1..]);
      FirstBlank(w);
      SkipOne(s, i, st, ops);
      SkipWhite(s, i + 1, w[1..], st, ops);
    }
  }

  lemma {:induction false} FindClosingAt(s: string, i: nat, text: string, mark: char)
    requires At(s, i, text + [mark]) && mark !in text
    ensures FindClosing(s, i, mark) == i + |text|
    decreases text
  {
    hide At;
    FirstAt(s, i, text + [mark]);
    if text != [] {
      assert text + [mark] == [text[0]] + (text[1..] + [mark]);
      AtSplit(s, i, [text[0]], text[1..] + [mark]);
      FindClosingAt(s, i + 1, text[1..], mark);
    }
  }

  lemma LexMark(s: string, i: nat, mark: char)
    requires i < |s| && s[i] == mark && Quote(mark)
    ensures var j := FindClosing(s, i + 1, Closing(mark));
            Lex(s, i) == Found(Operand(s[i + 1..j], if mark == '[' then Range else Quoted), j + 1)
  {
    MarkStartsNoOp(s[i..OpEnd(s, i)], mark);
    hide IsOp;
    hide FindClosing;
  }

  lemma LexAtom(s: string, i: nat, d: Doc)
    requires d.Atom? && Spelled(d) && At(s, i, Print(d))
    ensures i < |s| && Lex(s, i) == Found(Operand(d.text, Tree(d).decor), i + |Print(d)|)
  {
    hide Lex;
    hide At;
    hide FindClosing;
    var closing := Closing(d.mark);
    assert Print(d) == [d.mark] + (d.text + [closing]) && |Print(d)| == |d.text| + 2;
    hide Print;
    AtomAt(s, i, d.mark, d.text, closing);
    LexMark(s, i, d.mark);
  }

  lemma AtomAt(s: string, i: nat, mark: char, text: string, closing: char)
    requires At(s, i, [mark] + (text + [closing])) && closing !in text
    ensures i < |s| && s[i] == mark && FindClosing(s, i + 1, closing) == i + 1 + |text| < |s|
    ensures s[i + 1..i + 1 + |text|] == text
  {
    AtSplit(s, i, [mark], text + [closing]);
    AtSplit(s, i + 1, text, [closing]);
    FirstAt(s, i, [mark]);
    FindClosingAt(s, i + 1, text, closing);
    hide FindClosing;
  }

  lemma MarkStartsNoOp(c: string, mark: char)
    requires Quote(mark) && (c == [] || c[0] == mark)
    ensures IsOp(c) == ""
  {
  }

  /** An operator is < or >, or two or three characters that are recognised as a whole. */
  predicate OpShape(op: string) {
    || (|op| == 1 && (op[0] == '<' || op[0] == '>'))
    || (|op| == 2 && IsOp(op) == op)
    || (|op| == 3 && IsOp(op) == op && op[0] == op[1] == op[2] == '=')
  }

  lemma BinaryShape(op: string)
    requires IsBinary(op)
    ensures OpShape(op)
  {
  }

  lemma SingleOp(op: string, c: string)
    requires |op| == 1 && (op[0] == '<' || op[0] == '>') && 1 <= |c| <= 2 && c[0] == op[0] && (|c| == 2 ==> c[1] != '=')
    ensures IsOp(c) == op
  {
  }

  /** An operator is read as such wherever something other than an equality sign follows it. */
  lemma LexOp(s: string, i: nat, op: string)
    requires IsBinary(op) && At(s, i, op) && i + |op| < |s| && s[i + |op|] != '='
    ensures Lex(s, i) == Found(Operator(op), i + |op|)
  {
    BinaryShape(op);
    hide IsBinary;
    hide IsOp;
    forall k | 0 <= k < |op| ensures s[i + k] == op[k] {
      assert s[i + k] == s[i..i + |op|][k];
    }
    var c := s[i..OpEnd(s, i)];
    if |op| == 1 {
      SingleOp(op, c);
    } else {
      assert c == op;
    }
    FirstOfOp(op);
  }

  lemma FirstOfOp(op: string)
    requires OpShape(op)
    ensures !Delim(op[0]) && op[0] != '(' && op[0] != ')'
  {
  }

  /** A printing is at least two characters long and starts with a mark or a bracket. */
  lemma {:induction false} PrintStarts(d: Doc)
    requires Spelled(d)
    ensures |Print(d)| >= 2 && (Quote(Print(d)[0]) || Print(d)[0] == '(')
  {
    if d.Binary? {
      PrintStarts(d.l);
    }
  }

  /** Five pieces of text, one after the other. */
  lemma FivePieces(s: string, i: nat, a: string, b: string, c: string, d: string, e: string)
    requires At(s, i, a + (b + (c + (d + e))))
    ensures var j := i + |a|;
            var k := j + |b|;
            var m := k + |c|;
            At(s, i, a) && At(s, j, b) && At(s, k, c) && At(s, m, d + e) && At(s, m, d) && At(s, m + |d|, e)
    ensures |a + (b + (c + (d + e)))| == |a| + |b| + |c| + |d| + |e|
  {
    hide *;
    AtSplit(s, i, a, b + (c + (d + e)));
    AtSplit(s, i + |a|, b, c + (d + e));
    AtSplit(s, i + |a| + |b|, c, d + e);
    AtSplit(s, i + |a| + |b| + |c|, d, e);
  }

  /** Where the parts of a binary printing are. */
  lemma BinaryLayout(s: string, i: nat, d: Doc)
    requires d.Binary? && At(s, i, Print(d))
    ensures var j := i + |Print(d.l)|;
            var k := j + |d.before|;
            var m := k + |d.op|;
            var n := m + |d.after|;
            && At(s, i, Print(d.l)) && At(s, j, d.before) && At(s, k, d.op)
            && At(s, m, d.after + Print(d.r)) && At(s, m, d.after) && At(s, n, Print(d.r))
            && i + |Print(d)| == n + |Print(d.r)|
  {
    hide At;
    assert Print(d) == Print(d.l) + (d.before + (d.op + (d.after + Print(d.r))));
    hide Print;
    FivePieces(s, i, Print(d.l), d.before, d.op, d.after, Print(d.r));
  }

  lemma BracketedLayout(s: string, i: nat, d: Doc)
    requires d.Bracketed? && At(s, i, Print(d))
    ensures var j := i + 1 + |d.before|;
            var k := j + |Print(d.inner)|;
            var n := k + |d.after|;
            && At(s, i, "(") && At(s, i + 1, d.before) && At(s, j, Print(d.inner)) && At(s, k, d.after) && At(s, n, ")")
            && i + |Print(d)| == n + 1
  {
    hide At;
    assert Print(d) == "(" + (d.before + (Print(d.inner) + (d.after + ")")));
    hide Print;
    FivePieces(s, i, "(", d.before, Print(d.inner), d.after, ")");
  }

  lemma ReadsOpen(s: string, i: nat, st: seq<TTA>, ops: seq<string>)
    requires At(s, i, "(")
    ensures Run(s, i, st, ops) == Run(s, i + 1, st, ops + ["("])
  {
    hide PopWhile;
    assert s[i] == s[i..i + 1][0] == '(';
  }

  lemma LexClose(s: string, n: nat)
    requires n < |s| && s[n] == ')'
    ensures Lex(s, n) == Found(Close, n + 1)
  {
  }

  lemma RunToken(s: string, i: nat, token: Token, next: nat, st: seq<TTA>, ops: seq<string>)
    requires i < |s| && Lex(s, i) == Found(token, next)
    ensures Run(s, i, st, ops) == (var (st', ops') := Feed(st, ops, token); Run(s, next, st', ops'))
  {
    hide Lex;
    hide Feed;
  }

  lemma RunEnds(s: string, st: seq<TTA>, ops: seq<string>)
    ensures Run(s, |s|, st, ops) == (var (st', ops') := PopWhile(st, ops, Never); Stacks(st', ops'))
  {
    hide PopWhile;
  }

  // ----- operands without a mark

  lemma LastAt(s: string, i: nat, t: string)
    requires At(s, i, t) && t != []
    ensures i + |t| <= |s| && s[i..i + |t|] == t && s[i + |t| - 1] == t[|t| - 1] && s[i..i + |t| - 1] == t[..|t| - 1]
  {
    assert s[i + |t| - 1] == s[i..i + |t|][|t| - 1];
    assert s[i..i + |t|][..|t| - 1] == s[i..i + |t| - 1];
  }

  /** None of the characters that end an operand without a mark. */
  predicate Unbroken(w: string) {
    forall c | c in w :: c !in {' ', '&', '|', '=', '<', '>', '!', '-'}
  }

  /** What can stand in an operand without a mark: no such character, and no bracket or mark in front. */
  predicate WordText(w: string) {
    w != [] && Unbroken(w) && w[0] !in {'(', ')', '\'', '`', '[', '\t', '\r', '\n'}
  }

  /** Where an operand without a mark ends: with the text, or before one of these characters. */
  predicate WordEnd(s: string, e: nat) {
    e == |s| || (e < |s| && s[e] in {' ', '&', '|', '=', '<', '>', '!', '-'})
  }

  lemma UnbrokenParts(a: string, b: string)
    ensures Unbroken(a + b) <==> Unbroken(a) && Unbroken(b)
  {
    assert forall c :: c in a + b <==> c in a || c in b;
  }

  lemma UnbrokenOne(c: char)
    ensures Unbroken([c]) <==> !EndsWord(c)
  {
    assert c in [c];
  }

  lemma EndsHere(s: string, e: nat)
    requires WordEnd(s, e)
    ensures FindWordEnd(s, e) == e
  {
  }

  lemma GoesOn(s: string, i: nat)
    requires i < |s| && !EndsWord(s[i])
    ensures FindWordEnd(s, i) == FindWordEnd(s, i + 1)
  {
    hide EndsWord;
  }

  lemma {:induction false} WordEndAt(s: string, i: nat, w: string)
    requires At(s, i, w) && WordEnd(s, i + |w|) && Unbroken(w)
    ensures i + |w| <= |s| && FindWordEnd(s, i) == i + |w|
    decreases w
  {
    hide At;
    hide EndsWord;
    hide WordEnd;
    hide Unbroken;
    hide FindWordEnd;
    AtLength(s, i, w);
    if w == [] {
      EndsHere(s, i);
    } else {
      assert w == [w[0]] + w[1..];
      FirstAt(s, i, w);
      AtSplit(s, i, [w[0]], w[1..]);
      UnbrokenParts([w[0]], w[1..]);
      UnbrokenOne(w[0]);
      GoesOn(s, i);
      WordEndAt(s, i + 1, w[1..]);
    }
  }

  lemma WordStartsNoOp(w: string, c: string)
    requires WordText(w) && (c == [] || c[0] == w[0])
    ensures IsOp(c) == "" && !Delim(w[0]) && !Quote(w[0]) && w[0] != '(' && w[0] != ')'
  {
    assert w[0] in w;
  }

  lemma LexWord(s: string, i: nat, w: string)
    requires WordText(w) && At(s, i, w)
    ensures i < |s| && s[i] == w[0] != '(' && s[i] != ')' && Lex(s, i) == Word(s, i)
  {
    FirstAt(s, i, w);
    WordStartsNoOp(w, s[i..OpEnd(s, i)]);
    hide IsOp;
    hide Word;
    hide WordText;
  }

  /** An operand without a mark is read as a whole, together with the character that ends it. */
  lemma WordRead(s: string, i: nat, w: string)
    requires WordText(w) && At(s, i, w) && WordEnd(s, i + |w|) && w[|w| - 1] !in {'(', ')'}
    ensures i < |s| && Lex(s, i) == Found(Operand(w, Plain), i + |w| + 1)
  {
    LexWord(s, i, w);
    WordEndAt(s, i, w);
    hide WordText;
    hide WordEnd;
    hide FindWordEnd;
    hide Lex;
    LastAt(s, i, w);
  }

  /** One bracket that ends it is given back; a quote mark before that is dropped. */
  lemma WordBracketRead(s: string, i: nat, w: string, bracket: char)
    requires WordText(w) && bracket in {'(', ')'} && At(s, i, w + [bracket]) && WordEnd(s, i + |w| + 1)
    ensures i < |s| && s[i + |w|] == bracket
    ensures Lex(s, i) == Found(Operand(if w[|w| - 1] == '\'' then w[..|w| - 1] else w, Plain), i + |w|)
  {
    hide At;
    hide WordText;
    hide WordEnd;
    hide FindWordEnd;
    hide Lex;
    hide Word;
    AtSplit(s, i, w, [bracket]);
    FirstAt(s, i + |w|, [bracket]);
    LexWord(s, i, w);
    BracketGoesOn(w, bracket);
    WordEndAt(s, i, w + [bracket]);
    LastAt(s, i, w);
    WordGivesBack(s, i, w, bracket);
  }

  lemma BracketGoesOn(w: string, bracket: char)
    requires WordText(w) && bracket in {'(', ')'}
    ensures w != [] && w[0] != '\'' && Unbroken(w + [bracket])
  {
    UnbrokenParts(w, [bracket]);
    UnbrokenOne(bracket);
    hide Unbroken;
  }

  lemma WordGivesBack(s: string, i: nat, w: string, bracket: char)
    requires i + |w| < |s| && s[i] != '(' && s[i] != ')' && bracket in {'(', ')'} && s[i + |w|] == bracket
    requires FindWordEnd(s, i) == i + |w| + 1 && w != [] && w[0] != '\''
    requires s[i..i + |w|] == w && s[i + |w| - 1] == w[|w| - 1] && s[i..i + |w| - 1] == w[..|w| - 1]
    ensures Word(s, i) == Found(Operand(if w[|w| - 1] == '\'' then w[..|w| - 1] else w, Plain), i + |w|)
  {
    hide FindWordEnd;
  }

  // ----- the two stacks after a printing, whatever the operators in it

  function Read(d: Doc, st: seq<TTA>, ops: seq<string>): (seq<TTA>, seq<string>) {
    match d
    case Atom(_, text) => Feed(st, ops, Operand(text, Tree(d).decor))
    case Binary(l, _, op, _, r) =>
      var (st1, ops1) := Read(l, st, ops);
      var (st2, ops2) := Feed(st1, ops1, Operator(op));
      Read(r, st2, ops2)
    case Bracketed(_, inner, _) =>
      var (st1, ops1) := Read(inner, st, ops + ["("]);
      Feed(st1, ops1, Close)
  }

  /** Running over the text of a printing does with the stacks what the printing alone says. */
  lemma {:induction false} Reading(s: string, i: nat, d: Doc, st: seq<TTA>, ops: seq<string>)
    requires Spelled(d) && At(s, i, Print(d))
    ensures Run(s, i, st, ops) == (var (st', ops') := Read(d, st, ops); Run(s, i + |Print(d)|, st', ops'))
    decreases d, 1
  {
    hide Lex;
    hide Run;
    hide Print;
    hide At;
    hide Feed;
    if d.Atom? {
      LexAtom(s, i, d);
      RunToken(s, i, Operand(d.text, Tree(d).decor), i + |Print(d)|, st, ops);
    } else if d.Binary? {
      ReadingBinary(s, i, d, st, ops);
    } else {
      ReadingBracketed(s, i, d, st, ops);
    }
  }

  lemma {:induction false} ReadingBinary(s: string, i: nat, d: Doc, st: seq<TTA>, ops: seq<string>)
    requires d.Binary? && Spelled(d) && At(s, i, Print(d))
    ensures Run(s, i, st, ops) == (var (st', ops') := Read(d, st, ops); Run(s, i + |Print(d)|, st', ops'))
    decreases d, 0
  {
    hide Lex;
    hide Run;
    hide Print;
    hide At;
    hide Feed;
    hide White;
    hide IsBinary;
    BinaryLayout(s, i, d);
    var k := i + |Print(d.l)| + |d.before|;
    var m := k + |d.op|;
    var (st1, ops1) := Read(d.l, st, ops);
    var (st2, ops2) := Feed(st1, ops1, Operator(d.op));
    Reading(s, i, d.l, st, ops);
    SkipWhite(s, i + |Print(d.l)|, d.before, st1, ops1);
    LexOpBefore(s, k, d);
    RunToken(s, k, Operator(d.op), m, st1, ops1);
    SkipWhite(s, m, d.after, st2, ops2);
    Reading(s, m + |d.after|, d.r, st2, ops2);
  }

  lemma {:induction false} ReadingBracketed(s: string, i: nat, d: Doc, st: seq<TTA>, ops: seq<string>)
    requires d.Bracketed? && Spelled(d) && At(s, i, Print(d))
    ensures Run(s, i, st, ops) == (var (st', ops') := Read(d, st, ops); Run(s, i + |Print(d)|, st', ops'))
    decreases d, 0
  {
    hide Lex;
    hide Run;
    hide Print;
    hide Feed;
    hide White;
    BracketedLayout(s, i, d);
    var j := i + 1 + |d.before|;
    var n := j + |Print(d.inner)| + |d.after|;
    var (st1, ops1) := Read(d.inner, st, ops + ["("]);
    assert s[n] == s[n..n + 1][0] == ')';
    LexClose(s, n);
    hide At;
    ReadsOpen(s, i, st, ops);
    SkipWhite(s, i + 1, d.before, st, ops + ["("]);
    Reading(s, j, d.inner, st, ops + ["("]);
    SkipWhite(s, j + |Print(d.inner)|, d.after, st1, ops1);
    RunToken(s, n, Close, n + 1, st1, ops1);
  }

  lemma LexOpBefore(s: string, k: nat, d: Doc)
    requires d.Binary? && Spelled(d) && At(s, k, d.op) && At(s, k + |d.op|, d.after + Print(d.r))
    ensures k < |s| && Lex(s, k) == Found(Operator(d.op), k + |d.op|)
  {
    hide At;
    hide Lex;
    hide Print;
    hide IsBinary;
    PrintStarts(d.r);
    var t := d.after + Print(d.r);
    assert |t| >= 2 && (t[0] in d.after || t[0] == Print(d.r)[0]);
    FirstAt(s, k + |d.op|, t);
    AtLength(s, k + |d.op|, t);
    LexOp(s, k, d.op);
  }

  lemma AtLength(s: string, i: nat, t: string)
    requires At(s, i, t)
    ensures i + |t| <= |s|
  {
  }

  // ----- a whole text

  /** The operands left when the text of d ends. */
  function Remains(d: Doc): seq<TTA> {
    var (st, ops) := Read(d, [], []);
    PopWhile(st, ops, Never).0
  }

  lemma {:induction false} NeverStops(st: seq<TTA>, ops: seq<string>)
    ensures PopWhile(st, ops, Never).1 == []
    decreases |ops|
  {
    hide ProcessOp;
    if ops != [] {
      NeverStops(ProcessOp(st, ops[|ops| - 1]), ops[..|ops| - 1]);
    }
  }

  lemma ReadsWithin(d: Doc, before: string, after: string)
    requires Spelled(d) && White(before) && White(after)
    ensures var s := before + (Print(d) + after);
            var (st, ops) := Read(d, [], []);
            Run(s, 0, [], []) == Run(s, |s|, st, ops)
  {
    hide Run;
    hide Read;
    var s := before + (Print(d) + after);
    var n := |before| + |Print(d)|;
    assert At(s, 0, s);
    AtSplit(s, 0, before, Print(d) + after);
    AtSplit(s, |before|, Print(d), after);
    hide At;
    hide Print;
    var (st, ops) := Read(d, [], []);
    SkipWhite(s, 0, before, [], []);
    Reading(s, |before|, d, [], []);
    SkipWhite(s, n, after, st, ops);
  }

  /** Parsing a printing, with white space at either end. */
  lemma ParseMeans(d: Doc, before: string, after: string)
    requires Spelled(d) && White(before) && White(after)
    ensures var s := before + (Print(d) + after);
            Run(s, 0, [], []) == Stacks(Remains(d), []) && Parse(s) == Parsed(Top(Remains(d)))
  {
    hide Run;
    hide Read;
    hide Print;
    hide PopWhile;
    hide Spelled;
    var s := before + (Print(d) + after);
    var (st, ops) := Read(d, [], []);
    ReadsWithin(d, before, after);
    RunEnds(s, st, ops);
    NeverStops(st, ops);
  }
}
