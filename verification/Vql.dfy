/**
 The query parser: a lexer fused with a shunting-yard parser over two stacks. A character stands for a byte of the
 source text; the lexer only ever compares bytes with ASCII, so multi-byte characters pass through operands unchanged.
 */
module Vql {
  import opened Wrappers

  datatype Decor = Plain | Quoted | Range

  datatype TTA = TTA(op: string, decor: Decor, l: Option<TTA>, r: Option<TTA>)

  // ----- operators

  predicate IsBinary(op: string) {
    op in {"<", ">", "==", "===", "!=", "=*", "=+", ">=", "<=", "||", "&&"}
  }

  /** The operator a short stretch of text starts with, or "". */
  function IsOp(c: string): (op: string)
    ensures op != "" ==> IsBinary(op) && op <= c
  {
    match |c|
    case 1 => if c[0] == '>' then ">" else if c[0] == '<' then "<" else ""
    case 2 =>
      if c == ">=" || c == "<=" || c == "==" || c == "!=" || c == "=*" || c == "=+" || c == "||" || c == "&&" then c
      else if c[0] == '>' then ">"
      else if c[0] == '<' then "<"
      else ""
    case 3 => if c == "===" then c else ""
    case _ => ""
  }

  /** Binding strength. The table has "=>" where ">=" is meant, so ">=" gets -1, as "(" does. */
  function Priority(op: string): int {
    if op == "<" || op == "<=" || op == ">" || op == "=>" then 4
    else if op == "==" || op == "!=" || op == "=*" || op == "=+" || op == "===" then 3
    else if op == "&&" then 2
    else if op == "||" then 1
    else -1
  }

  predicate Delim(c: char) {
    c == ' ' || c == '\t' || c == '\r' || c == '\n'
  }

  // ----- the lexer

  datatype Token = Open | Close | Operator(op: string) | Operand(text: string, decor: Decor)

  /** One step: a token and where to go on, nothing but a delimiter, or an index out of range. */
  datatype Lexed = Found(token: Token, next: nat) | Skip(next: nat) | Panic

  predicate Quote(c: char) {
    c == '\'' || c == '`' || c == '['
  }

  function Closing(mark: char): char {
    if mark == '[' then ']' else mark
  }

  function FindClosing(s: string, i: nat, mark: char): (j: nat)
    requires i <= |s|
    ensures i <= j <= |s| && (j < |s| ==> s[j] == mark) && mark !in s[i..j]
    decreases |s| - i
  {
    if i < |s| && s[i] != mark then FindClosing(s, i + 1, mark) else i
  }

  predicate EndsWord(c: char) {
    c == ' ' || c == '&' || c == '|' || c == '=' || c == '<' || c == '>' || c == '!' || c == '-'
  }

  function FindWordEnd(s: string, i: nat): (j: nat)
    requires i <= |s|
    ensures i <= j <= |s|
    decreases |s| - i
  {
    if i < |s| && !EndsWord(s[i]) then FindWordEnd(s, i + 1) else i
  }

  /** The end of the stretch in which an operator is looked for. */
  function OpEnd(s: string, i: nat): (e: nat)
    requires i < |s|
    ensures i <= e <= |s|
  {
    var e := if i + 2 >= |s| then |s| - 1 else i + 2;
    if s[i] == '=' && s[e] == '=' then e + 1 else e
  }

  /** An operand without quotes: a bracket that ends it is given back, together with the quote mark before it. */
  function Word(s: string, i: nat): (l: Lexed)
    requires i < |s| && s[i] != '(' && s[i] != ')'
    ensures l.Found? ==> l.next > i
  {
    var end := FindWordEnd(s, i);
    if end == 0 then Panic
    else if s[end - 1] == '(' || s[end - 1] == ')' then
      if end < 2 then Panic
      else
        var last := if s[end - 2] != '\'' then end - 1 else end - 2;
        if last < i then Panic else Found(Operand(s[i..last], Plain), end - 1)
    else Found(Operand(s[i..end], Plain), end + 1)
  }

  function Lex(s: string, i: nat): (l: Lexed)
    requires i < |s|
    ensures !l.Panic? ==> l.next > i
  {
    if Delim(s[i]) then Skip(i + 1)
    else if s[i] == '(' then Found(Open, i + 1)
    else if s[i] == ')' then Found(Close, i + 1)
    else
      var op := IsOp(s[i..OpEnd(s, i)]);
      if op != "" then Found(Operator(op), i + |op|)
      else if Quote(s[i]) then
        var j := FindClosing(s, i + 1, Closing(s[i]));
        Found(Operand(s[i + 1..j], if s[i] == '[' then Range else Quoted), j + 1)
      else Word(s, i)
  }

  // ----- the two stacks

  function Top(st: seq<TTA>): Option<TTA> {
    if st == [] then None else Some(st[|st| - 1])
  }

  function Rest<T>(st: seq<T>): seq<T> {
    if st == [] then [] else st[..|st| - 1]
  }

  function ProcessOp(st: seq<TTA>, op: string): seq<TTA> {
    var r, l := Top(st), Top(Rest(st));
    var st' := Rest(Rest(st));
    if IsBinary(op) then st' + [TTA(op, Plain, l, r)] else st'
  }

  /** What stops the popping of operators: a weaker operator, an opening bracket, or nothing. */
  datatype Stop = Weaker(priority: int) | Bracket | Never

  predicate StopsAt(stop: Stop, op: string) {
    match stop
    case Weaker(priority) => Priority(op) < priority
    case Bracket => op == "("
    case Never => false
  }

  function PopWhile(st: seq<TTA>, ops: seq<string>, stop: Stop): (seq<TTA>, seq<string>)
    decreases |ops|
  {
    if ops == [] || StopsAt(stop, ops[|ops| - 1]) then (st, ops)
    else PopWhile(ProcessOp(st, ops[|ops| - 1]), ops[..|ops| - 1], stop)
  }

  function Feed(st: seq<TTA>, ops: seq<string>, token: Token): (seq<TTA>, seq<string>) {
    match token
    case Open => (st, ops + ["("])
    case Close => var (st', ops') := PopWhile(st, ops, Bracket); (st', Rest(ops'))
    case Operator(op) => var (st', ops') := PopWhile(st, ops, Weaker(Priority(op))); (st', ops' + [op])
    case Operand(text, decor) => (st + [TTA(text, decor, None, None)], ops)
  }

  // ----- lexing, then feeding token after token

  datatype Stacks = Panicked | Stacks(operands: seq<TTA>, operators: seq<string>)

  function Run(s: string, i: nat, st: seq<TTA>, ops: seq<string>): Stacks
    decreases if i < |s| then |s| - i else 0
  {
    if i >= |s| then var (st', ops') := PopWhile(st, ops, Never); Stacks(st', ops')
    else
      match Lex(s, i)
      case Panic => Panicked
      case Skip(next) => Run(s, next, st, ops)
      case Found(token, next) => var (st', ops') := Feed(st, ops, token); Run(s, next, st', ops')
  }

  /** What parsing gives: the operand left on top, if any. */
  datatype Result = Crash | Parsed(tree: Option<TTA>)

  function Parse(s: string): Result {
    match Run(s, 0, [], [])
    case Panicked => Crash
    case Stacks(st, _) => Parsed(Top(st))
  }

  // ----- the parser as it runs: one loop that lexes and reduces at once

  method ParseExpr(s: string) returns (r: Result)
    ensures r == Parse(s)
  {
    hide Lex;
    hide PopWhile;
    var st: seq<TTA> := [];
    var op: seq<string> := [];
    var i := 0;
    while i < |s|
      invariant Run(s, i, st, op) == Run(s, 0, [], [])
      decreases if i < |s| then |s| - i else 0
    {
      var lexed;
      lexed, st, op := ParseStep(s, i, st, op);
      if lexed.Panic? {
        return Crash;
      }
      i := lexed.next;
    }
    st, op := PopOperators(st, op, Never);
    return Parsed(Top(st));
  }

  /** The body of the parser loop: what is read at i is fed to the two stacks at once. */
  method ParseStep(s: string, i: nat, st: seq<TTA>, op: seq<string>)
    returns (lexed: Lexed, st': seq<TTA>, op': seq<string>)
    requires i < |s|
    ensures lexed == Lex(s, i)
    ensures (st', op') == if lexed.Found? then Feed(st, op, lexed.token) else (st, op)
  {
    hide IsOp;
    hide Priority;
    hide FindClosing;
    hide PopWhile;
    st', op' := st, op;
    if Delim(s[i]) {
      return Skip(i + 1), st, op;
    }
    if s[i] == '(' {
      return Found(Open, i + 1), st, op + ["("];
    }
    if s[i] == ')' {
      st', op' := PopOperators(st, op, Bracket);
      return Found(Close, i + 1), st', Rest(op');
    }
    var e := i + 2;
    if e >= |s| {
      e := |s| - 1;
    }
    if s[i] == '=' && s[e] == '=' {
      e := e + 1;
    }
    var curOp := IsOp(s[i..e]);
    if curOp != "" {
      st', op' := PopOperators(st, op, Weaker(Priority(curOp)));
      return Found(Operator(curOp), i + |curOp|), st', op' + [curOp];
    }
    if Quote(s[i]) {
      var decor := if s[i] == '[' then Range else Quoted;
      var j := ReadQuoted(s, i + 1, Closing(s[i]));
      lexed := Found(Operand(s[i + 1..j], decor), j + 1);
    } else {
      lexed := ReadWord(s, i);
    }
    if lexed.Found? {
      st' := st + [TTA(lexed.token.text, lexed.token.decor, None, None)];
    }
  }

  method ReadQuoted(s: string, bp: nat, closed: char) returns (i: nat)
    requires bp <= |s|
    ensures i == FindClosing(s, bp, closed)
  {
    i := bp;
    while i < |s| && s[i] != closed
      invariant bp <= i <= |s| && FindClosing(s, i, closed) == FindClosing(s, bp, closed)
    {
      i := i + 1;
    }
  }

  method ReadWord(s: string, bp: nat) returns (word: Lexed)
    requires bp < |s| && s[bp] != '(' && s[bp] != ')'
    ensures word == Word(s, bp)
    ensures word.Panic? || (word.Found? && word.token.Operand? && word.token.decor == Plain)
  {
    var i := bp;
    while i < |s| && !EndsWord(s[i])
      invariant bp <= i <= |s| && FindWordEnd(s, i) == FindWordEnd(s, bp)
    {
      i := i + 1;
    }
    if i == 0 {
      return Panic;
    }
    if s[i - 1] == '(' || s[i - 1] == ')' {
      if i < 2 {
        return Panic;
      }
      var ep := if s[i - 2] != '\'' then i - 1 else i - 2;
      if ep < bp {
        return Panic;
      }
      i := i - 2;
      return Found(Operand(s[bp..ep], Plain), i + 1);
    }
    return Found(Operand(s[bp..i], Plain), i + 1);
  }

  method PopOperators(st: seq<TTA>, op: seq<string>, stop: Stop) returns (st': seq<TTA>, op': seq<string>)
    ensures (st', op') == PopWhile(st, op, stop)
  {
    st', op' := st, op;
    while op' != []
      invariant PopWhile(st', op', stop) == PopWhile(st, op, stop)
      decreases |op'|
    {
      var last := op'[|op'| - 1];
      if StopsAt(stop, last) {
        break;
      }
      op' := op'[..|op'| - 1];
      st' := ProcessOp(st', last);
    }
  }
}
