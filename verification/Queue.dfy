/** A consumer of one part of a queue, with a checkpoint that is overwritten in place and never truncated. */
module Queue {
  import opened QueueFile
  import opened Texts
  import opened Wrappers

  const TWO_32: nat := 0x1_0000_0000
  const TWO_63: nat := 0x8000_0000_0000_0000
  const TWO_64: nat := 0x1_0000_0000_0000_0000

  // ----- the checkpoint

  function CheckpointText(queueName: string, name: string, start: nat, count: nat, id: nat): string {
    queueName + ";" + name + ";" + Decimal(start) + ";" + Decimal(count) + ";" + Decimal(id)
  }

  /** Writing at the beginning of a file: what the text does not reach stays. */
  function Overwrite(file: string, text: string): string {
    text + if |text| < |file| then file[|text|..] else ""
  }

  /** A decimal number with an optional sign that fits 64 bits. */
  function ParseInt(text: string): (n: Option<int>) {
    var negative := text != "" && text[0] == '-';
    var digits := if text != "" && (text[0] == '-' || text[0] == '+') then text[1..] else text;
    if digits == "" || !AllDigits(digits) then None
    else
      var n: int := Number(digits);
      if negative then (if n <= TWO_63 then Some(-n) else None)
      else if n < TWO_63 then Some(n) else None
  }

  predicate NoNewline(text: string) {
    '\n' !in text
  }

  /** The first line; a carriage return before the line feed is dropped. */
  function FirstLine(text: string): string {
    if text == "" then ""
    else if text[0] == '\n' then ""
    else if text[0] == '\r' && |text| > 1 && text[1] == '\n' then ""
    else [text[0]] + FirstLine(text[1..])
  }

  lemma {:induction false} OneLine(text: string)
    requires NoNewline(text)
    ensures FirstLine(text) == text
  {
    if text != "" {
      OneLine(text[1..]);
      assert [text[0]] + text[1..] == text;
    }
  }

  lemma {:induction false} LongerNumber(a: nat, b: nat)
    requires a <= b
    ensures |Decimal(a)| <= |Decimal(b)|
  {
    if a >= 10 {
      LongerNumber(a / 10, b / 10);
    }
  }

  /** The text never gets shorter, so nothing of the text before is left. */
  lemma CheckpointReplaced(queueName: string, name: string, start: nat, count: nat, start': nat, count': nat, id: nat)
    requires start <= start' && count <= count'
    ensures Overwrite(CheckpointText(queueName, name, start, count, id), CheckpointText(queueName, name, start', count', id))
      == CheckpointText(queueName, name, start', count', id)
  {
    LongerNumber(start, start');
    LongerNumber(count, count');
    hide Decimal;
    var text := CheckpointText(queueName, name, start', count', id);
    assert text + "" == text;
  }

  /** In general an overwrite leaves the end of what was there, unless the new text is as long at least. */
  lemma OverwriteIff(file: string, text: string)
    ensures Overwrite(file, text) == text <==> |file| <= |text|
    ensures |text| <= |file| ==> Overwrite(file, text) == text + file[|text|..]
  {
    assert text + "" == text;
    if |text| == |file| {
      assert file[|text|..] == "";
    } else if |text| < |file| {
      assert |text + file[|text|..]| > |text|;
    }
  }

  lemma OneRecordOn(messages: seq<Message>, k: nat)
    requires k < |messages|
    ensures Start(messages, k + 1) == Start(messages, k) + HEADER_LENGTH + |messages[k].body|
  {
  }

  lemma ShortBody(sum: Sum, m: Message)
    requires IsSum(sum) && Fits(m)
    ensures |m.body| < TWO_32
  {
    HeadFits(sum, 0, m);
  }

  lemma ParseDecimal(n: nat)
    requires n < TWO_63
    ensures ParseInt(Decimal(n)) == Some(n)
    ensures NoSemicolon(Decimal(n)) && NoNewline(Decimal(n))
  {
    DecimalNumber(n);
    var d := Decimal(n);
    assert IsDigit(d[0]);
    hide Decimal;
    hide Number;
  }

  /** Numbers with and without a sign; 64 bits with a sign are the limit. */
  lemma IntegerRead(d: string)
    requires d != "" && AllDigits(d)
    ensures var n: int := Number(d);
            && ParseInt(d) == (if n < 0x8000_0000_0000_0000 then Some(n) else None)
            && ParseInt("+" + d) == (if n < 0x8000_0000_0000_0000 then Some(n) else None)
            && ParseInt("-" + d) == if n <= 0x8000_0000_0000_0000 then Some(-n) else None
  {
    assert IsDigit(d[0]) && !IsDigit('+') && !IsDigit('-');
    assert ("+" + d)[1..] == d && ("-" + d)[1..] == d;
    hide Number;
    hide AllDigits;
  }

  /** Nothing else is a number. */
  lemma NoInteger(text: string)
    requires text == "" || text == "+" || text == "-" || (exists i | 0 < i < |text| :: !IsDigit(text[i]))
             || !(IsDigit(text[0]) || text[0] == '+' || text[0] == '-')
    ensures ParseInt(text) == None
  {
    if i :| 0 < i < |text| && !IsDigit(text[i]) {
      assert text[1..][i - 1] == text[i];
    }
  }

  /** A line ends at its line feed; one carriage return before that does not count. */
  lemma {:induction false} LineEnds(line: string, rest: string)
    requires NoNewline(line)
    ensures FirstLine(line + "\n" + rest)
      == if line != "" && line[|line| - 1] == '\r' then line[..|line| - 1] else line
    decreases |line|
  {
    var text := line + "\n" + rest;
    if line == "" {
      assert text[0] == '\n';
    } else if |line| == 1 {
      assert text[0] == line[0] && text[1] == '\n' && text[1..] == "" + "\n" + rest;
      LineEnds("", rest);
    } else {
      assert text[0] == line[0] && text[1] == line[1] && text[1..] == line[1..] + "\n" + rest;
      LineEnds(line[1..], rest);
      assert [line[0]] + line[1..] == line;
      assert [line[0]] + line[1..][..|line[1..]| - 1] == line[..|line| - 1];
    }
  }

  lemma CheckpointPieces(queueName: string, name: string, start: nat, count: nat, id: nat)
    requires NoSemicolon(queueName) && NoSemicolon(name) && start < TWO_63 && count < TWO_63 && id < TWO_63
    ensures Split(CheckpointText(queueName, name, start, count, id))
      == [queueName, name, Decimal(start), Decimal(count), Decimal(id)]
  {
    ParseDecimal(start);
    ParseDecimal(count);
    ParseDecimal(id);
    hide Split;
    FivePieces(queueName, name, Decimal(start), Decimal(count), Decimal(id));
  }

  lemma FivePieces(a: string, b: string, c: string, d: string, e: string)
    requires NoSemicolon(a) && NoSemicolon(b) && NoSemicolon(c) && NoSemicolon(d) && NoSemicolon(e)
    ensures Split(a + ";" + b + ";" + c + ";" + d + ";" + e) == [a, b, c, d, e]
  {
    hide *;
    NoPieces();
    SplitClosed("", [], a);
    assert "" + a + ";" == a + ";" && [] + [a] == [a];
    SplitClosed(a + ";", [a], b);
    assert [a] + [b] == [a, b];
    SplitClosed(a + ";" + b + ";", [a, b], c);
    assert [a, b] + [c] == [a, b, c];
    SplitClosed(a + ";" + b + ";" + c + ";", [a, b, c], d);
    assert [a, b, c] + [d] == [a, b, c, d];
    SplitPiece(a + ";" + b + ";" + c + ";" + d + ";", e);
    assert ([a, b, c, d] + [""])[..4] == [a, b, c, d] && "" + e == e;
    assert [a, b, c, d] + [e] == [a, b, c, d, e];
  }

  lemma NoPieces()
    ensures Split("") == [] + [""]
  {
  }

  datatype Position = Position(start: nat, count: nat, id: nat)

  /** The position in a checkpoint line, if it is one of this queue and this consumer. */
  function PositionIn(line: string, queueName: string, name: string): Option<Position> {
    var ch := Split(line);
    if |ch| != 5 || ch[0] != queueName || ch[1] != name then None
    else
      var start, count, id := ParseInt(ch[2]), ParseInt(ch[3]), ParseInt(ch[4]);
      if start.None? || count.None? || id.None? then None
      else Some(Position(start.value % TWO_64, count.value % TWO_32, id.value % TWO_32))
  }

  /** The checkpoint reads back as what was written. */
  lemma CheckpointRead(queueName: string, name: string, at: Position)
    requires NoSemicolon(queueName) && NoSemicolon(name) && NoNewline(queueName) && NoNewline(name)
    requires at.start < TWO_63 && at.count < TWO_32 && at.id < TWO_32
    ensures var text := CheckpointText(queueName, name, at.start, at.count, at.id);
            && text != "" && FirstLine(text) == text && PositionIn(text, queueName, name) == Some(at)
            && FirstLine("") == ""
  {
    var text := CheckpointText(queueName, name, at.start, at.count, at.id);
    NumbersRead(queueName, name, at);
    CheckpointOneLine(queueName, name, at);
    hide PositionIn;
    hide CheckpointText;
    OneLine(text);
    assert Position(at.start, at.count, at.id) == at;
  }

  lemma NumbersRead(queueName: string, name: string, at: Position)
    requires NoSemicolon(queueName) && NoSemicolon(name)
    requires at.start < TWO_63 && at.count < TWO_32 && at.id < TWO_32
    ensures PositionIn(CheckpointText(queueName, name, at.start, at.count, at.id), queueName, name) == Some(at)
  {
    hide Decimal;
    hide ParseInt;
    hide Split;
    hide CheckpointText;
    hide NoSemicolon;
    hide NoNewline;
    CheckpointPieces(queueName, name, at.start, at.count, at.id);
    ParseDecimal(at.start);
    ParseDecimal(at.count);
    ParseDecimal(at.id);
  }

  lemma CheckpointOneLine(queueName: string, name: string, at: Position)
    requires NoNewline(queueName) && NoNewline(name)
    requires at.start < TWO_63 && at.count < TWO_32 && at.id < TWO_32
    ensures var text := CheckpointText(queueName, name, at.start, at.count, at.id); text != "" && NoNewline(text)
  {
    ParseDecimal(at.start);
    ParseDecimal(at.count);
    ParseDecimal(at.id);
    hide Decimal;
  }

  // ----- the consumer

  /** A read fills the buffer as far as the file goes; the rest of the buffer keeps its bytes. */
  function ReadAt(file: seq<Byte>, pos: nat, buff: seq<Byte>): (read: seq<Byte>)
    ensures |read| == |buff|
  {
    if pos + |buff| <= |file| then file[pos..pos + |buff|]
    else if pos < |file| then file[pos..] + buff[|file| - pos..]
    else buff
  }

  lemma ReadAtByte(file: seq<Byte>, pos: nat, buff: seq<Byte>, i: nat)
    requires i < |buff|
    ensures ReadAt(file, pos, buff)[i] == if pos + i < |file| then file[pos + i] else buff[i]
  {
  }

  const ZEROS: seq<Byte> := [0, 0, 0, 0]

  class Consumer {
    const sum: Sum
    const queueName: string
    const name: string
    var file: seq<Byte>
    var countPushed: nat
    var info: string
    var isReady: bool
    var id: nat
    var startPosRecord: nat
    var countPopped: nat
    var lastReadMsg: seq<Byte>
    var header: Header
    var headerBuff: seq<Byte>
    var buff: seq<Byte>
    ghost var messages: seq<Message>
    // the caller's part: whether it holds a message that it has not committed
    var pending: bool

    /** What has been pushed is in the file. */
    ghost predicate FileValid()
      reads this
    {
      && IsSum(sum) && file == FileOf(sum, messages) && countPushed == |messages| < TWO_32 && |file| < TWO_63
      && forall i | 0 <= i < |messages| :: Fits(messages[i])
    }

    /** The consumer stands before message number countPopped. */
    ghost predicate AtRecord()
      reads this
    {
      && isReady && id < TWO_32 && countPopped <= |messages| && startPosRecord == Start(messages, countPopped)
      && |headerBuff| == HEADER_LENGTH
      && (pending ==> IsSum(sum) && AtMessage())
    }

    /** A restart would come back to the same place. */
    ghost predicate Checkpointed()
      reads this
    {
      && NoSemicolon(queueName) && NoSemicolon(name) && NoNewline(queueName) && NoNewline(name)
      && (info == CheckpointText(queueName, name, startPosRecord, countPopped, id)
          || (info == "" && countPopped == 0 && startPosRecord == 0 && id == 0))
    }

    ghost predicate Valid()
      reads this
    {
      FileValid() && AtRecord() && Checkpointed()
    }

    /** The next message has been read and not committed yet. */
    ghost predicate AtMessage()
      requires IsSum(sum) && |headerBuff| == HEADER_LENGTH
      reads this
    {
      countPopped < |messages| && HasRead(countPopped) && header.startPos == startPosRecord
    }

    /** The k-th message is the one that was read last. */
    ghost predicate HasRead(k: nat)
      requires IsSum(sum) && |headerBuff| == HEADER_LENGTH
      reads this
    {
      && k < |messages|
      && var m := messages[k];
         && lastReadMsg == m.body && header.msgLength == |m.body| && header.countPushed == m.number && header.kind == m.kind
         && header.crc == Crc(sum, headerBuff[..21] + ZEROS + m.body)
    }

    /** The next message, or nothing if there is none; the consumer stays where it is. */
    method Pop() returns (msg: seq<Byte>)
      requires Valid()
      modifies `headerBuff, `header, `buff, `lastReadMsg, `pending
      ensures Valid()
      ensures countPopped < |messages| ==> msg == messages[countPopped].body && pending
      ensures countPopped == |messages| ==> msg == []
    {
      hide FileOf;
      hide Start;
      hide Crc;
      hide FromBuff;
      hide CheckpointText;
      hide Fits;
      hide ReadAt;
      if !isReady || countPopped >= countPushed {
        return [];
      }
      NextRecord(sum, messages, countPopped, headerBuff);
      msg := ReadRecord();
      pending := true;
    }

    /** The checkpoint is written over the one before. */
    method PutInfo() returns (ok: bool)
      modifies `info
      ensures ok <==> isReady
      ensures info == if isReady then Overwrite(old(info), CheckpointText(queueName, name, startPosRecord, countPopped, id))
                      else old(info)
    {
      if !isReady {
        return false;
      }
      info := Overwrite(info, CheckpointText(queueName, name, startPosRecord, countPopped, id));
      ok := true;
    }

    /** The checksum of what was read last. */
    ghost predicate CrcMatches()
      requires IsSum(sum) && |headerBuff| == HEADER_LENGTH
      reads this
    {
      header.crc == Crc(sum, headerBuff[..21] + ZEROS + lastReadMsg)
    }

    /** Goes on behind the record that was read last, if there is anything uncommitted and the checksum is right. */
    method CommitAndNext() returns (ok: bool)
      requires IsSum(sum) && |headerBuff| == HEADER_LENGTH
      modifies `headerBuff, `countPopped, `startPosRecord, `info
      ensures ok <==> isReady && old(countPopped) < countPushed && old(CrcMatches())
      ensures |headerBuff| == HEADER_LENGTH && headerBuff[..21] == old(headerBuff)[..21]
      ensures CrcMatches() == old(CrcMatches())
      ensures !ok ==> countPopped == old(countPopped) && startPosRecord == old(startPosRecord) && info == old(info)
      ensures ok ==>
        && countPopped == (old(countPopped) + 1) % TWO_32
        && startPosRecord == (old(startPosRecord) + HEADER_LENGTH + header.msgLength) % TWO_64
        && info == Overwrite(old(info), CheckpointText(queueName, name, startPosRecord, countPopped, id))
    {
      hide CheckpointText;
      hide Overwrite;
      if !isReady || countPopped >= countPushed {
        return false;
      }
      headerBuff := headerBuff[..21] + ZEROS;
      var crc := Crc(sum, headerBuff + lastReadMsg);
      assert headerBuff + lastReadMsg == old(headerBuff)[..21] + ZEROS + lastReadMsg;
      if header.crc != crc {
        return false;
      }
      countPopped := (countPopped + 1) % TWO_32;
      startPosRecord := (startPosRecord + HEADER_LENGTH + header.msgLength) % TWO_64;
      ok := PutInfo();
    }

    /** A message that was read is committed: the consumer stands before the next one. */
    method Commit() returns (ok: bool)
      requires Valid() && pending
      modifies `headerBuff, `countPopped, `startPosRecord, `info, `pending
      ensures Valid() && ok && !pending && countPopped == old(countPopped) + 1 && HasRead(old(countPopped))
    {
      hide FileOf;
      hide Crc;
      hide CheckpointText;
      hide Overwrite;
      hide Fits;
      FileLength(sum, messages);
      StartGrows(messages, countPopped + 1, |messages|);
      CheckpointFirst(queueName, name, startPosRecord + HEADER_LENGTH + |messages[countPopped].body|, countPopped + 1, id);
      CheckpointReplaced(queueName, name, startPosRecord, countPopped,
                         startPosRecord + HEADER_LENGTH + |messages[countPopped].body|, countPopped + 1, id);
      ok := CommitAndNext();
      pending := false;
    }

    /**
     A commit without a read since the last one is accepted too, if there is anything to commit, and steps by the length of what
     was read last: the consumer stands before the next message just when the one passed over is as long.
     */
    method CommitAgain(ghost k: nat) returns (ok: bool)
      requires Valid() && !pending && HasRead(k)
      modifies `headerBuff, `countPopped, `startPosRecord, `info
      ensures ok <==> old(countPopped) < |messages|
      ensures ok ==> countPopped == old(countPopped) + 1
      ensures ok ==> startPosRecord == old(startPosRecord) + HEADER_LENGTH + |messages[k].body|
      ensures ok ==> (Valid() <==> |messages[k].body| == |messages[old(countPopped)].body|)
      ensures !ok ==> Valid()
    {
      hide FileOf;
      hide Crc;
      hide CheckpointText;
      hide Overwrite;
      hide Fits;
      FileLength(sum, messages);
      StartGrows(messages, countPopped, |messages|);
      ShortBody(sum, messages[k]);
      if countPopped < |messages| {
        CheckpointFirst(queueName, name, startPosRecord + HEADER_LENGTH + |messages[k].body|, countPopped + 1, id);
        CheckpointReplaced(queueName, name, startPosRecord, countPopped,
                           startPosRecord + HEADER_LENGTH + |messages[k].body|, countPopped + 1, id);
      }
      ok := CommitAndNext();
    }

    /** A second commit without a read in between repeats the step of the first, whatever message comes next. */
    method CommitTwice() returns (ok: bool)
      requires Valid() && pending && countPopped + 1 < |messages|
      modifies `headerBuff, `countPopped, `startPosRecord, `info
      ensures ok && countPopped == old(countPopped) + 2
      ensures startPosRecord == old(startPosRecord) + 2 * (HEADER_LENGTH + |messages[old(countPopped)].body|)
      ensures startPosRecord == Start(messages, countPopped)
        <==> |messages[old(countPopped)].body| == |messages[old(countPopped) + 1].body|
    {
      hide FileOf;
      hide Crc;
      hide CheckpointText;
      hide Overwrite;
      hide Fits;
      assert CrcMatches();
      hide CrcMatches;
      OneRecordOn(messages, countPopped);
      OneRecordOn(messages, countPopped + 1);
      FileLength(sum, messages);
      StartGrows(messages, countPopped + 1, |messages|);
      ShortBody(sum, messages[countPopped]);
      hide Start;
      var first := CommitAndNext();
      ok := CommitAndNext();
    }

    /** The position is taken from the checkpoint; with no checkpoint it stays as it is. */
    method GetInfo() returns (ok: bool)
      modifies `startPosRecord, `countPopped, `id, `isReady
      ensures FirstLine(info) == "" ==> ok && unchanged(`startPosRecord, `countPopped, `id)
      ensures FirstLine(info) != "" ==>
        && (ok <==> PositionIn(FirstLine(info), queueName, name).Some?)
        && (ok ==> Position(startPosRecord, countPopped, id) == PositionIn(FirstLine(info), queueName, name).value)
    {
      hide Split;
      hide ParseInt;
      var str := FirstLine(info);
      if str != "" {
        var ch := Split(str);
        if |ch| != 5 || ch[0] != queueName || ch[1] != name {
          isReady := false;
          return false;
        }
        var start := ParseInt(ch[2]);
        if start.None? {
          isReady := false;
          return false;
        }
        startPosRecord := start.value % TWO_64;
        var count := ParseInt(ch[3]);
        if count.None? {
          isReady := false;
          return false;
        }
        countPopped := count.value % TWO_32;
        var part := ParseInt(ch[4]);
        if part.None? {
          isReady := false;
          return false;
        }
        id := part.value % TWO_32;
      }
      ok := true;
    }

    /** The consumer is closed and a new one takes over: it stands before the first message that was not committed. */
    method Restart()
      requires Valid()
      modifies this
      ensures Valid() && !pending && messages == old(messages)
      ensures countPopped == old(countPopped) && startPosRecord == old(startPosRecord) && id == old(id)
    {
      hide FileOf;
      hide CheckpointText;
      hide Fits;
      hide FirstLine;
      hide PositionIn;
      hide NoSemicolon;
      hide NoNewline;
      hide IsSum;
      hide Start;
      ghost var was := Position(startPosRecord, countPopped, id);
      PositionFits(sum, messages, countPopped);
      CheckpointRead(queueName, name, was);
      Forget();
      var ok := GetInfo();
      isReady := ok;
    }

    /** A new consumer, with the buffers of a new queue. */
    method Forget()
      modifies `startPosRecord, `countPopped, `id, `lastReadMsg, `headerBuff, `buff, `header, `pending
      ensures startPosRecord == countPopped == id == 0 && |headerBuff| == HEADER_LENGTH && !pending
    {
      startPosRecord, countPopped, id := 0, 0, 0;
      lastReadMsg, headerBuff, buff := [], seq(HEADER_LENGTH, i => 0), seq(409600, i => 0);
      header := Header(0, 0, 0, 0, ZEROS);
      pending := false;
    }

    /** The other side appends a message and then counts it. */
    method Push(m: Message)
      requires Valid() && Fits(m) && |messages| + 1 < TWO_32 && |file| + HEADER_LENGTH + |m.body| < TWO_63
      modifies `file, `countPushed, `messages
      ensures Valid() && messages == old(messages) + [m]
    {
      hide Crc;
      hide CheckpointText;
      hide Fits;
      assert (messages + [m])[..|messages|] == messages;
      StartOfPrefix(messages, [m], countPopped);
      file := file + Head(sum, |file|, m) + m.body;
      countPushed := countPushed + 1;
      messages := messages + [m];
    }

    /** One thing that happens; what is committed is what has been delivered. */
    method Step(action: Action, ghost delivered: seq<seq<Byte>>) returns (ghost delivered': seq<seq<Byte>>)
      requires Valid() && delivered == Bodies(messages, countPopped)
      modifies this
      ensures Valid() && delivered' == Bodies(messages, countPopped) && old(messages) <= messages
      ensures delivered' == delivered + if action.Finish? && old(pending) then [old(lastReadMsg)] else []
    {
      hide AtRecord;
      hide FileValid;
      hide Checkpointed;
      delivered' := delivered;
      match action {
        case Append(m) =>
          if Fits(m) && countPushed + 1 < TWO_32 && |file| + HEADER_LENGTH + |m.body| < TWO_63 {
            PushAllowed();
            BodiesOfPrefix(messages, [m], countPopped);
            Push(m);
          }
        case Read =>
          var msg := Pop();
        case Finish =>
          if pending {
            Pending();
            delivered' := delivered + [lastReadMsg];
            var ok := Commit();
          }
        case Reopen =>
          Restart();
      }
    }

    lemma PushAllowed()
      requires Valid()
      ensures countPushed == |messages| && countPopped <= |messages|
    {
    }

    lemma Pending()
      requires Valid() && pending
      ensures countPopped < |messages| && lastReadMsg == messages[countPopped].body
    {
    }

    /** Header and message are read at the current position. */
    method ReadRecord() returns (msg: seq<Byte>)
      requires |headerBuff| == HEADER_LENGTH
      modifies `headerBuff, `header, `buff, `lastReadMsg
      ensures headerBuff == ReadAt(file, startPosRecord, old(headerBuff)) && |headerBuff| == HEADER_LENGTH
      ensures header == FromBuff(headerBuff)
      ensures header.startPos != startPosRecord ==> msg == [] && lastReadMsg == old(lastReadMsg)
      ensures var from := startPosRecord + HEADER_LENGTH;
              header.startPos == startPosRecord && header.msgLength + 1 < TWO_32 && from + header.msgLength <= |file| ==>
                msg == lastReadMsg == file[from..from + header.msgLength]
    {
      hide FromBuff;
      msg := [];
      headerBuff := ReadAt(file, startPosRecord, headerBuff);
      header := FromBuff(headerBuff);
      if header.startPos != startPosRecord {
        return;
      }
      if header.msgLength >= |buff| {
        buff := seq((header.msgLength + 1) % TWO_32, i => 0);
      }
      if header.msgLength < |buff| {
        buff := ReadAt(file, startPosRecord + HEADER_LENGTH, buff[..header.msgLength]) + buff[header.msgLength..];
        lastReadMsg := buff[..header.msgLength];
        msg := lastReadMsg;
      }
    }
  }

  lemma PositionFits(sum: Sum, messages: seq<Message>, k: nat)
    requires IsSum(sum) && |FileOf(sum, messages)| < TWO_63 && k <= |messages|
    ensures Start(messages, k) < TWO_63
  {
    FileLength(sum, messages);
    StartGrows(messages, k, |messages|);
  }

  /** An empty checkpoint is filled by the first one. */
  lemma CheckpointFirst(queueName: string, name: string, start: nat, count: nat, id: nat)
    ensures Overwrite("", CheckpointText(queueName, name, start, count, id))
      == CheckpointText(queueName, name, start, count, id)
  {
    hide CheckpointText;
    assert CheckpointText(queueName, name, start, count, id) + "" == CheckpointText(queueName, name, start, count, id);
  }

  /** What can happen: a message is appended, the next message is read, it is committed if it was read, the consumer restarts. */
  datatype Action = Append(m: Message) | Read | Finish | Reopen

  /** The first k messages. */
  function Bodies(messages: seq<Message>, k: nat): seq<seq<Byte>>
    requires k <= |messages|
  {
    if k == 0 then [] else Bodies(messages, k - 1) + [messages[k - 1].body]
  }

  lemma {:induction false} BodiesOfPrefix(messages: seq<Message>, more: seq<Message>, k: nat)
    requires k <= |messages|
    ensures Bodies(messages + more, k) == Bodies(messages, k)
  {
    if k > 0 {
      BodiesOfPrefix(messages, more, k - 1);
    }
  }

  /** Over every run, with restarts at any time, the committed messages are the messages pushed, in order, each once. */
  method Run(consumer: Consumer, actions: seq<Action>) returns (ghost delivered: seq<seq<Byte>>)
    requires consumer.Valid() && consumer.countPopped == 0
    modifies consumer
    ensures consumer.Valid() && consumer.countPopped <= |consumer.messages|
    ensures delivered == Bodies(consumer.messages, consumer.countPopped)
    ensures consumer.startPosRecord == Start(consumer.messages, consumer.countPopped)
    ensures old(consumer.messages) <= consumer.messages
  {
    delivered := [];
    for i := 0 to |actions|
      invariant consumer.Valid() && consumer.countPopped <= |consumer.messages|
      invariant delivered == Bodies(consumer.messages, consumer.countPopped)
      invariant old(consumer.messages) <= consumer.messages
    {
      delivered := consumer.Step(actions[i], delivered);
    }
  }

  /** What the two reads of a pop find. */
  lemma NextRecord(sum: Sum, messages: seq<Message>, k: nat, buff: seq<Byte>)
    requires |buff| == HEADER_LENGTH
    requires IsSum(sum) && k < |messages| && |FileOf(sum, messages)| < TWO_63 && Fits(messages[k])
    ensures var file, p, m := FileOf(sum, messages), Start(messages, k), messages[k];
            && p + HEADER_LENGTH + |m.body| <= |file| && |m.body| + 1 < TWO_32
            && file[p + HEADER_LENGTH..p + HEADER_LENGTH + |m.body|] == m.body
            && var head := file[p..p + HEADER_LENGTH];
               ReadAt(file, p, buff) == head
               && FromBuff(head) == Header(p, |m.body|, m.number, m.kind, Crc(sum, head[..21] + ZEROS + m.body))
  {
    RecordAt(sum, messages, k);
    FileLength(sum, messages);
    var m, head := messages[k], Head(sum, Start(messages, k), messages[k]);
    hide *;
    ReadsWhole(FileOf(sum, messages), Start(messages, k), head, m.body, buff);
    HeadFits(sum, Start(messages, k), m);
  }

  lemma ReadsWhole(file: seq<Byte>, p: nat, head: seq<Byte>, body: seq<Byte>, buff: seq<Byte>)
    requires StandsAt(file, p, head, body) && |buff| == |head|
    ensures p + |head| + |body| <= |file| && ReadAt(file, p, buff) == head == file[p..p + |head|]
    ensures file[p + |head|..p + |head| + |body|] == body
  {
  }

  lemma HeadFits(sum: Sum, p: nat, m: Message)
    requires IsSum(sum) && p < TWO_63 && Fits(m)
    ensures |m.body| + 1 < TWO_32
    ensures var head := Head(sum, p, m);
            FromBuff(head) == Header(p, |m.body|, m.number, m.kind, Crc(sum, head[..21] + ZEROS + m.body))
  {
    assert Range(8) == TWO_64 && Range(4) == TWO_32;
    HeadRead(sum, p, m);
    hide *;
  }
}
