/** The bytes of one part of a queue: records one after the other, each a header of 25 bytes and a message. */
module QueueFile {
  type Byte = n: nat | n < 256

  /** The checksum of some bytes; how it is computed does not matter here. */
  type Sum = seq<Byte> -> seq<Byte>

  ghost predicate IsSum(sum: Sum) {
    forall bytes :: |sum(bytes)| == 4
  }

  // ----- little-endian numbers

  function Le(n: nat, k: nat): (bytes: seq<Byte>)
    ensures |bytes| == k
  {
    if k == 0 then [] else [n % 256] + Le(n / 256, k - 1)
  }

  function FromLe(bytes: seq<Byte>): nat {
    if bytes == [] then 0 else bytes[0] + 256 * FromLe(bytes[1..])
  }

  function Range(k: nat): nat {
    if k == 0 then 1 else 256 * Range(k - 1)
  }

  lemma {:induction false} LeRoundTrip(n: nat, k: nat)
    requires n < Range(k)
    ensures FromLe(Le(n, k)) == n
  {
    if k > 0 {
      LeRoundTrip(n / 256, k - 1);
      assert Le(n, k)[1..] == Le(n / 256, k - 1);
    }
  }

  // ----- records

  const HEADER_LENGTH: nat := 25

  datatype Header = Header(startPos: nat, msgLength: nat, countPushed: nat, kind: Byte, crc: seq<Byte>)

  function FromBuff(buff: seq<Byte>): Header
    requires |buff| == HEADER_LENGTH
  {
    Header(FromLe(buff[0..8]), FromLe(buff[8..12]), FromLe(buff[16..20]), buff[20], buff[21..25])
  }

  /** What the pushing side puts in: a magic number, the number of the message, its kind, and its bytes. */
  datatype Message = Message(magic: nat, number: nat, kind: Byte, body: seq<Byte>)

  /** The numbers fit their fields; the reader's buffer of one byte more must still have a 32-bit length. */
  predicate Fits(m: Message) {
    m.magic < 0x1_0000_0000 && m.number < 0x1_0000_0000 && |m.body| + 1 < 0x1_0000_0000
  }

  /** The header without the checksum. */
  function Fields(pos: nat, m: Message): (bytes: seq<Byte>)
    ensures |bytes| == 21
  {
    Le(pos, 8) + Le(|m.body|, 4) + Le(m.magic, 4) + Le(m.number, 4) + [m.kind]
  }

  /** The four bytes of the checksum from last to first. */
  function Crc(sum: Sum, bytes: seq<Byte>): (crc: seq<Byte>)
    requires IsSum(sum)
    ensures |crc| == 4
  {
    var h := sum(bytes);
    [h[3], h[2], h[1], h[0]]
  }

  /** The checksum is taken over the header, its own place zeroed, and the message. */
  function Head(sum: Sum, pos: nat, m: Message): (bytes: seq<Byte>)
    requires IsSum(sum)
    ensures |bytes| == HEADER_LENGTH
  {
    Fields(pos, m) + Crc(sum, Fields(pos, m) + [0, 0, 0, 0] + m.body)
  }

  /** Every record begins with its own position. */
  ghost function FileOf(sum: Sum, messages: seq<Message>): seq<Byte>
    requires IsSum(sum)
  {
    if messages == [] then []
    else
      var before, m := FileOf(sum, messages[..|messages| - 1]), messages[|messages| - 1];
      before + Head(sum, |before|, m) + m.body
  }

  /** Where the k-th record begins: 25 bytes and the message for each one before it. */
  function Start(messages: seq<Message>, k: nat): nat
    requires k <= |messages|
  {
    if k == 0 then 0 else Start(messages, k - 1) + HEADER_LENGTH + |messages[k - 1].body|
  }

  lemma {:induction false} StartOfPrefix(messages: seq<Message>, more: seq<Message>, k: nat)
    requires k <= |messages|
    ensures Start(messages + more, k) == Start(messages, k)
  {
    if k > 0 {
      StartOfPrefix(messages, more, k - 1);
    }
  }

  lemma {:induction false} StartGrows(messages: seq<Message>, i: nat, j: nat)
    requires i <= j <= |messages|
    ensures Start(messages, i) <= Start(messages, j)
  {
    if i < j {
      StartGrows(messages, i, j - 1);
    }
  }

  lemma {:induction false} FileLength(sum: Sum, messages: seq<Message>)
    requires IsSum(sum)
    ensures |FileOf(sum, messages)| == Start(messages, |messages|)
  {
    if messages != [] {
      var k := |messages| - 1;
      FileLength(sum, messages[..k]);
      StartOfPrefix(messages[..k], [messages[k]], k);
      assert messages[..k] + [messages[k]] == messages;
    }
  }

  /** Header and message stand at the position. */
  predicate StandsAt(file: seq<Byte>, p: nat, head: seq<Byte>, body: seq<Byte>) {
    && p + |head| + |body| <= |file|
    && file[p..p + |head|] == head && file[p + |head|..p + |head| + |body|] == body
  }

  lemma StandsStill(file: seq<Byte>, more: seq<Byte>, p: nat, head: seq<Byte>, body: seq<Byte>)
    requires StandsAt(file, p, head, body)
    ensures StandsAt(file + more, p, head, body)
  {
    assert (file + more)[p..p + |head|] == file[p..p + |head|];
    assert (file + more)[p + |head|..p + |head| + |body|] == file[p + |head|..p + |head| + |body|];
  }

  lemma StandsLast(file: seq<Byte>, head: seq<Byte>, body: seq<Byte>)
    ensures StandsAt(file + head + body, |file|, head, body)
    ensures file + (head + body) == file + head + body
  {
  }

  /** The k-th record stands where it begins. */
  lemma {:induction false} RecordAt(sum: Sum, messages: seq<Message>, k: nat)
    requires IsSum(sum) && k < |messages|
    ensures StandsAt(FileOf(sum, messages), Start(messages, k), Head(sum, Start(messages, k), messages[k]), messages[k].body)
  {
    var n := |messages| - 1;
    var before, m := FileOf(sum, messages[..n]), messages[n];
    assert FileOf(sum, messages) == before + Head(sum, |before|, m) + m.body;
    hide *;
    FileLength(sum, messages[..n]);
    assert messages[..n] + [m] == messages;
    StartOfPrefix(messages[..n], [m], n);
    StartOfPrefix(messages[..n], [m], k);
    StandsLast(before, Head(sum, |before|, m), m.body);
    if k < n {
      RecordAt(sum, messages[..n], k);
      StandsStill(before, Head(sum, |before|, m) + m.body, Start(messages, k), Head(sum, Start(messages, k), messages[k]),
                  messages[k].body);
    }
  }

  /** The fields of a header, cut out of it. */
  lemma Slices(a: seq<Byte>, b: seq<Byte>, c: seq<Byte>, d: seq<Byte>, kind: Byte, crc: seq<Byte>)
    requires |a| == 8 && |b| == |c| == |d| == |crc| == 4
    ensures var head := a + b + c + d + [kind] + crc;
            && |head| == HEADER_LENGTH && head[..21] == a + b + c + d + [kind]
            && head[0..8] == a && head[8..12] == b && head[16..20] == d && head[20] == kind && head[21..25] == crc
  {
  }

  /** Reading the header of a record gives its position, its length, and the checksum of the record. */
  lemma HeadRead(sum: Sum, pos: nat, m: Message)
    requires IsSum(sum) && Fits(m) && pos < 0x1_0000_0000_0000_0000
    ensures var head := Head(sum, pos, m);
            && FromBuff(head) == Header(pos, |m.body|, m.number, m.kind, Crc(sum, head[..21] + [0, 0, 0, 0] + m.body))
  {
    hide Le;
    hide FromLe;
    hide Crc;
    hide Range;
    hide IsSum;
    var crc := Crc(sum, Fields(pos, m) + [0, 0, 0, 0] + m.body);
    Slices(Le(pos, 8), Le(|m.body|, 4), Le(m.magic, 4), Le(m.number, 4), m.kind, crc);
    SmallLength(m);
    RangeMeans();
    LeRoundTrip(pos, 8);
    LeRoundTrip(|m.body|, 4);
    LeRoundTrip(m.number, 4);
  }

  lemma SmallLength(m: Message)
    requires Fits(m)
    ensures |m.body| < Range(4) && m.number < Range(4) && m.magic < Range(4)
  {
    RangeMeans();
    hide Range;
  }

  lemma RangeMeans()
    ensures Range(4) == 0x1_0000_0000 && Range(8) == 0x1_0000_0000_0000_0000
  {
    assert Range(1) == 0x100 && Range(2) == 0x1_0000;
    assert Range(4) == 0x1_0000 * Range(2);
    assert Range(6) == 0x1_0000 * Range(4);
  }

  /** The number of four bytes, the low one first. */
  function Four(a: nat, b: nat, c: nat, d: nat): nat {
    a + 0x100 * b + 0x1_0000 * c + 0x100_0000 * d
  }

  lemma FromFour(bytes: seq<Byte>)
    requires |bytes| == 4
    ensures FromLe(bytes) == Four(bytes[0], bytes[1], bytes[2], bytes[3])
  {
    var a: nat, b: nat, c: nat, d: nat := bytes[0], bytes[1], bytes[2], bytes[3];
    assert bytes[1..][1..] == bytes[2..] && bytes[2..][1..] == bytes[3..] && bytes[3..][1..] == [];
    assert FromLe([]) == 0 && FromLe(bytes[3..]) == d && FromLe(bytes[2..]) == c + 0x100 * d;
    assert FromLe(bytes[1..]) == b + 0x100 * (c + 0x100 * d);
  }

  lemma FromEight(bytes: seq<Byte>)
    requires |bytes| == 8
    ensures FromLe(bytes) == FromLe(bytes[..4]) + 0x1_0000_0000 * FromLe(bytes[4..])
  {
    FromSplit(bytes, 4);
    RangeMeans();
    hide FromLe;
    hide Range;
  }

  lemma {:induction false} FromSplit(bytes: seq<Byte>, k: nat)
    requires k <= |bytes|
    ensures FromLe(bytes) == FromLe(bytes[..k]) + Range(k) * FromLe(bytes[k..])
  {
    if k == 0 {
      assert bytes[0..] == bytes && bytes[..0] == [];
    } else {
      FromSplit(bytes[1..], k - 1);
      assert bytes[1..][..k - 1] == bytes[..k][1..] && bytes[1..][k - 1..] == bytes[k..];
      Distributes(FromLe(bytes[..k][1..]), Range(k - 1), FromLe(bytes[k..]));
    }
  }

  lemma Distributes(a: nat, r: nat, b: nat)
    ensures 256 * (a + r * b) == 256 * a + (256 * r) * b
  {
  }

  /**
   The bytes of a header: eight of the position, four of the length, of the magic number and of the number, the low byte
   first; the kind; and the checksum of all this and the message, the high byte first.
   */
  lemma HeadBytes(sum: Sum, pos: nat, m: Message)
    requires IsSum(sum) && Fits(m) && pos < 0x1_0000_0000_0000_0000
    ensures var h := Head(sum, pos, m);
            var s := sum(h[..21] + [0, 0, 0, 0] + m.body);
            && Four(h[0], h[1], h[2], h[3]) + 0x1_0000_0000 * Four(h[4], h[5], h[6], h[7]) == pos
            && Four(h[8], h[9], h[10], h[11]) == |m.body| && Four(h[12], h[13], h[14], h[15]) == m.magic
            && Four(h[16], h[17], h[18], h[19]) == m.number
            && h[20] == m.kind && h[21] == s[3] && h[22] == s[2] && h[23] == s[1] && h[24] == s[0]
  {
    hide Le;
    hide FromLe;
    hide Range;
    var crc := Crc(sum, Fields(pos, m) + [0, 0, 0, 0] + m.body);
    Slices(Le(pos, 8), Le(|m.body|, 4), Le(m.magic, 4), Le(m.number, 4), m.kind, crc);
    SmallLength(m);
    RangeMeans();
    LeRoundTrip(pos, 8);
    LeRoundTrip(|m.body|, 4);
    LeRoundTrip(m.magic, 4);
    LeRoundTrip(m.number, 4);
    FromEight(Le(pos, 8));
    FromFour(Le(pos, 8)[..4]);
    FromFour(Le(pos, 8)[4..]);
    FromFour(Le(|m.body|, 4));
    FromFour(Le(m.magic, 4));
    FromFour(Le(m.number, 4));
  }
}
