/** The text form of rights: two encodings of one right, and records that list rights by id. */
module Formats {
  import opened Access
  import opened Counters
  import opened Letters
  import opened Rights
  import opened Texts
  import opened Wrappers

  predicate IsMarker(c: char) {
    c == IS_EXCLUSIVE || c == IGNORE_EXCLUSIVE
  }

  predicate IsTag(c: char) {
    IsMarker(c) || FlagOf(c).Some?
  }

  /** The marker as it is printed: anything but the two known ones is left out. */
  function Shown(marker: char): string {
    if IsMarker(marker) then [marker] else ""
  }

  /** The marker after the text has been read, when `before` was there. */
  function LastMarker(text: string, before: char): char {
    if text == "" then before
    else if IsMarker(text[|text| - 1]) then text[|text| - 1]
    else LastMarker(text[..|text| - 1], before)
  }

  // ----- decimal numbers

  /** Parsing as a 16-bit number, 1 where that fails; a leading plus is allowed. */
  function ParseCount(val: string): nat {
    var digits := if |val| > 1 && val[0] == '+' then val[1..] else val;
    if digits != "" && AllDigits(digits) && Number(digits) < LIMIT then Number(digits)
    else 1
  }

  // ----- hexadecimal digits and nibbles

  function HexValue(c: char): (v: Option<nat>)
    ensures v.Some? ==> v.value < 16
  {
    if '0' <= c <= '9' then Some(c as int - '0' as int)
    else if 'a' <= c <= 'f' then Some(c as int - 'a' as int + 10)
    else if 'A' <= c <= 'F' then Some(c as int - 'A' as int + 10)
    else None
  }

  function HexDigit(v: nat): char
    requires v < 16
  {
    if v < 10 then ('0' as int + v) as char else ('A' as int + v - 10) as char
  }

  function LowFlags(v: nat): Access {
    (if v % 2 == 1 then {Create} else {}) + (if v / 2 % 2 == 1 then {Read} else {})
    + (if v / 4 % 2 == 1 then {Update} else {}) + (if v / 8 % 2 == 1 then {Delete} else {})
  }

  function HighFlags(v: nat): Access {
    set flag | flag in LowFlags(v) :: Denial(flag)
  }

  function Weigh(one: bool, two: bool, four: bool, eight: bool): (v: nat)
    ensures v < 16
  {
    (if one then 1 else 0) + (if two then 2 else 0) + (if four then 4 else 0) + (if eight then 8 else 0)
  }

  function LowNibble(access: Access): (v: nat)
    ensures v < 16
  {
    Weigh(Create in access, Read in access, Update in access, Delete in access)
  }

  function HighNibble(access: Access): (v: nat)
    ensures v < 16
  {
    Weigh(CantCreate in access, CantRead in access, CantUpdate in access, CantDelete in access)
  }

  /** Upper-case hexadecimal without leading zeros: the high nibble first, if there is one. */
  function Hex(access: Access): string {
    (if HighNibble(access) == 0 then "" else [HexDigit(HighNibble(access))]) + [HexDigit(LowNibble(access))]
  }

  // ----- the first encoding

  /** The hexadecimal digits of the text; anything else is passed over. */
  function HexDigits(text: string): seq<nat> {
    if text == "" then []
    else
      var digits, c := HexDigits(text[..|text| - 1]), text[|text| - 1];
      if !IsMarker(c) && HexValue(c).Some? then digits + [HexValue(c).value] else digits
  }

  /** The part of a 32-bit number that stays in the byte: shifts count modulo 32. */
  function Shifted(v: nat, shift: nat): Access {
    if shift % 32 == 0 then LowFlags(v) else if shift % 32 == 4 then HighFlags(v) else {}
  }

  /** Each digit is taken to be four bits above the one before. */
  function DigitsAccess(digits: seq<nat>): Access {
    if digits == [] then {}
    else DigitsAccess(digits[..|digits| - 1]) + Shifted(digits[|digits| - 1], 4 * (|digits| - 1))
  }

  /** One for every flag. */
  function OneEach(access: Access): Tally {
    map flag: Flag | flag in access :: Letter(flag) := 1
  }

  function ReadV1(value: string, rr: Right, withCount: bool): Right {
    var access := DigitsAccess(HexDigits(value));
    rr.(access := access, marker := LastMarker(value, NO_MARKER),
        counters := if withCount then rr.counters + OneEach(access) else rr.counters)
  }

  method DecodeValueV1(value: string, rr: Right, withCount: bool) returns (r: Right)
    ensures r == ReadV1(value, rr, withCount)
  {
    var access: Access, marker, shift := {}, NO_MARKER, 0;
    for i := 0 to |value|
      invariant shift == 4 * |HexDigits(value[..i])|
      invariant access == DigitsAccess(HexDigits(value[..i])) && marker == LastMarker(value[..i], NO_MARKER)
    {
      var c := value[i];
      assert value[..i + 1][..i] == value[..i];
      if IsMarker(c) {
        marker := c;
      } else {
        var digit := HexValue(c);
        if digit.None? {
          continue;
        }
        access := access + Shifted(digit.value, shift);
        shift := shift + 4;
      }
    }
    assert value[..|value|] == value;
    r := rr.(access := access, marker := marker);
    if withCount {
      var counters := CountOnes(access, rr.counters);
      r := r.(counters := counters);
    }
  }

  method CountOnes(access: Access, counters: Tally) returns (counters': Tally)
    ensures counters' == counters + OneEach(access)
  {
    hide OneEach;
    counters' := counters;
    NothingBelow(access, counters);
    for i := 0 to |FLAGS|
      invariant counters' == counters + OneEach(Below(access, i))
    {
      NextBelow(access, i, counters);
      if FLAGS[i] in access {
        counters' := counters'[Letter(FLAGS[i]) := 1];
      }
    }
    assert access == Below(access, |FLAGS|);
  }

  /** The flags of the access that the loop has met. */
  function Below(access: Access, i: nat): Access {
    set flag | flag in access && Position(flag) < i
  }

  lemma NothingBelow(access: Access, counters: Tally)
    ensures counters + OneEach(Below(access, 0)) == counters
  {
  }

  lemma NextBelow(access: Access, i: nat, counters: Tally)
    requires i < |FLAGS|
    ensures counters + OneEach(Below(access, i + 1))
      == if FLAGS[i] in access then (counters + OneEach(Below(access, i)))[Letter(FLAGS[i]) := 1]
         else counters + OneEach(Below(access, i))
  {
    assert forall f :: Position(f) == i <==> f == FLAGS[i];
    if FLAGS[i] in access {
      assert Below(access, i + 1) == Below(access, i) + {FLAGS[i]};
      OneMoreEach(Below(access, i), FLAGS[i]);
      hide OneEach;
    } else {
      assert Below(access, i + 1) == Below(access, i);
    }
  }

  lemma OneMoreEach(access: Access, flag: Flag)
    ensures OneEach(access + {flag}) == OneEach(access)[Letter(flag) := 1]
  {
    var a, b := OneEach(access + {flag}), OneEach(access)[Letter(flag) := 1];
    forall c ensures c in a <==> c in b {
      if c in b && c != Letter(flag) {
        var f: Flag :| f in access && Letter(f) == c;
      }
    }
    assert a.Keys == b.Keys;
  }

  method EncodeValueV1(right: Right, text: string) returns (text': string)
    ensures text' == text + Hex(right.access) + Shown(right.marker)
  {
    text' := text + Hex(right.access);
    if right.marker == IS_EXCLUSIVE || right.marker == IGNORE_EXCLUSIVE {
      text' := text' + [right.marker];
    }
  }

  // ----- the second encoding: tags, each with the text up to the next one

  datatype Chunk = Chunk(tag: char, val: string)

  /** The text taken apart at its tags; what stands before the first one is lost. */
  function Chunks(text: string): seq<Chunk> {
    if text == "" then []
    else
      var chunks, c := Chunks(text[..|text| - 1]), text[|text| - 1];
      if IsTag(c) then chunks + [Chunk(c, "")]
      else if chunks == [] then []
      else chunks[..|chunks| - 1] + [chunks[|chunks| - 1].(val := chunks[|chunks| - 1].val + [c])]
  }

  function Spell(chunks: seq<Chunk>): string {
    if chunks == [] then ""
    else Spell(chunks[..|chunks| - 1]) + [chunks[|chunks| - 1].tag] + chunks[|chunks| - 1].val
  }

  /** The flags whose letters are among the tags. */
  function TagAccess(chunks: seq<Chunk>): Access {
    set flag: Flag | exists i | 0 <= i < |chunks| :: chunks[i].tag == Letter(flag)
  }

  function TagMarker(chunks: seq<Chunk>, before: char): char {
    if chunks == [] then before
    else if IsMarker(chunks[|chunks| - 1].tag) then chunks[|chunks| - 1].tag
    else TagMarker(chunks[..|chunks| - 1], before)
  }

  /** Every tag with its number, markers included; the last one of a tag counts. */
  function TagCounts(chunks: seq<Chunk>, before: Tally): Tally {
    if chunks == [] then before
    else TagCounts(chunks[..|chunks| - 1], before)[chunks[|chunks| - 1].tag := ParseCount(chunks[|chunks| - 1].val)]
  }

  function ReadV2(value: string, rr: Right, withCount: bool): Right {
    var chunks := Chunks(value);
    rr.(access := TagAccess(chunks), marker := TagMarker(chunks, rr.marker),
        counters := if withCount then TagCounts(chunks, rr.counters) else rr.counters)
  }

  /** What the loop has made of the text so far: the last tag still waits for its number. */
  predicate Reading(
    text: string, rr: Right, withCount: bool, access: Access, marker: char, counters: Tally, tag: Option<char>, val: string)
  {
    var chunks := Chunks(text);
    && access == TagAccess(chunks) && marker == TagMarker(chunks, rr.marker)
    && (tag.None? ==> chunks == [] && counters == rr.counters)
    && (tag.Some? ==> chunks != [] && chunks[|chunks| - 1] == Chunk(tag.value, val)
                      && counters == if withCount then TagCounts(chunks[..|chunks| - 1], rr.counters) else rr.counters)
  }

  lemma ReadsTag(
    text: string, rr: Right, withCount: bool, access: Access, marker: char, counters: Tally, tag: Option<char>, val: string,
    c: char)
    requires Reading(text, rr, withCount, access, marker, counters, tag, val) && IsTag(c)
    ensures Reading(text + [c], rr, withCount,
                    if FlagOf(c).Some? then access + {FlagOf(c).value} else access, if IsMarker(c) then c else marker,
                    if withCount && tag.Some? then counters[tag.value := ParseCount(val)] else counters, Some(c), "")
  {
    var chunks := Chunks(text);
    var longer := chunks + [Chunk(c, "")];
    assert (text + [c])[..|text|] == text && Chunks(text + [c]) == longer;
    TagsMore(chunks, c);
    assert longer[..|longer| - 1] == chunks;
    hide Chunks;
    hide TagAccess;
    hide FlagOf;
    hide ParseCount;
  }

  /** One more tag adds its flag, if it is one. */
  lemma TagsMore(chunks: seq<Chunk>, c: char)
    ensures TagAccess(chunks + [Chunk(c, "")])
      == if FlagOf(c).Some? then TagAccess(chunks) + {FlagOf(c).value} else TagAccess(chunks)
  {
    var longer := chunks + [Chunk(c, "")];
    forall flag: Flag ensures flag in TagAccess(longer) <==> flag in TagAccess(chunks) || Letter(flag) == c {
      if flag in TagAccess(chunks) {
        var i :| 0 <= i < |chunks| && chunks[i].tag == Letter(flag);
        assert longer[i].tag == Letter(flag);
      }
      if Letter(flag) == c {
        assert longer[|chunks|].tag == Letter(flag);
      }
    }
    forall flag: Flag ensures Letter(flag) == c <==> FlagOf(c).Some? && flag == FlagOf(c).value {
      if FlagOf(c).Some? {
        LettersDiffer(flag, FlagOf(c).value);
      }
    }
    hide TagAccess;
    hide FlagOf;
    hide Letter;
  }

  lemma ReadsOther(
    text: string, rr: Right, withCount: bool, access: Access, marker: char, counters: Tally, tag: Option<char>, val: string,
    c: char)
    requires Reading(text, rr, withCount, access, marker, counters, tag, val) && !IsTag(c)
    ensures Reading(text + [c], rr, withCount, access, marker, counters, tag, val + [c])
  {
    hide IsTag;
    hide TagCounts;
    var chunks := Chunks(text);
    assert (text + [c])[..|text|] == text;
    if chunks != [] {
      var n := |chunks| - 1;
      var last := Chunk(chunks[n].tag, chunks[n].val + [c]);
      var longer := chunks[..n] + [last];
      assert Chunks(text + [c]) == longer && longer[..n] == chunks[..n];
      assert forall i | 0 <= i < |chunks| :: longer[i].tag == chunks[i].tag;
      assert TagAccess(longer) == TagAccess(chunks);
    }
  }

  lemma ReadsNothing(rr: Right, withCount: bool)
    ensures Reading("", rr, withCount, {}, rr.marker, rr.counters, None, "")
  {
  }

  lemma ReadsEnd(
    value: string, rr: Right, withCount: bool, access: Access, marker: char, counters: Tally, tag: Option<char>, val: string)
    requires Reading(value, rr, withCount, access, marker, counters, tag, val)
    ensures ReadV2(value, rr, withCount)
      == rr.(access := access, marker := marker,
             counters := if withCount && tag.Some? then counters[tag.value := ParseCount(val)] else counters)
  {
  }

  method DecodeValueV2(value: string, rr: Right, withCount: bool) returns (r: Right)
    ensures r == ReadV2(value, rr, withCount)
  {
    var access: Access, tag: Option<char>, val: string, marker: char := {}, None, "", rr.marker;
    var counters: Tally := rr.counters;
    hide Reading;
    hide Chunks;
    hide TagAccess;
    hide ReadV2;
    hide ParseCount;
    assert value[..0] == "";
    ReadsNothing(rr, withCount);
    for i := 0 to |value|
      invariant Reading(value[..i], rr, withCount, access, marker, counters, tag, val)
    {
      var c := value[i];
      assert value[..i + 1] == value[..i] + [c];
      if IsTag(c) {
        ReadsTag(value[..i], rr, withCount, access, marker, counters, tag, val, c);
        if IsMarker(c) {
          marker := c;
        } else {
          access := access + {FlagOf(c).value};
        }
        if withCount {
          if tag.Some? {
            counters := counters[tag.value := ParseCount(val)];
          }
        }
        tag, val := Some(c), "";
      } else {
        ReadsOther(value[..i], rr, withCount, access, marker, counters, tag, val, c);
        val := val + [c];
      }
    }
    assert value[..|value|] == value;
    ReadsEnd(value, rr, withCount, access, marker, counters, tag, val);
    if withCount {
      if tag.Some? {
        counters := counters[tag.value := ParseCount(val)];
      }
    }
    r := rr.(access := access, marker := marker, counters := counters);
  }

  /** The counters that are printed, in the order in which the map is gone through; 1 is not spelled out. */
  function CountedChunks(counters: Tally, order: seq<char>): seq<Chunk>
    requires forall c :: c in order ==> c in counters
  {
    if order == [] then []
    else
      var c := order[|order| - 1];
      CountedChunks(counters, order[..|order| - 1])
      + if FlagOf(c).Some? && counters[c] > 0 then [Chunk(c, if counters[c] > 1 then Decimal(counters[c]) else "")] else []
  }

  /** The flags with a positive counter. */
  function Positive(counters: Tally): Access {
    set flag: Flag | CountOf(counters, flag) > 0
  }

  /** Bare letters of the flags, in bit order. */
  function BareChunks(access: Access, k: nat): seq<Chunk>
    requires k <= |FLAGS|
  {
    if k == 0 then []
    else BareChunks(access, k - 1) + if FLAGS[k - 1] in access then [Chunk(Letter(FLAGS[k - 1]), "")] else []
  }

  function MarkerChunks(marker: char): seq<Chunk> {
    if IsMarker(marker) then [Chunk(marker, "")] else []
  }

  /** Counted flags first, then the other flags of the access, then the marker. */
  function RightChunks(right: Right, order: seq<char>): seq<Chunk>
    requires forall c :: c in order ==> c in right.counters
  {
    CountedChunks(right.counters, order) + BareChunks(right.access - Positive(right.counters), |FLAGS|)
    + MarkerChunks(right.marker)
  }

  lemma SpellMore(a: seq<Chunk>, tag: char, val: string)
    ensures Spell(a + [Chunk(tag, val)]) == Spell(a) + [tag] + val
  {
    assert (a + [Chunk(tag, val)])[..|a|] == a;
  }

  /** An iteration order of a map: every key once. */
  ghost predicate Enumerates<T(!new)>(order: seq<T>, keys: set<T>) {
    && (forall x :: x in order <==> x in keys)
    && forall i, j | 0 <= i < j < |order| :: order[i] != order[j]
  }

  method EncodeValueV2(right: Right, order: seq<char>, text: string) returns (text': string)
    requires Enumerates(order, right.counters.Keys)
    ensures text' == text + Spell(RightChunks(right, order))
  {
    var counted, setAccess := SpellCounted(right.counters, order);
    var all := SpellBare(right.access, setAccess, counted, CountedChunks(right.counters, order));
    ghost var chunks := CountedChunks(right.counters, order) + BareChunks(right.access - setAccess, |FLAGS|);
    assert chunks + MarkerChunks(right.marker) == RightChunks(right, order);
    assert chunks + [] == chunks;
    if right.marker == IS_EXCLUSIVE || right.marker == IGNORE_EXCLUSIVE {
      SpellMore(chunks, right.marker, "");
      all := all + [right.marker];
    }
    text' := text + all;
  }

  method SpellCounted(counters: Tally, order: seq<char>) returns (text: string, setAccess: Access)
    requires Enumerates(order, counters.Keys)
    ensures text == Spell(CountedChunks(counters, order)) && setAccess == Positive(counters)
  {
    hide Spell;
    hide Decimal;
    text, setAccess := "", {};
    SpellNone();
    assert order[..0] == [];
    for i := 0 to |order|
      invariant text == Spell(CountedChunks(counters, order[..i]))
      invariant forall flag :: flag in setAccess <==> CountOf(counters, flag) > 0 && Letter(flag) in order[..i]
    {
      var tag := order[i];
      CountedMore(counters, order, i);
      if FlagOf(tag).Some? {
        LettersOf(tag);
        var count := counters[tag];
        if count > 0 {
          setAccess := setAccess + {FlagOf(tag).value};
          text := text + [tag];
          if count > 1 {
            text := text + Decimal(count);
          }
        }
      }
      assert order[..i + 1] == order[..i] + [tag];
      hide CountedChunks;
    }
    assert order[..|order|] == order;
  }

  lemma SpellNone()
    ensures Spell([]) == ""
  {
  }

  lemma CountedMore(counters: Tally, order: seq<char>, i: nat)
    requires (forall c :: c in order ==> c in counters) && i < |order|
    ensures forall c :: c in order[..i + 1] ==> c in counters
    ensures Spell(CountedChunks(counters, order[..i + 1]))
      == Spell(CountedChunks(counters, order[..i]))
         + if FlagOf(order[i]).Some? && counters[order[i]] > 0 then
             [order[i]] + if counters[order[i]] > 1 then Decimal(counters[order[i]]) else ""
           else ""
  {
    hide *;
    CountedUnfold(counters, order, i);
    var before := CountedChunks(counters, order[..i]);
    var c := order[i];
    var val := if counters[c] > 1 then Decimal(counters[c]) else "";
    if FlagOf(c).Some? && counters[c] > 0 {
      SpellMore(before, c, val);
      assert Spell(before) + [c] + val == Spell(before) + ([c] + val);
    } else {
      assert Spell(before) + "" == Spell(before);
    }
  }

  lemma CountedUnfold(counters: Tally, order: seq<char>, i: nat)
    requires (forall c :: c in order ==> c in counters) && i < |order|
    ensures forall c :: c in order[..i + 1] ==> c in counters
    ensures forall c :: c in order[..i] ==> c in counters
    ensures CountedChunks(counters, order[..i + 1])
      == if FlagOf(order[i]).Some? && counters[order[i]] > 0 then
           CountedChunks(counters, order[..i])
           + [Chunk(order[i], if counters[order[i]] > 1 then Decimal(counters[order[i]]) else "")]
         else CountedChunks(counters, order[..i])
  {
    hide FlagOf;
    hide Decimal;
    assert order[..i + 1][..i] == order[..i];
    assert CountedChunks(counters, order[..i]) + [] == CountedChunks(counters, order[..i]);
  }

  lemma LettersOf(c: char)
    requires FlagOf(c).Some?
    ensures forall f :: Letter(f) == c <==> f == FlagOf(c).value
  {
  }

  method SpellBare(access: Access, setAccess: Access, before: string, ghost chunks: seq<Chunk>) returns (text: string)
    requires before == Spell(chunks)
    ensures text == Spell(chunks + BareChunks(access - setAccess, |FLAGS|))
  {
    text := before;
    assert chunks + BareChunks(access - setAccess, 0) == chunks;
    for i := 0 to |FLAGS|
      invariant text == Spell(chunks + BareChunks(access - setAccess, i))
    {
      ghost var bare, more := BareChunks(access - setAccess, i), BareChunks(access - setAccess, i + 1);
      if FLAGS[i] in access && FLAGS[i] !in setAccess {
        SpellMore(chunks + bare, Letter(FLAGS[i]), "");
        assert chunks + bare + [Chunk(Letter(FLAGS[i]), "")] == chunks + more;
        text := text + [Letter(FLAGS[i])];
      } else {
        assert bare == more;
      }
    }
  }

  // ----- records: id and value in turn, each followed by a semicolon

  /** The encoding is told by the first character: a letter of a flag starts the second one. */
  function ReadRight(key: string, value: string, withCounter: bool): Right
    requires value != ""
  {
    if FlagOf(value[0]).None? then ReadV1(value, NewRight(key), withCounter) else ReadV2(value, NewRight(key), withCounter)
  }

  /** The rights of the first k pairs; a pair without a value is passed over. */
  function PairRights(tokens: seq<string>, k: nat, withCounter: bool): seq<Right>
    requires 2 * k <= |tokens|
  {
    if k == 0 then []
    else
      PairRights(tokens, k - 1, withCounter)
      + if tokens[2 * (k - 1) + 1] == "" then []
        else [ReadRight(tokens[2 * (k - 1)], tokens[2 * (k - 1) + 1], withCounter)]
  }

  /** What a record text says. */
  function RecordRights(text: string, withCounter: bool): seq<Right> {
    PairRights(Split(text), |Split(text)| / 2, withCounter)
  }

  method DecodeValue(key: string, value: string, withCounter: bool) returns (right: Right)
    requires value != ""
    ensures right == ReadRight(key, value, withCounter)
  {
    if FlagOf(value[0]).None? {
      right := DecodeValueV1(value, NewRight(key), withCounter);
    } else {
      right := DecodeValueV2(value, NewRight(key), withCounter);
    }
  }

  method DecodeIndexRecord(src: string, withCounter: bool) returns (ok: bool, drained: seq<Right>)
    ensures ok <==> src != ""
    ensures drained == RecordRights(src, withCounter)
  {
    hide *;
    RecordOfTokens(src, withCounter);
    drained := [];
    if src == "" {
      return false, [];
    }
    var tokens := Split(src);
    var idx := 0;
    ghost var k := 0;
    while idx < |tokens|
      invariant idx == 2 * k <= |tokens| && drained == PairRights(tokens, k, withCounter)
      decreases |tokens| - idx
    {
      if idx + 1 < |tokens| {
        var key, value := tokens[idx], tokens[idx + 1];
        PairRightsMore(tokens, k, withCounter);
        if value != "" {
          var right := DecodeValue(key, value, withCounter);
          drained := drained + [right];
        }
      } else {
        break;
      }
      idx, k := idx + 2, k + 1;
    }
    assert k == |tokens| / 2;
    ok := true;
  }

  lemma RecordOfTokens(text: string, withCounter: bool)
    ensures RecordRights(text, withCounter) == PairRights(Split(text), |Split(text)| / 2, withCounter)
    ensures PairRights(Split(text), 0, withCounter) == [] && RecordRights("", withCounter) == []
  {
  }

  lemma PairRightsMore(tokens: seq<string>, k: nat, withCounter: bool)
    requires 2 * k + 1 < |tokens|
    ensures PairRights(tokens, k + 1, withCounter)
      == if tokens[2 * k + 1] == "" then PairRights(tokens, k, withCounter)
         else PairRights(tokens, k, withCounter) + [ReadRight(tokens[2 * k], tokens[2 * k + 1], withCounter)]
  {
    hide ReadRight;
    var before := PairRights(tokens, k, withCounter);
    assert before + [] == before;
  }

  /** The rights by id; the last one of an id counts. */
  function ById(rights: seq<Right>, before: map<string, Right>): map<string, Right> {
    if rights == [] then before
    else ById(rights[..|rights| - 1], before)[rights[|rights| - 1].id := rights[|rights| - 1]]
  }

  method DecodeRecToRights(src: string, result: seq<Right>) returns (ok: bool, result': seq<Right>)
    ensures (ok <==> src != "") && result' == result + RecordRights(src, false)
  {
    var drained;
    ok, drained := DecodeIndexRecord(src, false);
    result' := result + drained;
  }

  method DecodeRecToRightset(src: string, rights: map<string, Right>) returns (ok: bool, rights': map<string, Right>)
    ensures (ok <==> src != "") && rights' == ById(RecordRights(src, true), rights)
  {
    hide *;
    var drained;
    ok, drained := DecodeIndexRecord(src, true);
    rights' := rights;
    ById0(rights);
    assert drained[..0] == [];
    for i := 0 to |drained|
      invariant rights' == ById(drained[..i], rights)
    {
      ByIdMore(drained, i, rights);
      rights' := rights'[drained[i].id := drained[i]];
    }
    assert drained[..|drained|] == drained;
  }

  lemma ById0(before: map<string, Right>)
    ensures ById([], before) == before
  {
  }

  lemma ByIdMore(rights: seq<Right>, i: nat, before: map<string, Right>)
    requires i < |rights|
    ensures ById(rights[..i + 1], before) == ById(rights[..i], before)[rights[i].id := rights[i]]
  {
    assert rights[..i + 1][..i] == rights[..i];
  }

  /** The counters added up in 16 bits. */
  function CounterSum(counters: Tally, order: seq<char>): nat
    requires forall c :: c in order ==> c in counters
  {
    if order == [] then 0
    else (CounterSum(counters, order[..|order| - 1]) + counters[order[|order| - 1]]) % LIMIT
  }

  method SumCounters(counters: Tally, order: seq<char>) returns (sum: nat)
    requires forall c :: c in order ==> c in counters
    ensures sum == CounterSum(counters, order)
  {
    sum := 0;
    for i := 0 to |order|
      invariant sum == CounterSum(counters, order[..i])
    {
      assert order[..i + 1][..i] == order[..i];
      sum := (sum + counters[order[i]]) % LIMIT;
    }
    assert order[..|order|] == order;
  }

  /** The second encoding is for rights that are granted more than once. */
  predicate UsesV2(right: Right, order: seq<char>, version: nat)
    requires forall c :: c in order ==> c in right.counters
  {
    !(CounterSum(right.counters, order) < 2 || version == 1)
  }

  function ValueText(right: Right, order: seq<char>, version: nat): string
    requires forall c :: c in order ==> c in right.counters
  {
    if UsesV2(right, order, version) then Spell(RightChunks(right, order)) else Hex(right.access) + Shown(right.marker)
  }

  /** In which order the rights are gone through, and the counters of each. */
  ghost predicate Orders(rights: map<string, Right>, order: seq<string>, counterOrder: map<string, seq<char>>) {
    && Enumerates(order, rights.Keys) && rights.Keys <= counterOrder.Keys
    && forall key :: key in rights ==> Enumerates(counterOrder[key], rights[key].counters.Keys)
  }

  ghost function RightsText(
    rights: map<string, Right>, order: seq<string>, counterOrder: map<string, seq<char>>, version: nat, k: nat): string
    requires Orders(rights, order, counterOrder) && k <= |order|
  {
    if k == 0 then ""
    else
      var right := rights[order[k - 1]];
      RightsText(rights, order, counterOrder, version, k - 1)
      + if right.isDeleted then "" else right.id + ";" + ValueText(right, counterOrder[order[k - 1]], version) + ";"
  }

  method EncodeRightset(
    rights: map<string, Right>, order: seq<string>, counterOrder: map<string, seq<char>>, version: nat)
    returns (text: string)
    requires Orders(rights, order, counterOrder)
    ensures text == RightsText(rights, order, counterOrder, version, |order|)
  {
    hide ValueText;
    text := "";
    for i := 0 to |order|
      invariant text == RightsText(rights, order, counterOrder, version, i)
    {
      var right, counters := rights[order[i]], counterOrder[order[i]];
      if !right.isDeleted {
        text := EncodeRight(right, counters, version, text);
      }
    }
  }

  method EncodeRight(right: Right, order: seq<char>, version: nat, before: string) returns (text: string)
    requires Enumerates(order, right.counters.Keys)
    ensures text == before + (right.id + ";" + ValueText(right, order, version) + ";")
  {
    text := before + right.id;
    text := text + ";";
    var sum := SumCounters(right.counters, order);
    if sum < 2 || version == 1 {
      text := EncodeValueV1(right, text);
    } else {
      text := EncodeValueV2(right, order, text);
    }
    text := text + ";";
  }
}
