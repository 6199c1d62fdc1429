/** What is left of a right that is written and read again. */
module FormatsRoundTrip {
  import opened Access
  import opened Counters
  import opened Formats
  import opened Letters
  import opened Rights
  import opened Texts
  import opened Wrappers

  // ----- numbers

  lemma ParseDecimal(n: nat)
    requires n < LIMIT
    ensures ParseCount(Decimal(n)) == n && ParseCount("") == 1
  {
    DecimalNumber(n);
    assert !IsDigit('+');
  }

  // ----- the second encoding: taking apart undoes spelling

  predicate Plain(val: string) {
    forall i | 0 <= i < |val| :: !IsTag(val[i]) && val[i] != ';'
  }

  predicate WellTagged(chunks: seq<Chunk>) {
    forall i | 0 <= i < |chunks| :: IsTag(chunks[i].tag) && Plain(chunks[i].val)
  }

  lemma ChunksNext(text: string, c: char)
    ensures Chunks(text + [c]) ==
      var chunks := Chunks(text);
      if IsTag(c) then chunks + [Chunk(c, "")]
      else if chunks == [] then []
      else chunks[..|chunks| - 1] + [chunks[|chunks| - 1].(val := chunks[|chunks| - 1].val + [c])]
  {
    hide IsTag;
    assert (text + [c])[..|text|] == text;
  }

  lemma {:induction false} ChunksOneMore(text: string, tag: char, val: string)
    requires IsTag(tag) && Plain(val)
    ensures Chunks(text + [tag] + val) == Chunks(text) + [Chunk(tag, val)]
  {
    hide IsTag;
    hide Chunks;
    if val == "" {
      assert text + [tag] + "" == text + [tag];
      ChunksNext(text, tag);
    } else {
      var k := |val| - 1;
      ChunksOneMore(text, tag, val[..k]);
      ChunksNext(text + [tag] + val[..k], val[k]);
      assert text + [tag] + val == text + [tag] + val[..k] + [val[k]];
      Longer(Chunks(text), Chunk(tag, val[..k]), val[k]);
      assert val[..k] + [val[k]] == val;
    }
  }

  lemma Longer(chunks: seq<Chunk>, last: Chunk, c: char)
    ensures var all := chunks + [last];
            all[..|all| - 1] + [all[|all| - 1].(val := all[|all| - 1].val + [c])] == chunks + [Chunk(last.tag, last.val + [c])]
  {
  }

  lemma {:induction false} ChunksSpell(chunks: seq<Chunk>)
    requires WellTagged(chunks)
    ensures Chunks(Spell(chunks)) == chunks
  {
    hide IsTag;
    hide Plain;
    if chunks != [] {
      var k := |chunks| - 1;
      ChunksSpell(chunks[..k]);
      ChunksOneMore(Spell(chunks[..k]), chunks[k].tag, chunks[k].val);
      assert chunks[..k] + [chunks[k]] == chunks;
    }
  }

  predicate HasTag(chunks: seq<Chunk>, c: char) {
    exists i | 0 <= i < |chunks| :: chunks[i].tag == c
  }

  lemma HasTagConcat(a: seq<Chunk>, b: seq<Chunk>, c: char)
    ensures HasTag(a + b, c) <==> HasTag(a, c) || HasTag(b, c)
  {
    if HasTag(a, c) {
      var i :| 0 <= i < |a| && a[i].tag == c;
      assert (a + b)[i].tag == c;
    }
    if HasTag(b, c) {
      var i :| 0 <= i < |b| && b[i].tag == c;
      assert (a + b)[|a| + i].tag == c;
    }
  }

  lemma {:induction false} CountsConcat(a: seq<Chunk>, b: seq<Chunk>, before: Tally)
    ensures TagCounts(a + b, before) == TagCounts(b, TagCounts(a, before))
  {
    if b == [] {
      assert a + b == a;
    } else {
      assert (a + b)[..|a + b| - 1] == a + b[..|b| - 1];
      CountsConcat(a, b[..|b| - 1], before);
    }
  }

  /** What reading finds out about one flag: whether its letter is there, and its counter afterwards. */
  predicate Reads(chunks: seq<Chunk>, before: Tally, flag: Flag, has: bool, count: nat) {
    && WellTagged(chunks) && (forall i | 0 <= i < |chunks| :: !IsMarker(chunks[i].tag))
    && (HasTag(chunks, Letter(flag)) <==> has) && CountOf(TagCounts(chunks, before), flag) == count
  }

  lemma ReadsNone(before: Tally, flag: Flag)
    ensures Reads([], before, flag, false, CountOf(before, flag))
  {
  }

  lemma CountsMore(chunks: seq<Chunk>, before: Tally, tag: char, val: string)
    ensures TagCounts(chunks + [Chunk(tag, val)], before) == TagCounts(chunks, before)[tag := ParseCount(val)]
  {
    assert (chunks + [Chunk(tag, val)])[..|chunks|] == chunks;
    hide ParseCount;
  }

  lemma TagsMore(chunks: seq<Chunk>, tag: char, val: string, flag: Flag)
    requires WellTagged(chunks) && (forall i | 0 <= i < |chunks| :: !IsMarker(chunks[i].tag))
    requires FlagOf(tag).Some? && Plain(val)
    ensures var more := chunks + [Chunk(tag, val)];
            && WellTagged(more) && (forall i | 0 <= i < |more| :: !IsMarker(more[i].tag))
            && (HasTag(more, Letter(flag)) <==> HasTag(chunks, Letter(flag)) || tag == Letter(flag))
  {
    assert IsTag(tag) && !IsMarker(tag);
    hide IsTag;
    hide IsMarker;
    hide FlagOf;
    hide Letter;
    hide Plain;
    HasTagConcat(chunks, [Chunk(tag, val)], Letter(flag));
    assert HasTag([Chunk(tag, val)], Letter(flag)) <==> Letter(flag) == tag by {
      assert [Chunk(tag, val)][0].tag == tag;
    }
    hide HasTag;
  }

  lemma ReadsOneMore(
    chunks: seq<Chunk>, before: Tally, flag: Flag, has: bool, count: nat, tag: char, val: string, number: nat)
    requires Reads(chunks, before, flag, has, count)
    requires FlagOf(tag).Some? && Plain(val) && ParseCount(val) == number
    ensures Reads(chunks + [Chunk(tag, val)], before, flag, has || tag == Letter(flag),
                  if tag == Letter(flag) then number else count)
  {
    hide ParseCount;
    hide WellTagged;
    hide HasTag;
    hide IsMarker;
    hide FlagOf;
    hide Letter;
    TagsMore(chunks, tag, val, flag);
    CountsMore(chunks, before, tag, val);
    hide TagCounts;
  }

  /** The counted letters: which there are, and what is read back for them. */
  lemma {:induction false} Counted(counters: Tally, order: seq<char>, flag: Flag)
    requires InRange(counters) && forall c :: c in order ==> c in counters
    ensures Reads(CountedChunks(counters, order), map[], flag, Letter(flag) in order && CountOf(counters, flag) > 0,
                  if Letter(flag) in order then CountOf(counters, flag) else 0)
  {
    hide Letter;
    hide FlagOf;
    hide Reads;
    hide Decimal;
    hide ParseCount;
    hide Plain;
    if order == [] {
      ReadsNone(map[], flag);
    } else {
      var k := |order| - 1;
      var c := order[k];
      Counted(counters, order[..k], flag);
      LetterHere(order, Letter(flag));
      var before := CountedChunks(counters, order[..k]);
      assert before + [] == before;
      if FlagOf(c).Some? && counters[c] > 0 {
        PrintedCount(counters[c]);
        ReadsOneMore(before, map[], flag, Letter(flag) in order[..k] && CountOf(counters, flag) > 0,
                     if Letter(flag) in order[..k] then CountOf(counters, flag) else 0,
                     c, if counters[c] > 1 then Decimal(counters[c]) else "", counters[c]);
      }
    }
  }

  lemma LetterHere(order: seq<char>, c: char)
    requires order != []
    ensures c in order <==> c in order[..|order| - 1] || c == order[|order| - 1]
  {
    assert order == order[..|order| - 1] + [order[|order| - 1]];
  }

  lemma PrintedCount(n: nat)
    requires 0 < n < LIMIT
    ensures Plain(Decimal(n)) && ParseCount(Decimal(n)) == n && Plain("") && ParseCount("") == 1
  {
    DecimalNumber(n);
    ParseDecimal(n);
    DigitsArePlain(Decimal(n));
    hide *;
  }

  lemma DigitsArePlain(digits: string)
    requires AllDigits(digits)
    ensures Plain(digits) && Plain("")
  {
    forall i | 0 <= i < |digits| ensures !IsTag(digits[i]) && digits[i] != ';' {
      assert IsDigit(digits[i]);
    }
  }

  lemma {:induction false} Bare(access: Access, k: nat, before: Tally, flag: Flag)
    requires k <= |FLAGS|
    ensures Reads(BareChunks(access, k), before, flag, flag in access && Position(flag) < k,
                  if flag in access && Position(flag) < k then 1 else CountOf(before, flag))
  {
    hide Letter;
    hide FlagOf;
    hide Reads;
    hide ParseCount;
    hide CountOf;
    if k == 0 {
      ReadsNone(before, flag);
    } else {
      Bare(access, k - 1, before, flag);
      var less, f := BareChunks(access, k - 1), FLAGS[k - 1];
      assert Position(flag) == k - 1 <==> flag == f;
      LettersDiffer(flag, f);
      LettersDiffer(f, f);
      assert less + [] == less;
      ParseDecimal(0);
      if f in access {
        ReadsOneMore(less, before, flag, flag in access && Position(flag) < k - 1,
                     if flag in access && Position(flag) < k - 1 then 1 else CountOf(before, flag), Letter(f), "", 1);
      }
    }
  }

  // ----- one right, written and read

  /** The second encoding keeps id, marker and every counter of an access flag, and reads flags without a counter as counted once. */
  predicate KeptV2(right: Right, read: Right, withCounter: bool) {
    && read.id == right.id && read.marker == (if IsMarker(right.marker) then right.marker else NO_MARKER)
    && read.access == right.access + Positive(right.counters)
    && !read.isDeleted
    && (withCounter ==> forall flag: Flag :: CountOf(read.counters, flag) == CountKept(right, flag))
  }

  function CountKept(right: Right, flag: Flag): nat {
    if CountOf(right.counters, flag) > 0 then CountOf(right.counters, flag) else if flag in right.access then 1 else 0
  }

  function Opposite(flag: Flag): Flag {
    match flag
    case Create => CantCreate
    case Read => CantRead
    case Update => CantUpdate
    case Delete => CantDelete
    case CantCreate => Create
    case CantRead => Read
    case CantUpdate => Update
    case CantDelete => Delete
  }

  /** The two nibbles change places: permissions become prohibitions. */
  function Swapped(access: Access): Access {
    set flag: Flag | Opposite(flag) in access
  }

  /** The first encoding keeps id and marker, counts every flag once, and swaps the nibbles of a byte above 15. */
  predicate KeptV1(right: Right, read: Right, withCounter: bool) {
    && read.id == right.id && read.marker == (if IsMarker(right.marker) then right.marker else NO_MARKER)
    && read.access == (if HasDenials(right.access) then Swapped(right.access) else right.access)
    && !read.isDeleted
    && (withCounter ==> forall flag: Flag :: CountOf(read.counters, flag) == if flag in read.access then 1 else 0)
  }

  lemma RightChunksRead(right: Right, order: seq<char>, flag: Flag)
    requires Enumerates(order, right.counters.Keys) && InRange(right.counters)
    ensures var chunks := RightChunks(right, order);
            && WellTagged(chunks)
            && (HasTag(chunks, Letter(flag)) <==> flag in right.access || CountOf(right.counters, flag) > 0)
            && CountOf(TagCounts(chunks, map[]), flag)
               == CountKept(right, flag)
            && TagMarker(chunks, NO_MARKER) == (if IsMarker(right.marker) then right.marker else NO_MARKER)
  {
    var counted, rest := CountedChunks(right.counters, order), right.access - Positive(right.counters);
    var bare := BareChunks(rest, |FLAGS|);
    var n := CountOf(right.counters, flag);
    assert Letter(flag) in right.counters <==> Letter(flag) in order;
    Counted(right.counters, order, flag);
    Bare(rest, |FLAGS|, TagCounts(counted, map[]), flag);
    hide CountedChunks;
    hide BareChunks;
    hide Reads;
    hide TagCounts;
    ReadsConcat(counted, bare, map[], flag, n > 0, n, flag in rest, if flag in rest then 1 else n);
    ReadsMarker(counted + bare, flag, n > 0 || flag in rest, if flag in rest then 1 else n, right.marker);
  }

  lemma ReadsConcat(
    a: seq<Chunk>, b: seq<Chunk>, before: Tally, flag: Flag, hasA: bool, countA: nat, hasB: bool, countB: nat)
    requires Reads(a, before, flag, hasA, countA) && Reads(b, TagCounts(a, before), flag, hasB, countB)
    ensures Reads(a + b, before, flag, hasA || hasB, countB)
  {
    CountsConcat(a, b, before);
    HasTagConcat(a, b, Letter(flag));
  }

  lemma ReadsMarker(chunks: seq<Chunk>, flag: Flag, has: bool, count: nat, marker: char)
    requires Reads(chunks, map[], flag, has, count)
    ensures var all := chunks + MarkerChunks(marker);
            && WellTagged(all) && (HasTag(all, Letter(flag)) <==> has)
            && CountOf(TagCounts(all, map[]), flag) == count
            && TagMarker(all, NO_MARKER) == (if IsMarker(marker) then marker else NO_MARKER)
  {
    if IsMarker(marker) {
      var one := Chunk(marker, "");
      assert (chunks + [one])[..|chunks|] == chunks;
      HasTagConcat(chunks, [one], Letter(flag));
    } else {
      assert chunks + [] == chunks;
      NoMarkers(chunks, NO_MARKER);
    }
  }

  lemma {:induction false} NoMarkers(chunks: seq<Chunk>, before: char)
    requires forall i | 0 <= i < |chunks| :: !IsMarker(chunks[i].tag)
    ensures TagMarker(chunks, before) == before
  {
    if chunks != [] {
      NoMarkers(chunks[..|chunks| - 1], before);
    }
  }

  lemma {:induction false} SpellFirst(chunks: seq<Chunk>)
    requires chunks != []
    ensures Spell(chunks) != "" && Spell(chunks)[0] == chunks[0].tag
  {
    if |chunks| > 1 {
      SpellFirst(chunks[..|chunks| - 1]);
    }
  }

  /** Neither a flag nor a marker is left to print: such a right is lost when it is read. */
  predicate Blank(right: Right) {
    right.access == {} && Positive(right.counters) == {} && !IsMarker(right.marker)
  }

  lemma BlankText(right: Right, order: seq<char>)
    requires Enumerates(order, right.counters.Keys) && InRange(right.counters)
    ensures var chunks := RightChunks(right, order);
            && (chunks == [] <==> Blank(right)) && (chunks == [] <==> Spell(chunks) == "")
            && WellTagged(chunks)
  {
    var chunks := RightChunks(right, order);
    RightChunksRead(right, order, Create);
    if chunks == [] {
      forall flag: Flag ensures flag !in right.access && flag !in Positive(right.counters) {
        RightChunksRead(right, order, flag);
      }
    } else {
      SpellFirst(chunks);
      if FlagOf(chunks[0].tag).Some? {
        RightChunksRead(right, order, FlagOf(chunks[0].tag).value);
        assert HasTag(chunks, chunks[0].tag);
        assert FlagOf(chunks[0].tag).value in right.access + Positive(right.counters);
      } else {
        MarkerAlone(right, order);
      }
    }
  }

  /** The text starts with a marker only if there is nothing else. */
  lemma MarkerAlone(right: Right, order: seq<char>)
    requires Enumerates(order, right.counters.Keys) && InRange(right.counters)
    requires var chunks := RightChunks(right, order); chunks != [] && FlagOf(chunks[0].tag).None? && WellTagged(chunks)
    ensures IsMarker(right.marker) && RightChunks(right, order) == [Chunk(right.marker, "")]
  {
    Counted(right.counters, order, Create);
    Bare(right.access - Positive(right.counters), |FLAGS|, map[], Create);
    hide CountedChunks;
    hide BareChunks;
  }

  lemma ReadBackV2(right: Right, order: seq<char>, withCounter: bool)
    requires Enumerates(order, right.counters.Keys) && InRange(right.counters) && !Blank(right)
    ensures var value := Spell(RightChunks(right, order));
            value != "" && KeptV2(right, ReadRight(right.id, value, withCounter), withCounter)
  {
    var chunks := RightChunks(right, order);
    BlankText(right, order);
    if FlagOf(chunks[0].tag).None? {
      StartsWithMarker(right, order, withCounter);
    } else {
      StartsWithLetter(right, order, withCounter);
    }
  }

  lemma StartsWithMarker(right: Right, order: seq<char>, withCounter: bool)
    requires Enumerates(order, right.counters.Keys) && InRange(right.counters)
    requires var chunks := RightChunks(right, order); chunks != [] && FlagOf(chunks[0].tag).None? && WellTagged(chunks)
    ensures KeptV2(right, ReadRight(right.id, Spell(RightChunks(right, order)), withCounter), withCounter)
  {
    LettersRead(right, order);
    MarkerAlone(right, order);
    MarkerText(right.marker, right.id, withCounter);
    MarkerCounts(right.marker);
    hide *;
    MarkerKept(right, [Chunk(right.marker, "")], withCounter);
  }

  lemma StartsWithLetter(right: Right, order: seq<char>, withCounter: bool)
    requires Enumerates(order, right.counters.Keys) && InRange(right.counters)
    requires var chunks := RightChunks(right, order); chunks != [] && FlagOf(chunks[0].tag).Some? && WellTagged(chunks)
    ensures KeptV2(right, ReadRight(right.id, Spell(RightChunks(right, order)), withCounter), withCounter)
  {
    var chunks := RightChunks(right, order);
    SpellFirst(chunks);
    LettersRead(right, order);
    RightChunksRead(right, order, Create);
    ChunksSpell(chunks);
    hide *;
    LetterKept(right, chunks, withCounter);
  }

  lemma LetterKept(right: Right, chunks: seq<Chunk>, withCounter: bool)
    requires Spell(chunks) != "" && FlagOf(Spell(chunks)[0]).Some? && Chunks(Spell(chunks)) == chunks
    requires TagAccess(chunks) == right.access + Positive(right.counters)
    requires TagMarker(chunks, NO_MARKER) == (if IsMarker(right.marker) then right.marker else NO_MARKER)
    requires forall flag: Flag :: CountOf(TagCounts(chunks, map[]), flag) == CountKept(right, flag)
    ensures KeptV2(right, ReadRight(right.id, Spell(chunks), withCounter), withCounter)
  {
    hide Spell;
    hide Chunks;
    hide TagAccess;
    hide TagCounts;
    hide TagMarker;
    hide CountOf;
    hide CountKept;
    hide Positive;
    hide ReadV1;
    hide FlagOf;
  }

  lemma MarkerKept(right: Right, chunks: seq<Chunk>, withCounter: bool)
    requires IsMarker(right.marker) && chunks == [Chunk(right.marker, "")] && Spell(chunks) == [right.marker]
    requires right.access + Positive(right.counters) == {}
    requires forall flag: Flag :: CountKept(right, flag) == 0
    requires var r := ReadV1([right.marker], NewRight(right.id), withCounter);
             r == NewRight(right.id).(access := {}, marker := right.marker, counters := r.counters) && r.counters == map[]
    ensures KeptV2(right, ReadRight(right.id, Spell(chunks), withCounter), withCounter)
  {
    hide Spell;
    hide CountKept;
    hide Positive;
    hide ReadV1;
    hide ReadV2;
  }

  lemma MarkerCounts(marker: char)
    requires IsMarker(marker)
    ensures var chunks := [Chunk(marker, "")];
            TagAccess(chunks) == {} && forall flag: Flag :: CountOf(TagCounts(chunks, map[]), flag) == 0
  {
    assert [Chunk(marker, "")][..0] == [];
  }

  lemma LettersRead(right: Right, order: seq<char>)
    requires Enumerates(order, right.counters.Keys) && InRange(right.counters)
    ensures var chunks := RightChunks(right, order);
            && TagAccess(chunks) == right.access + Positive(right.counters)
            && forall flag: Flag :: CountOf(TagCounts(chunks, map[]), flag) == CountKept(right, flag)
  {
    var chunks := RightChunks(right, order);
    forall flag: Flag
      ensures HasTag(chunks, Letter(flag)) <==> flag in right.access || CountOf(right.counters, flag) > 0
      ensures CountOf(TagCounts(chunks, map[]), flag) == CountKept(right, flag)
    {
      RightChunksRead(right, order, flag);
    }
    hide RightChunks;
    hide TagCounts;
  }

  lemma MarkerText(marker: char, id: string, withCounter: bool)
    requires IsMarker(marker)
    ensures Spell([Chunk(marker, "")]) == [marker]
    ensures var r := ReadV1([marker], NewRight(id), withCounter);
            r == NewRight(id).(access := {}, marker := marker, counters := r.counters) && r.counters == map[]
  {
    assert [marker][..0] == "";
    assert HexDigits([marker]) == [];
  }

  // ----- the first encoding

  lemma DigitRoundTrip(v: nat)
    requires v < 16
    ensures var c := HexDigit(v); HexValue(c).Some? && HexValue(c).value == v && !IsTag(c) && c != ';'
  {
  }

  lemma NibbleFlags(one: bool, two: bool, four: bool, eight: bool, flag: Flag)
    ensures flag in LowFlags(Weigh(one, two, four, eight)) <==>
      (flag == Create && one) || (flag == Read && two) || (flag == Update && four) || (flag == Delete && eight)
  {
  }

  lemma LowKept(access: Access)
    ensures HighNibble(access) == 0 <==> !HasDenials(access)
    ensures LowFlags(LowNibble(access)) == access * FULL
  {
    WeighZero(CantCreate in access, CantRead in access, CantUpdate in access, CantDelete in access);
    assert HighNibble(access) == 0 <==> !HasDenials(access) by {
      forall flag | flag in access ensures flag in FULL || HighNibble(access) != 0 {
        FlagCases(flag);
      }
    }
    hide HighNibble;
    hide HasDenials;
    forall flag: Flag ensures flag in LowFlags(LowNibble(access)) <==> flag in access * FULL {
      NibbleFlags(Create in access, Read in access, Update in access, Delete in access, flag);
      hide LowFlags;
      hide Weigh;
    }
  }

  /** Decoding takes the first digit, the high nibble, for the low one. */
  lemma DigitsSwap(access: Access)
    ensures LowFlags(HighNibble(access)) + HighFlags(LowNibble(access)) == Swapped(access)
  {
    forall flag: Flag
      ensures flag in LowFlags(HighNibble(access)) + HighFlags(LowNibble(access)) <==> Opposite(flag) in access
    {
      NibbleFlags(CantCreate in access, CantRead in access, CantUpdate in access, CantDelete in access, flag);
      LowKept(access);
      DenialsOf(LowNibble(access));
      hide LowFlags;
      hide HighFlags;
      hide Weigh;
      hide LowNibble;
      hide HasDenials;
    }
    hide HighFlags;
    hide LowFlags;
  }

  lemma FlagCases(flag: Flag)
    ensures flag in FULL || flag == CantCreate || flag == CantRead || flag == CantUpdate || flag == CantDelete
  {
  }

  lemma WeighZero(one: bool, two: bool, four: bool, eight: bool)
    ensures Weigh(one, two, four, eight) == 0 <==> !one && !two && !four && !eight
  {
  }

  lemma DenialsOf(v: nat)
    ensures forall flag: Flag :: flag in HighFlags(v) <==> flag !in FULL && Opposite(flag) in LowFlags(v)
  {
    hide LowFlags;
    forall flag: Flag | flag !in FULL && Opposite(flag) in LowFlags(v) ensures flag in HighFlags(v) {
      assert Denial(Opposite(flag)) == flag;
    }
    LowFlagsLow(v);
  }

  lemma LowFlagsLow(v: nat)
    ensures LowFlags(v) <= FULL
  {
  }

  lemma HexDigitsMore(text: string, c: char)
    ensures HexDigits(text + [c])
      == if !IsMarker(c) && HexValue(c).Some? then HexDigits(text) + [HexValue(c).value] else HexDigits(text)
    ensures LastMarker(text + [c], NO_MARKER) == if IsMarker(c) then c else LastMarker(text, NO_MARKER)
  {
    assert (text + [c])[..|text|] == text;
  }

  lemma HexRead(access: Access)
    ensures DigitsAccess(HexDigits(Hex(access))) == if HasDenials(access) then Swapped(access) else access
    ensures LastMarker(Hex(access), NO_MARKER) == NO_MARKER
  {
    var lo, hi := LowNibble(access), HighNibble(access);
    DigitRoundTrip(lo);
    DigitRoundTrip(hi);
    DigitsSwap(access);
    LowKept(access);
    if hi == 0 {
      HexDigitsMore("", HexDigit(lo));
      assert "" + [HexDigit(lo)] == Hex(access);
      OneDigit(lo);
    } else {
      HexDigitsMore("", HexDigit(hi));
      assert "" + [HexDigit(hi)] == [HexDigit(hi)];
      HexDigitsMore([HexDigit(hi)], HexDigit(lo));
      TwoDigits(hi, lo);
    }
  }

  lemma OneDigit(lo: nat)
    ensures DigitsAccess([lo]) == LowFlags(lo)
  {
    assert [lo][..0] == [];
  }

  lemma TwoDigits(hi: nat, lo: nat)
    ensures DigitsAccess([hi, lo]) == LowFlags(hi) + HighFlags(lo)
  {
    OneDigit(hi);
    assert [hi, lo][..1] == [hi];
  }

  lemma ReadBackV1(right: Right, withCounter: bool)
    ensures var value := Hex(right.access) + Shown(right.marker);
            value != "" && KeptV1(right, ReadRight(right.id, value, withCounter), withCounter)
  {
    var value := Hex(right.access) + Shown(right.marker);
    HexFirst(right.access);
    HexShownRead(right.access, right.marker);
    OnesCounted(DigitsAccess(HexDigits(value)));
    hide *;
    V1Kept(right, value, withCounter);
  }

  lemma HexFirst(access: Access)
    ensures Hex(access) != "" && FlagOf(Hex(access)[0]).None? && NoSemicolon(Hex(access))
  {
    DigitRoundTrip(HighNibble(access));
    DigitRoundTrip(LowNibble(access));
  }

  lemma HexShownRead(access: Access, marker: char)
    ensures var value := Hex(access) + Shown(marker);
            && DigitsAccess(HexDigits(value)) == (if HasDenials(access) then Swapped(access) else access)
            && LastMarker(value, NO_MARKER) == if IsMarker(marker) then marker else NO_MARKER
  {
    HexRead(access);
    HexDigitsMore(Hex(access), marker);
    if !IsMarker(marker) {
      assert Hex(access) + Shown(marker) == Hex(access);
    }
  }

  lemma V1Kept(right: Right, value: string, withCounter: bool)
    requires value != "" && FlagOf(value[0]).None?
    requires DigitsAccess(HexDigits(value)) == if HasDenials(right.access) then Swapped(right.access) else right.access
    requires LastMarker(value, NO_MARKER) == if IsMarker(right.marker) then right.marker else NO_MARKER
    requires forall flag: Flag ::
      CountOf(map[] + OneEach(DigitsAccess(HexDigits(value))), flag) == if flag in DigitsAccess(HexDigits(value)) then 1 else 0
    ensures KeptV1(right, ReadRight(right.id, value, withCounter), withCounter)
  {
    hide OneEach;
    hide CountOf;
    hide HexDigits;
    hide DigitsAccess;
    hide LastMarker;
    hide Swapped;
    hide HasDenials;
    hide FlagOf;
    hide ReadV2;
  }

  lemma OnesCounted(access: Access)
    ensures forall flag: Flag :: CountOf(map[] + OneEach(access), flag) == if flag in access then 1 else 0
  {
    forall flag: Flag ensures CountOf(map[] + OneEach(access), flag) == if flag in access then 1 else 0 {
      if Letter(flag) in OneEach(access) {
        var f: Flag :| f in access && Letter(f) == Letter(flag);
        LettersDiffer(f, flag);
      }
    }
  }

  // ----- records

  lemma SplitEntry(text: string, body: seq<string>, id: string, value: string)
    requires Split(text) == body + [""] && NoSemicolon(id) && NoSemicolon(value)
    ensures Split(text + (id + ";" + value + ";")) == body + [id, value] + [""]
  {
    SplitClosed(text, body, id);
    SplitClosed(text + id + ";", body + [id], value);
    assert text + id + ";" + value + ";" == text + (id + ";" + value + ";");
    assert body + [id] + [value] == body + [id, value];
  }

  lemma NoPairs(tokens: seq<string>, withCounter: bool)
    ensures PairRights(tokens, 0, withCounter) == []
  {
  }

  lemma SameTokens(a: seq<string>, b: seq<string>, i: nat)
    requires i < |a|
    ensures (a + b)[i] == a[i]
  {
  }

  lemma {:induction false} PairRightsPrefix(a: seq<string>, b: seq<string>, k: nat, withCounter: bool)
    requires 2 * k <= |a|
    ensures PairRights(a + b, k, withCounter) == PairRights(a, k, withCounter)
  {
    hide *;
    if k == 0 {
      NoPairs(a, withCounter);
      NoPairs(a + b, withCounter);
    } else {
      PairRightsPrefix(a, b, k - 1, withCounter);
      PairRightsMore(a, k - 1, withCounter);
      PairRightsMore(a + b, k - 1, withCounter);
      SameTokens(a, b, 2 * (k - 1));
      SameTokens(a, b, 2 * (k - 1) + 1);
    }
  }

  lemma {:induction false} SpellNoSemicolon(chunks: seq<Chunk>)
    requires WellTagged(chunks)
    ensures NoSemicolon(Spell(chunks))
  {
    if chunks != [] {
      SpellNoSemicolon(chunks[..|chunks| - 1]);
    }
  }

  /** Reading the entry of one right gives this: whole up to what its encoding loses. */
  predicate Kept(right: Right, order: seq<char>, version: nat, read: Right, withCounter: bool)
    requires forall c :: c in order ==> c in right.counters
  {
    if UsesV2(right, order, version) then KeptV2(right, read, withCounter) else KeptV1(right, read, withCounter)
  }

  /** The entry of the right is passed over: it was marked as deleted, or there was nothing to print for it. */
  predicate Lost(right: Right, order: seq<char>, version: nat)
    requires forall c :: c in order ==> c in right.counters
  {
    right.isDeleted || (UsesV2(right, order, version) && Blank(right))
  }

  lemma ValueKept(right: Right, order: seq<char>, version: nat, withCounter: bool)
    requires Enumerates(order, right.counters.Keys) && InRange(right.counters) && !right.isDeleted
    ensures var value := ValueText(right, order, version);
            && NoSemicolon(value) && (value == "" <==> Lost(right, order, version))
            && (value != "" ==> Kept(right, order, version, ReadRight(right.id, value, withCounter), withCounter))
  {
    if UsesV2(right, order, version) {
      V2Kept(right, order, withCounter);
    } else {
      ReadBackV1(right, withCounter);
      HexFirst(right.access);
    }
    hide UsesV2;
    hide ReadRight;
    hide KeptV1;
    hide KeptV2;
    hide Spell;
    hide RightChunks;
  }

  lemma V2Kept(right: Right, order: seq<char>, withCounter: bool)
    requires Enumerates(order, right.counters.Keys) && InRange(right.counters)
    ensures var value := Spell(RightChunks(right, order));
            && NoSemicolon(value) && (value == "" <==> Blank(right))
            && (!Blank(right) ==> KeptV2(right, ReadRight(right.id, value, withCounter), withCounter))
  {
    BlankText(right, order);
    SpellNoSemicolon(RightChunks(right, order));
    if !Blank(right) {
      ReadBackV2(right, order, withCounter);
    }
    hide *;
  }

  /** Ids are free of semicolons and stand under themselves; counters fit their 16 bits. */
  ghost predicate Storable(rights: map<string, Right>) {
    forall id :: id in rights ==> rights[id].id == id && NoSemicolon(id) && InRange(rights[id].counters)
  }

  /** The ids that come back, in the order of writing. */
  ghost function Survivors(
    rights: map<string, Right>, order: seq<string>, counterOrder: map<string, seq<char>>, version: nat, k: nat): seq<string>
    requires Orders(rights, order, counterOrder) && k <= |order|
  {
    if k == 0 then []
    else
      Survivors(rights, order, counterOrder, version, k - 1)
      + if Lost(rights[order[k - 1]], counterOrder[order[k - 1]], version) then [] else [order[k - 1]]
  }

  ghost predicate KeptUnder(
    rights: map<string, Right>, counterOrder: map<string, seq<char>>, version: nat, id: string, read: Right,
    withCounter: bool)
  {
    && id in rights && id in counterOrder && (forall c :: c in counterOrder[id] ==> c in rights[id].counters)
    && Kept(rights[id], counterOrder[id], version, read, withCounter)
  }

  /** One right after the other comes back. */
  ghost predicate AllKept(
    rights: map<string, Right>, counterOrder: map<string, seq<char>>, version: nat, ids: seq<string>, read: seq<Right>,
    withCounter: bool)
  {
    |read| == |ids|
    && forall i | 0 <= i < |ids| :: KeptUnder(rights, counterOrder, version, ids[i], read[i], withCounter)
  }

  /** The record read so far: whole pairs, and an empty rest. */
  ghost predicate PairsRead(text: string, body: seq<string>, m: nat, read: seq<Right>, withCounter: bool) {
    Split(text) == body + [""] && |body| == 2 * m && PairRights(body, m, withCounter) == read
  }

  lemma PairMore(text: string, body: seq<string>, m: nat, read: seq<Right>, withCounter: bool, id: string, value: string)
    requires PairsRead(text, body, m, read, withCounter) && NoSemicolon(id) && NoSemicolon(value)
    ensures PairsRead(text + (id + ";" + value + ";"), body + [id, value], m + 1,
                      if value == "" then read else read + [ReadRight(id, value, withCounter)], withCounter)
  {
    SplitEntry(text, body, id, value);
    PairRightsPrefix(body, [id, value], m, withCounter);
    PairRightsMore(body + [id, value], m, withCounter);
    hide *;
  }

  lemma {:induction false} RecordPairs(
    rights: map<string, Right>, order: seq<string>, counterOrder: map<string, seq<char>>, version: nat, withCounter: bool,
    k: nat)
    returns (body: seq<string>, m: nat, read: seq<Right>)
    requires Orders(rights, order, counterOrder) && Storable(rights) && k <= |order|
    ensures PairsRead(RightsText(rights, order, counterOrder, version, k), body, m, read, withCounter)
    ensures AllKept(rights, counterOrder, version, Survivors(rights, order, counterOrder, version, k), read, withCounter)
  {
    hide *;
    if k == 0 {
      body, m, read := [], 0, [];
      NothingRead(rights, order, counterOrder, version, withCounter);
    } else {
      body, m, read := RecordPairs(rights, order, counterOrder, version, withCounter, k - 1);
      TextStep(rights, order, counterOrder, version, k);
      var id := order[k - 1];
      if rights[id].isDeleted {
        DeletedLost(rights[id], counterOrder[id], version);
      } else {
        body, m, read := EntryPairs(
          rights, counterOrder, version, withCounter, id, RightsText(rights, order, counterOrder, version, k - 1),
          body, m, read, Survivors(rights, order, counterOrder, version, k - 1));
      }
    }
  }

  lemma NothingRead(
    rights: map<string, Right>, order: seq<string>, counterOrder: map<string, seq<char>>, version: nat, withCounter: bool)
    requires Orders(rights, order, counterOrder)
    ensures PairsRead(RightsText(rights, order, counterOrder, version, 0), [], 0, [], withCounter)
    ensures AllKept(rights, counterOrder, version, Survivors(rights, order, counterOrder, version, 0), [], withCounter)
  {
    assert Split("") == [] + [""];
  }

  lemma TextStep(
    rights: map<string, Right>, order: seq<string>, counterOrder: map<string, seq<char>>, version: nat, k: nat)
    requires Orders(rights, order, counterOrder) && 0 < k <= |order|
    ensures var id := order[k - 1];
            && id in rights && id in counterOrder && Enumerates(counterOrder[id], rights[id].counters.Keys)
            && (forall c :: c in counterOrder[id] ==> c in rights[id].counters)
            && RightsText(rights, order, counterOrder, version, k)
               == (if rights[id].isDeleted then RightsText(rights, order, counterOrder, version, k - 1)
                   else RightsText(rights, order, counterOrder, version, k - 1)
                        + (rights[id].id + ";" + ValueText(rights[id], counterOrder[id], version) + ";"))
            && Survivors(rights, order, counterOrder, version, k)
               == (if Lost(rights[id], counterOrder[id], version) then Survivors(rights, order, counterOrder, version, k - 1)
                   else Survivors(rights, order, counterOrder, version, k - 1) + [id])
  {
    hide ValueText;
    hide Lost;
    assert RightsText(rights, order, counterOrder, version, k - 1) + ""
        == RightsText(rights, order, counterOrder, version, k - 1);
    assert Survivors(rights, order, counterOrder, version, k - 1) + []
        == Survivors(rights, order, counterOrder, version, k - 1);
  }

  lemma AllKeptMore(
    rights: map<string, Right>, counterOrder: map<string, seq<char>>, version: nat, ids: seq<string>, read: seq<Right>,
    withCounter: bool, id: string, one: Right)
    requires AllKept(rights, counterOrder, version, ids, read, withCounter)
    requires KeptUnder(rights, counterOrder, version, id, one, withCounter)
    ensures AllKept(rights, counterOrder, version, ids + [id], read + [one], withCounter)
  {
    hide KeptUnder;
  }

  lemma EntryPairs(
    rights: map<string, Right>, counterOrder: map<string, seq<char>>, version: nat, withCounter: bool, id: string,
    text: string, body: seq<string>, m: nat, read: seq<Right>, ids: seq<string>)
    returns (body': seq<string>, m': nat, read': seq<Right>)
    requires id in rights && id in counterOrder && Enumerates(counterOrder[id], rights[id].counters.Keys) && Storable(rights)
    requires !rights[id].isDeleted
    requires PairsRead(text, body, m, read, withCounter) && AllKept(rights, counterOrder, version, ids, read, withCounter)
    ensures PairsRead(text + (rights[id].id + ";" + ValueText(rights[id], counterOrder[id], version) + ";"), body', m', read',
                      withCounter)
    ensures AllKept(rights, counterOrder, version,
                    if Lost(rights[id], counterOrder[id], version) then ids else ids + [id], read', withCounter)
  {
    var right, o := rights[id], counterOrder[id];
    ValueKept(right, o, version, withCounter);
    var value := ValueText(right, o, version);
    assert right.id == id && NoSemicolon(id);
    if value != "" {
      var one := ReadRight(id, value, withCounter);
      assert KeptUnder(rights, counterOrder, version, id, one, withCounter);
      hide *;
      AllKeptMore(rights, counterOrder, version, ids, read, withCounter, id, one);
    }
    hide *;
    PairMore(text, body, m, read, withCounter, id, value);
    body', m' := body + [id, value], m + 1;
    read' := if value == "" then read else read + [ReadRight(id, value, withCounter)];
  }

  lemma DeletedLost(right: Right, order: seq<char>, version: nat)
    requires (forall c :: c in order ==> c in right.counters) && right.isDeleted
    ensures Lost(right, order, version)
  {
  }

  /** Writing a set of rights, in whatever order the maps are gone through, and reading the record gives the rights back. */
  lemma RecordRoundTrip(
    rights: map<string, Right>, order: seq<string>, counterOrder: map<string, seq<char>>, version: nat, withCounter: bool)
    requires Orders(rights, order, counterOrder) && Storable(rights)
    ensures var read := RecordRights(RightsText(rights, order, counterOrder, version, |order|), withCounter);
            AllKept(rights, counterOrder, version, Survivors(rights, order, counterOrder, version, |order|), read, withCounter)
  {
    var text := RightsText(rights, order, counterOrder, version, |order|);
    var body, m, read := RecordPairs(rights, order, counterOrder, version, withCounter, |order|);
    PairRightsPrefix(body, [""], m, withCounter);
    RecordOfTokens(text, withCounter);
    hide RecordRights;
    assert |Split(text)| / 2 == m;
  }

  lemma EachOnce(rights: map<string, Right>, order: seq<string>, counterOrder: map<string, seq<char>>, k: nat)
    requires Orders(rights, order, counterOrder) && k < |order|
    ensures order[k] !in order[..k] && order[k] in rights
  {
  }

  lemma {:induction false} SurvivorsAre(
    rights: map<string, Right>, order: seq<string>, counterOrder: map<string, seq<char>>, version: nat, k: nat)
    requires Orders(rights, order, counterOrder) && k <= |order|
    ensures var ids := Survivors(rights, order, counterOrder, version, k);
            && (forall id :: id in ids ==> id in rights)
            && (forall id :: id in ids <==> id in order[..k] && !Lost(rights[id], counterOrder[id], version))
            && forall i, j | 0 <= i < j < |ids| :: ids[i] != ids[j]
  {
    hide Lost;
    if k > 0 {
      EachOnce(rights, order, counterOrder, k - 1);
      hide Orders;
      SurvivorsAre(rights, order, counterOrder, version, k - 1);
      assert order[..k] == order[..k - 1] + [order[k - 1]];
    }
  }

  lemma {:induction false} ByIdDistinct(read: seq<Right>, ids: seq<string>)
    requires |read| == |ids| && (forall i | 0 <= i < |ids| :: read[i].id == ids[i])
    requires forall i, j | 0 <= i < j < |ids| :: ids[i] != ids[j]
    ensures var got := ById(read, map[]);
            (forall id :: id in got <==> id in ids) && forall i | 0 <= i < |ids| :: got[ids[i]] == read[i]
  {
    if read != [] {
      var k := |read| - 1;
      ByIdDistinct(read[..k], ids[..k]);
      assert ids == ids[..k] + [ids[k]];
    }
  }

  /** The right under every id, the rights that are lost apart, comes back under its id. */
  lemma RightsetRoundTrip(
    rights: map<string, Right>, order: seq<string>, counterOrder: map<string, seq<char>>, version: nat)
    requires Orders(rights, order, counterOrder) && Storable(rights)
    ensures var got := ById(RecordRights(RightsText(rights, order, counterOrder, version, |order|), true), map[]);
            && (forall id :: id in got <==> id in rights && !Lost(rights[id], counterOrder[id], version))
            && forall id :: id in got ==> Kept(rights[id], counterOrder[id], version, got[id], true)
  {
    var ids := Survivors(rights, order, counterOrder, version, |order|);
    var read := RecordRights(RightsText(rights, order, counterOrder, version, |order|), true);
    RecordRoundTrip(rights, order, counterOrder, version, true);
    SurvivorsAre(rights, order, counterOrder, version, |order|);
    assert order[..|order|] == order;
    forall i | 0 <= i < |ids| ensures read[i].id == ids[i] {
      assert KeptUnder(rights, counterOrder, version, ids[i], read[i], true);
    }
    ByIdDistinct(read, ids);
    var got := ById(read, map[]);
    forall id | id in got ensures Kept(rights[id], counterOrder[id], version, got[id], true) {
      var i :| 0 <= i < |ids| && ids[i] == id;
      assert KeptUnder(rights, counterOrder, version, ids[i], read[i], true);
    }
    hide Kept;
    hide Lost;
    hide ById;
    hide Survivors;
    hide RecordRights;
    hide RightsText;
  }

  // ----- when nothing at all is lost

  /** The same id, access, printed marker and counters of access flags. */
  predicate SameRight(right: Right, read: Right) {
    && read.id == right.id && read.access == right.access && Shown(read.marker) == Shown(right.marker)
    && forall flag: Flag :: CountOf(read.counters, flag) == CountOf(right.counters, flag)
  }

  /** A right survives whole iff its positive counters are its flags, and, in the first encoding, all counters are 1 and the
      byte is at most 15 or the same with its nibbles swapped. */
  lemma WholeIff(right: Right, order: seq<char>, version: nat, read: Right)
    requires Enumerates(order, right.counters.Keys) && Kept(right, order, version, read, true)
    ensures SameRight(right, read) <==>
      && Positive(right.counters) == right.access
      && (UsesV2(right, order, version)
          || ((forall flag: Flag :: CountOf(right.counters, flag) <= 1)
              && (!HasDenials(right.access) || Swapped(right.access) == right.access)))
  {
    hide CounterSum;
    hide Swapped;
    hide HasDenials;
    if UsesV2(right, order, version) {
      hide UsesV2;
      if Positive(right.counters) == right.access {
        forall flag: Flag ensures CountOf(read.counters, flag) == CountOf(right.counters, flag) {
          assert flag in Positive(right.counters) <==> flag in right.access;
          assert CountOf(read.counters, flag) == CountKept(right, flag);
        }
      }
      if SameRight(right, read) {
        forall flag: Flag ensures flag in Positive(right.counters) <==> flag in right.access {
          assert CountOf(read.counters, flag) == CountKept(right, flag);
        }
      }
    } else {
      hide UsesV2;
      if SameRight(right, read) {
        forall flag: Flag
          ensures flag in Positive(right.counters) <==> flag in right.access
          ensures CountOf(right.counters, flag) <= 1
        {
          assert CountOf(read.counters, flag) == CountOf(right.counters, flag);
        }
      }
      if Positive(right.counters) == right.access && forall flag: Flag :: CountOf(right.counters, flag) <= 1 {
        forall flag: Flag ensures CountOf(right.counters, flag) == if flag in right.access then 1 else 0 {
          assert flag in Positive(right.counters) <==> flag in right.access;
        }
      }
    }
  }

  // ----- digits, counts and letters

  /** Digits of both cases, and no other characters, are hexadecimal digits. */
  lemma HexDigitMeans(c: char, v: nat)
    requires v < 16
    ensures HexValue(c) == Some(v) <==> c == "0123456789abcdef"[v] || c == "0123456789ABCDEF"[v]
  {
  }

  /** The byte read from many digits: of every eight the first one gives the low nibble, the second one the high one. */
  lemma {:induction false} DigitsMean(digits: seq<nat>, flag: Flag)
    ensures flag in DigitsAccess(digits) <==>
      || (exists p | 0 <= p < |digits| :: p % 8 == 0 && flag in LowFlags(digits[p]))
      || (exists p | 0 <= p < |digits| :: p % 8 == 1 && flag in HighFlags(digits[p]))
  {
    hide LowFlags;
    hide HighFlags;
    hide Shifted;
    if digits != [] {
      var k := |digits| - 1;
      DigitsMean(digits[..k], flag);
      assert DigitsAccess(digits) == DigitsAccess(digits[..k]) + Shifted(digits[k], 4 * k);
      ShiftedMeans(digits[k], k, flag);
      assert forall p | 0 <= p < k :: digits[..k][p] == digits[p];
      hide DigitsAccess;
    }
  }

  lemma ShiftedMeans(v: nat, p: nat, flag: Flag)
    ensures flag in Shifted(v, 4 * p) <==> (p % 8 == 0 && flag in LowFlags(v)) || (p % 8 == 1 && flag in HighFlags(v))
  {
    hide LowFlags;
    hide HighFlags;
    assert 4 * p % 32 == 4 * (p % 8);
  }

  /** A count is a number of up to 16 bits, which may have a plus in front; whatever else is there counts as 1. */
  lemma CountMeans(val: string, n: nat)
    ensures n < 0x1_0000 ==> ParseCount(Decimal(n)) == n && ParseCount("+" + Decimal(n)) == n
    ensures n >= 0x1_0000 ==> ParseCount(Decimal(n)) == 1 && ParseCount("+" + Decimal(n)) == 1
    ensures ParseCount("") == ParseCount("+") == 1
    ensures (exists i | 0 < i < |val| :: !IsDigit(val[i])) || (|val| > 0 && !IsDigit(val[0]) && val[0] != '+')
            ==> ParseCount(val) == 1
  {
    DecimalNumber(n);
    var d := Decimal(n);
    assert IsDigit(d[0]) && !IsDigit('+');
    assert ("+" + d)[1..] == d && ("+" + d)[0] == '+';
    hide Decimal;
    hide Number;
    if i :| 0 < i < |val| && !IsDigit(val[i]) {
      assert !AllDigits(val) && val[1..][i - 1] == val[i];
      assert !AllDigits(val[1..]);
    }
  }

  /** The bit of a flag in digits as the decoder takes them, the low one first. */
  function BitDigits(flag: Flag): string {
    match flag
    case Create => "1"
    case Read => "2"
    case Update => "4"
    case Delete => "8"
    case CantCreate => "01"
    case CantRead => "02"
    case CantUpdate => "04"
    case CantDelete => "08"
  }

  function BitLetter(flag: Flag): char {
    match flag
    case Create => 'M'
    case Read => 'R'
    case Update => 'U'
    case Delete => 'P'
    case CantCreate => 'm'
    case CantRead => 'r'
    case CantUpdate => 'u'
    case CantDelete => 'p'
  }

  lemma OneWord(c: char, flag: Flag, key: string, withCounter: bool)
    requires Letter(flag) == c
    ensures ReadRight(key, [c], withCounter)
      == NewRight(key).(access := {flag}, counters := if withCounter then map[c := 1] else map[])
  {
    LettersDiffer(flag, flag);
    var one := [Chunk(c, "")];
    assert [c][..0] == "" && one[..0] == [];
    assert Chunks([c]) == one;
    assert TagMarker(one, NO_MARKER) == NO_MARKER;
    ParseDecimal(0);
    assert TagCounts(one, map[]) == map[c := 1];
    forall f: Flag ensures f in TagAccess(one) <==> f == flag {
      LettersDiffer(f, flag);
      assert f == flag ==> one[0].tag == Letter(f);
    }
    assert TagAccess(one) == {flag};
    hide TagAccess;
    hide TagCounts;
    hide TagMarker;
    hide Chunks;
    hide ReadV1;
    hide Letter;
  }

  lemma DigitWord(text: string, digits: seq<nat>, flag: Flag, key: string, withCounter: bool)
    requires text != "" && FlagOf(text[0]).None? && HexDigits(text) == digits && LastMarker(text, NO_MARKER) == NO_MARKER
    requires DigitsAccess(digits) == {flag}
    ensures ReadRight(key, text, withCounter)
      == NewRight(key).(access := {flag}, counters := if withCounter then map[Letter(flag) := 1] else map[])
  {
    OneFlagOnce(flag);
    hide OneEach;
    hide HexDigits;
    hide DigitsAccess;
    hide LastMarker;
    hide ReadV2;
    hide Letter;
    hide FlagOf;
  }

  lemma OneFlagOnce(flag: Flag)
    ensures map[] + OneEach({flag}) == map[Letter(flag) := 1]
  {
  }

  /** Both encodings say the same of one flag: its bit in digits, or its letter. */
  lemma BitAndLetter(flag: Flag, key: string, withCounter: bool)
    ensures var right := NewRight(key).(access := {flag}, counters := if withCounter then map[BitLetter(flag) := 1] else map[]);
            ReadRight(key, BitDigits(flag), withCounter) == right && ReadRight(key, [BitLetter(flag)], withCounter) == right
  {
    assert Letter(flag) == BitLetter(flag);
    OneWord(BitLetter(flag), flag, key, withCounter);
    hide ReadRight;
    hide Letter;
    match flag
    case Create => LowBit('1', 1, flag, key, withCounter);
    case Read => LowBit('2', 2, flag, key, withCounter);
    case Update => LowBit('4', 4, flag, key, withCounter);
    case Delete => LowBit('8', 8, flag, key, withCounter);
    case CantCreate => HighBit('1', 1, Create, key, withCounter);
    case CantRead => HighBit('2', 2, Read, key, withCounter);
    case CantUpdate => HighBit('4', 4, Update, key, withCounter);
    case CantDelete => HighBit('8', 8, Delete, key, withCounter);
  }

  lemma LowBit(c: char, v: nat, flag: Flag, key: string, withCounter: bool)
    requires '0' <= c <= '9' && HexValue(c) == Some(v) && LowFlags(v) == {flag}
    ensures ReadRight(key, [c], withCounter)
      == NewRight(key).(access := {flag}, counters := if withCounter then map[Letter(flag) := 1] else map[])
  {
    assert !IsMarker(c) && FlagOf(c).None?;
    OneHex(c, v);
    OneDigit(v);
    DigitWord([c], [v], flag, key, withCounter);
    hide *;
  }

  lemma HighBit(c: char, v: nat, flag: Flag, key: string, withCounter: bool)
    requires '0' <= c <= '9' && HexValue(c) == Some(v) && LowFlags(v) == {flag}
    ensures ReadRight(key, ['0', c], withCounter)
      == NewRight(key).(access := {Denial(flag)}, counters := if withCounter then map[Letter(Denial(flag)) := 1] else map[])
  {
    assert !IsMarker(c) && !IsMarker('0') && FlagOf('0').None? && LowFlags(0) == {} && HighFlags(v) == {Denial(flag)};
    TwoHex('0', 0, c, v);
    TwoDigits(0, v);
    assert ['0'] + [c] == ['0', c] && LowFlags(0) + HighFlags(v) == {Denial(flag)};
    DigitWord(['0', c], [0, v], Denial(flag), key, withCounter);
    hide *;
  }

  lemma OneHex(c: char, v: nat)
    requires !IsMarker(c) && HexValue(c) == Some(v)
    ensures HexDigits([c]) == [v] && LastMarker([c], NO_MARKER) == NO_MARKER
  {
    HexDigitsMore("", c);
    assert "" + [c] == [c];
  }

  lemma TwoHex(c: char, v: nat, d: char, w: nat)
    requires !IsMarker(c) && HexValue(c) == Some(v) && !IsMarker(d) && HexValue(d) == Some(w)
    ensures HexDigits([c] + [d]) == [v, w] && LastMarker([c] + [d], NO_MARKER) == NO_MARKER
  {
    OneHex(c, v);
    HexDigitsMore([c], d);
  }

  // ----- what is written of one flag

  /** The byte of one flag in digits, the high one first. */
  function ByteText(flag: Flag): string {
    match flag
    case Create => "1"
    case Read => "2"
    case Update => "4"
    case Delete => "8"
    case CantCreate => "10"
    case CantRead => "20"
    case CantUpdate => "40"
    case CantDelete => "80"
  }

  lemma HexOfOne(flag: Flag)
    ensures Hex({flag}) == ByteText(flag)
  {
    var lo, hi := LowNibble({flag}), HighNibble({flag});
    assert lo == (match flag case Create => 1 case Read => 2 case Update => 4 case Delete => 8 case _ => 0);
    assert hi == (match flag case CantCreate => 1 case CantRead => 2 case CantUpdate => 4 case CantDelete => 8 case _ => 0);
    hide LowNibble;
    hide HighNibble;
  }

  lemma {:induction false} NothingBare(k: nat)
    requires k <= |FLAGS|
    ensures BareChunks({}, k) == []
  {
    if k > 0 {
      NothingBare(k - 1);
    }
  }

  lemma OneCounted(c: char, flag: Flag, n: nat)
    requires c == Letter(flag) && n >= 2
    ensures CountedChunks(map[c := n], [c]) == [Chunk(c, Decimal(n))]
    ensures {flag} - Positive(map[c := n]) == {}
  {
    LettersDiffer(flag, flag);
    assert [c][..0] == [];
    assert CountedChunks(map[c := n], []) == [];
    hide Decimal;
  }

  lemma OneChunkSpelled(tag: char, val: string)
    ensures Spell([Chunk(tag, val)]) == [tag] + val
  {
    assert [Chunk(tag, val)][..0] == [];
    assert Spell([]) == "" && "" + [tag] == [tag];
  }

  lemma OneFlagValue(right: Right, flag: Flag, n: nat, version: nat)
    requires n < 0x1_0000 && right.access == {flag} && right.marker == NO_MARKER
    requires right.counters == map[BitLetter(flag) := n]
    ensures ValueText(right, [BitLetter(flag)], version)
      == if version == 1 || n < 2 then ByteText(flag) else [BitLetter(flag)] + Decimal(n)
  {
    var c := BitLetter(flag);
    assert c == Letter(flag);
    hide Letter;
    hide BitLetter;
    assert [c][..0] == [];
    assert CounterSum(right.counters, [c]) == n;
    hide CounterSum;
    HexOfOne(flag);
    assert Hex(right.access) + "" == Hex(right.access);
    if n >= 2 {
      OneCounted(c, flag, n);
      NothingBare(|FLAGS|);
      OneChunkSpelled(c, Decimal(n));
      assert RightChunks(right, [c]) == [Chunk(c, Decimal(n))];
    }
    hide Decimal;
    hide Spell;
    hide RightChunks;
    hide Hex;
    hide ByteText;
  }

  /**
   A record with one right for one flag: its id, the byte in digits if the flag is granted less than twice or the version is 1,
   the letter with the count otherwise, and a semicolon behind both.
   */
  lemma OneFlagWritten(id: string, flag: Flag, n: nat, version: nat)
    requires n < 0x1_0000
    ensures var right := NewRight(id).(access := {flag}, counters := map[BitLetter(flag) := n]);
            var rights, counterOrder := map[id := right], map[id := [BitLetter(flag)]];
            && Orders(rights, [id], counterOrder)
            && RightsText(rights, [id], counterOrder, version, 1)
               == id + ";" + (if version == 1 || n < 2 then ByteText(flag) else [BitLetter(flag)] + Decimal(n)) + ";"
  {
    var right := NewRight(id).(access := {flag}, counters := map[BitLetter(flag) := n]);
    var rights, counterOrder := map[id := right], map[id := [BitLetter(flag)]];
    OneFlagValue(right, flag, n, version);
    hide BitLetter;
    hide ByteText;
    hide ValueText;
    hide Decimal;
    assert [id][0] == id && Enumerates([id], rights.Keys) && Enumerates([BitLetter(flag)], right.counters.Keys);
    assert RightsText(rights, [id], counterOrder, version, 0) == "";
    var entry := right.id + ";" + ValueText(right, [BitLetter(flag)], version) + ";";
    assert RightsText(rights, [id], counterOrder, version, 1) == "" + entry;
    assert "" + entry == entry;
  }

  // ----- the same in plain numbers

  /** The counters added up, without a limit. */
  function Added(counters: Tally, order: seq<char>): nat
    requires forall c :: c in order ==> c in counters
  {
    if order == [] then 0 else Added(counters, order[..|order| - 1]) + counters[order[|order| - 1]]
  }

  /** In 16 bits the sum wraps around. */
  lemma {:induction false} SumWraps(counters: Tally, order: seq<char>)
    requires forall c :: c in order ==> c in counters
    ensures CounterSum(counters, order) == Added(counters, order) % 0x1_0000
  {
    if order != [] {
      SumWraps(counters, order[..|order| - 1]);
    }
  }

  /** The flags of the access are those with a positive counter. */
  predicate FlagsCounted(right: Right) {
    forall flag: Flag :: flag in right.access <==> CountOf(right.counters, flag) > 0
  }

  /** No flag is counted twice, and the byte is at most 15 or has two equal digits. */
  predicate FlagsOnce(right: Right) {
    && (forall flag: Flag :: CountOf(right.counters, flag) <= 1)
    && (right.access <= {Create, Read, Update, Delete}
        || forall flag | flag in {Create, Read, Update, Delete} :: flag in right.access <==> Denial(flag) in right.access)
  }

  lemma SwappedSame(access: Access)
    ensures Swapped(access) == access <==>
      forall flag | flag in {Create, Read, Update, Delete} :: flag in access <==> Denial(flag) in access
  {
    forall flag: Flag ensures flag in Swapped(access) <==> Opposite(flag) in access {
    }
    if forall flag | flag in {Create, Read, Update, Delete} :: flag in access <==> Denial(flag) in access {
      forall flag: Flag ensures flag in Swapped(access) <==> flag in access {
        assert (Create in access <==> Denial(Create) in access) && (Read in access <==> Denial(Read) in access);
        assert (Update in access <==> Denial(Update) in access) && (Delete in access <==> Denial(Delete) in access);
      }
    }
  }

  /** One right read back from its entry: whether it is whole, by version and plain sum alone. */
  lemma WholeByNumbers(right: Right, order: seq<char>, version: nat, read: Right)
    requires Enumerates(order, right.counters.Keys) && Kept(right, order, version, read, true)
    ensures SameRight(right, read) <==>
      FlagsCounted(right) && ((version != 1 && Added(right.counters, order) % 0x1_0000 >= 2) || FlagsOnce(right))
  {
    WholeIff(right, order, version, read);
    SumWraps(right.counters, order);
    SwappedSame(right.access);
    assert Positive(right.counters) == right.access <==> FlagsCounted(right) by {
      hide FlagsOnce;
      assert forall flag: Flag :: flag in Positive(right.counters) <==> CountOf(right.counters, flag) > 0;
    }
    hide Kept;
    hide SameRight;
    hide Swapped;
    hide Positive;
    hide Added;
    hide CounterSum;
    hide CountOf;
    hide Denial;
  }

  /**
   Whole record, written and read: a right comes back under its id with the same access, marker and counters if and only if
   it was not marked as deleted, its flags are those with a positive counter, and either the second encoding was to be used
   and there is something to print, or the first one was, no flag is counted twice and the nibbles can change places.
   */
  lemma ComesBackIff(
    rights: map<string, Right>, order: seq<string>, counterOrder: map<string, seq<char>>, version: nat, id: string)
    requires Orders(rights, order, counterOrder) && Storable(rights) && id in rights
    ensures var got := ById(RecordRights(RightsText(rights, order, counterOrder, version, |order|), true), map[]);
            var right := rights[id];
            var sum := Added(right.counters, counterOrder[id]);
            id in got && SameRight(right, got[id]) <==>
            && !right.isDeleted && FlagsCounted(right)
            && if version != 1 && sum % 0x1_0000 >= 2 then right.access != {} || right.marker in {'X', 'N'}
               else FlagsOnce(right)
  {
    var got := ById(RecordRights(RightsText(rights, order, counterOrder, version, |order|), true), map[]);
    var right, o := rights[id], counterOrder[id];
    RightsetRoundTrip(rights, order, counterOrder, version);
    SumWraps(right.counters, o);
    LostByNumbers(right, o, version);
    hide RecordRights;
    hide RightsText;
    hide ById;
    if id in got {
      WholeByNumbers(right, o, version, got[id]);
    }
    hide *;
  }

  lemma LostByNumbers(right: Right, order: seq<char>, version: nat)
    requires forall c :: c in order ==> c in right.counters
    ensures FlagsCounted(right) ==>
      (Lost(right, order, version) <==>
       right.isDeleted
       || (version != 1 && Added(right.counters, order) % 0x1_0000 >= 2
           && right.access == {} && right.marker !in {'X', 'N'}))
  {
    SumWraps(right.counters, order);
    hide CounterSum;
    hide Added;
    hide CountOf;
  }

  // ----- the order in which counters are gone through does not decide which encoding is used

  lemma {:induction false} SumDrops(counters: Tally, order: seq<char>, i: nat)
    requires (forall c :: c in order ==> c in counters) && i < |order|
    ensures CounterSum(counters, order) == (CounterSum(counters, order[..i] + order[i + 1..]) + counters[order[i]]) % LIMIT
  {
    var rest := order[..i] + order[i + 1..];
    var k := |order| - 1;
    if i == k {
      assert rest == order[..k];
    } else {
      SumDrops(counters, order[..k], i);
      assert order[..k][..i] + order[..k][i + 1..] == rest[..|rest| - 1];
      assert rest[|rest| - 1] == order[k];
      SumsCommute(CounterSum(counters, rest[..|rest| - 1]), counters[order[i]], counters[order[k]]);
    }
  }

  lemma SumsCommute(before: nat, a: nat, b: nat)
    ensures ((before + a) % LIMIT + b) % LIMIT == ((before + b) % LIMIT + a) % LIMIT
  {
  }

  lemma Without(order: seq<char>, i: nat)
    requires i < |order|
    ensures multiset(order) == multiset(order[..i] + order[i + 1..]) + multiset{order[i]}
  {
    assert order == order[..i] + [order[i]] + order[i + 1..];
  }

  lemma Cancel(a: multiset<char>, b: multiset<char>, c: char)
    requires a + multiset{c} == b + multiset{c}
    ensures a == b
  {
    assert a == a + multiset{c} - multiset{c};
    assert b == b + multiset{c} - multiset{c};
  }

  lemma {:induction false} SumOfAnyOrder(counters: Tally, a: seq<char>, b: seq<char>)
    requires (forall c :: c in a ==> c in counters) && multiset(a) == multiset(b)
    ensures (forall c :: c in b ==> c in counters) && CounterSum(counters, a) == CounterSum(counters, b)
  {
    hide CounterSum;
    forall c | c in b ensures c in a {
      assert c in multiset(b);
    }
    if a == [] {
      assert |multiset(b)| == 0;
      assert b == [];
    } else {
      var k := |a| - 1;
      assert a[k] in multiset(a);
      var i :| 0 <= i < |b| && b[i] == a[k];
      var rest := b[..i] + b[i + 1..];
      Without(a, k);
      Without(b, i);
      assert a[..k] + a[k + 1..] == a[..k];
      Cancel(multiset(a[..k]), multiset(rest), a[k]);
      SumOfAnyOrder(counters, a[..k], rest);
      SumDrops(counters, a, k);
      SumDrops(counters, b, i);
    }
  }

  lemma OrderDoesNotMatter(right: Right, a: seq<char>, b: seq<char>, version: nat)
    requires Enumerates(a, right.counters.Keys) && Enumerates(b, right.counters.Keys)
    ensures UsesV2(right, a, version) == UsesV2(right, b, version) && Lost(right, a, version) == Lost(right, b, version)
  {
    forall c ensures multiset(a)[c] == multiset(b)[c] {
      Once(a, c);
      Once(b, c);
    }
    SumOfAnyOrder(right.counters, a, b);
  }

  lemma {:induction false} Once(order: seq<char>, c: char)
    requires forall i, j | 0 <= i < j < |order| :: order[i] != order[j]
    ensures multiset(order)[c] == if c in order then 1 else 0
  {
    if order != [] {
      var k := |order| - 1;
      Once(order[..k], c);
      assert order == order[..k] + [order[k]];
    }
  }
}
