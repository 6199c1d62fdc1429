/** The set of numbers a scope stands for, and what replacing interval records does to it. */
module IntervalSet {
  import opened Wrappers

  /** A stored interval record, both ends included. */
  datatype Interval = Interval(begin: int, end: int, deleted: bool)

  type Records = map<string, Interval>

  ghost predicate InRecord(records: Records, uri: string, v: int) {
    uri in records && records[uri].begin <= v <= records[uri].end
  }

  /** The scope lists different live intervals, none empty, none touching another. */
  ghost predicate WellFormed(records: Records, list: seq<string>) {
    && (forall k | 0 <= k < |list| ::
          list[k] in records && records[list[k]].begin <= records[list[k]].end && !records[list[k]].deleted)
    && (forall i, j | 0 <= i < j < |list| :: list[i] != list[j] && Apart(records[list[i]], records[list[j]]))
  }

  /** At least one number lies between the two. */
  predicate Apart(a: Interval, b: Interval) {
    a.end + 1 < b.begin || b.end + 1 < a.begin
  }

  ghost predicate Holds(records: Records, list: seq<string>, v: int) {
    exists k :: 0 <= k < |list| && InRecord(records, list[k], v)
  }

  /** The committed numbers. */
  ghost function Denotes(records: Records, list: seq<string>): iset<int> {
    iset v | Holds(records, list, v)
  }

  // ----- replacing one record

  /** The record at k is the only one that holds its numbers. */
  lemma OnlyHere(records: Records, list: seq<string>, k: nat, v: int)
    requires WellFormed(records, list) && k < |list| && InRecord(records, list[k], v)
    ensures forall j :: 0 <= j < |list| && j != k ==> !InRecord(records, list[j], v)
  {
    forall j | 0 <= j < |list| && j != k ensures !InRecord(records, list[j], v) {
      var i, j' := if j < k then j else k, if j < k then k else j;
      assert Apart(records[list[i]], records[list[j']]);
    }
  }

  /** Changing the interval at k, with the others still apart, changes the set only there. */
  lemma ReplaceAt(records: Records, list: seq<string>, k: nat, interval: Interval)
    requires WellFormed(records, list) && k < |list|
    requires interval.begin <= interval.end && !interval.deleted
    requires forall j :: 0 <= j < |list| && j != k ==> Apart(records[list[j]], interval)
    ensures var records' := records[list[k] := interval];
            && WellFormed(records', list)
            && forall v :: Holds(records', list, v) <==>
                             interval.begin <= v <= interval.end
                             || (exists j :: 0 <= j < |list| && j != k && InRecord(records, list[j], v))
  {
    var records' := records[list[k] := interval];
    forall j | 0 <= j < |list| && j != k ensures list[j] != list[k] {
      if j < k {
      } else {
        assert list[k] != list[j];
      }
    }
    assert forall v, j :: 0 <= j < |list| && j != k ==> InRecord(records', list[j], v) == InRecord(records, list[j], v);
    forall v | interval.begin <= v <= interval.end ensures Holds(records', list, v) {
      assert InRecord(records', list[k], v);
    }
  }

  function Inserted(list: seq<string>, n: nat, uri: string): seq<string>
    requires n <= |list|
  {
    list[..n] + [uri] + list[n..]
  }

  lemma InsertedAt(list: seq<string>, n: nat, uri: string)
    requires n <= |list|
    ensures |Inserted(list, n, uri)| == |list| + 1
    ensures forall j | 0 <= j <= |list| ::
      Inserted(list, n, uri)[j] == if j < n then list[j] else if j == n then uri else list[j - 1]
  {
  }

  lemma InsertWellFormed(records: Records, list: seq<string>, n: nat, uri: string, interval: Interval)
    requires WellFormed(records, list) && uri !in list && n <= |list|
    requires interval.begin <= interval.end && !interval.deleted
    requires forall j :: 0 <= j < |list| ==> Apart(records[list[j]], interval)
    ensures WellFormed(records[uri := interval], Inserted(list, n, uri))
  {
    var records', list' := records[uri := interval], Inserted(list, n, uri);
    InsertedAt(list, n, uri);
    hide Inserted;
    forall i, j | 0 <= i < j < |list'| ensures list'[i] != list'[j] && Apart(records'[list'[i]], records'[list'[j]]) {
      var a, b := if i < n then i else i - 1, if j < n then j else j - 1;
      if i != n && j != n {
        assert list[a] != list[b] && Apart(records[list[a]], records[list[b]]);
      }
    }
  }

  /** A new interval, apart from all others, is put into the list. */
  lemma Insert(records: Records, list: seq<string>, n: nat, uri: string, interval: Interval)
    requires WellFormed(records, list) && uri !in list && n <= |list|
    requires interval.begin <= interval.end && !interval.deleted
    requires forall j :: 0 <= j < |list| ==> Apart(records[list[j]], interval)
    ensures var records', list' := records[uri := interval], Inserted(list, n, uri);
            && WellFormed(records', list')
            && forall v :: Holds(records', list', v) <==>
                             interval.begin <= v <= interval.end || Holds(records, list, v)
  {
    InsertWellFormed(records, list, n, uri, interval);
    forall v
      ensures Holds(records[uri := interval], Inserted(list, n, uri), v) <==>
        interval.begin <= v <= interval.end || Holds(records, list, v)
    {
      InsertHolds(records, list, n, uri, interval, v);
    }
    hide *;
  }

  lemma InsertHolds(records: Records, list: seq<string>, n: nat, uri: string, interval: Interval, v: int)
    requires uri !in list && n <= |list| && forall j :: 0 <= j < |list| ==> list[j] in records
    ensures Holds(records[uri := interval], Inserted(list, n, uri), v) <==>
      interval.begin <= v <= interval.end || Holds(records, list, v)
  {
    var records', list' := records[uri := interval], Inserted(list, n, uri);
    InsertedAt(list, n, uri);
    hide Inserted;
    assert InRecord(records', uri, v) <==> interval.begin <= v <= interval.end;
    forall j | 0 <= j < |list| ensures InRecord(records', list[j], v) == InRecord(records, list[j], v) {
    }
    hide InRecord;
    if interval.begin <= v <= interval.end {
      assert InRecord(records', list'[n], v);
    }
    if Holds(records, list, v) {
      var j :| 0 <= j < |list| && InRecord(records, list[j], v);
      assert InRecord(records', list'[if j < n then j else j + 1], v);
    }
    if Holds(records', list', v) {
      var j :| 0 <= j < |list'| && InRecord(records', list'[j], v);
      if j != n {
        assert InRecord(records, list[if j < n then j else j - 1], v);
      }
    }
  }

  /** The interval at n is dropped from the list; its record may be marked deleted. */
  lemma Drop(records: Records, list: seq<string>, n: nat)
    requires WellFormed(records, list) && n < |list|
    ensures var records' := records[list[n] := records[list[n]].(deleted := true)];
            var list' := list[..n] + list[n + 1..];
            && WellFormed(records', list')
            && forall v :: Holds(records', list', v) <==>
                             exists j :: 0 <= j < |list| && j != n && InRecord(records, list[j], v)
  {
    var records' := records[list[n] := records[list[n]].(deleted := true)];
    var list' := list[..n] + list[n + 1..];
    forall j | 0 <= j < |list'|
      ensures list'[j] == list[if j < n then j else j + 1] && list'[j] != list[n]
    {
      if j >= n {
        assert list[n] != list[j + 1];
      }
    }
    assert WellFormed(records', list');
    hide WellFormed;
    forall v ensures Holds(records', list', v) <==> exists j :: 0 <= j < |list| && j != n && InRecord(records, list[j], v) {
      DropHolds(records, list, n, v);
    }
  }

  lemma DropHolds(records: Records, list: seq<string>, n: nat, v: int)
    requires n < |list| && forall j | 0 <= j < |list| :: list[j] in records && (j != n ==> list[j] != list[n])
    ensures var records' := records[list[n] := records[list[n]].(deleted := true)];
            Holds(records', list[..n] + list[n + 1..], v)
            <==> exists j :: 0 <= j < |list| && j != n && InRecord(records, list[j], v)
  {
    var records' := records[list[n] := records[list[n]].(deleted := true)];
    var list' := list[..n] + list[n + 1..];
    assert forall j | 0 <= j < |list'| :: list'[j] == list[if j < n then j else j + 1];
    forall j | 0 <= j < |list| ensures InRecord(records', list[j], v) == InRecord(records, list[j], v) {
    }
    hide InRecord;
    if j :| 0 <= j < |list| && j != n && InRecord(records, list[j], v) {
      assert InRecord(records', list'[if j < n then j else j - 1], v);
    }
    if Holds(records', list', v) {
      var j :| 0 <= j < |list'| && InRecord(records', list'[j], v);
      assert InRecord(records, list[if j < n then j else j + 1], v);
    }
  }

  /** The records after the interval at p took over the one at n, which is marked deleted. */
  function Merged(records: Records, list: seq<string>, p: nat, n: nat): Records
    requires p < |list| && n < |list| && list[p] in records && list[n] in records
  {
    records[list[n] := records[list[n]].(deleted := true)][list[p] := records[list[p]].(end := records[list[n]].end)]
  }

  /** A value between two intervals joins them. */
  lemma Merging(records: Records, list: seq<string>, p: nat, n: nat, value: int)
    requires WellFormed(records, list) && p < |list| && n < |list|
    requires records[list[p]].end == value - 1 && records[list[n]].begin == value + 1
    ensures var records', list' := Merged(records, list, p, n), list[..n] + list[n + 1..];
            && WellFormed(records', list')
            && forall v :: Holds(records', list', v) <==> Holds(records, list, v) || v == value
  {
    var dropped := records[list[n] := records[list[n]].(deleted := true)];
    var list' := list[..n] + list[n + 1..];
    var merged := records[list[p]].(end := records[list[n]].end);
    var p' := if p < n then p else p - 1;
    assert p != n;
    Drop(records, list, n);
    forall j | 0 <= j < |list'| ensures list'[j] == list[if j < n then j else j + 1] {
    }
    forall j | 0 <= j < |list'| && j != p' ensures Apart(dropped[list'[j]], merged) {
      var k := if j < n then j else j + 1;
      Pairwise(records, list, k, p);
      Pairwise(records, list, k, n);
    }
    ReplaceAt(dropped, list', p', merged);
    Pairwise(records, list, p, n);
    assert Merged(records, list, p, n) == dropped[list'[p'] := merged];
    hide WellFormed;
    hide Apart;
    forall v ensures Holds(Merged(records, list, p, n), list', v) <==> Holds(records, list, v) || v == value {
      MergedRange(records, list, p, n, value, v);
    }
  }

  /** Every number is in one of the other intervals before as after, or in what the two and the value make up. */
  lemma MergedRange(records: Records, list: seq<string>, p: nat, n: nat, value: int, v: int)
    requires p < |list| && n < |list| && p != n
    requires forall k | 0 <= k < |list| :: list[k] in records && records[list[k]].begin <= records[list[k]].end
    requires records[list[p]].end == value - 1 && records[list[n]].begin == value + 1
    ensures var dropped := records[list[n] := records[list[n]].(deleted := true)];
            var list' := list[..n] + list[n + 1..];
            var p' := if p < n then p else p - 1;
            records[list[p]].begin <= v <= records[list[n]].end
            || (exists j :: 0 <= j < |list'| && j != p' && InRecord(dropped, list'[j], v))
            <==> Holds(records, list, v) || v == value
  {
    var dropped := records[list[n] := records[list[n]].(deleted := true)];
    var list' := list[..n] + list[n + 1..];
    var p' := if p < n then p else p - 1;
    if Holds(records, list, v) {
      var k :| 0 <= k < |list| && InRecord(records, list[k], v);
      assert k != p && k != n ==> InRecord(dropped, list'[if k < n then k else k - 1], v);
    }
    if records[list[p]].begin <= v <= records[list[n]].end && v != value {
      assert InRecord(records, list[if v < value then p else n], v);
    }
    if j :| 0 <= j < |list'| && j != p' && InRecord(dropped, list'[j], v) {
      assert InRecord(records, list[if j < n then j else j + 1], v);
    }
  }

  lemma Pairwise(records: Records, list: seq<string>, i: nat, j: nat)
    requires WellFormed(records, list) && i < |list| && j < |list| && i != j
    ensures list[i] != list[j] && Apart(records[list[i]], records[list[j]])
  {
    var a, b := if i < j then i else j, if i < j then j else i;
    assert list[a] != list[b] && Apart(records[list[a]], records[list[b]]);
  }

  // ----- taking one number out

  predicate Inside(i: Interval, value: int) {
    i.begin < value < i.end
  }

  /** What is left of an interval without the value: nothing, one piece, or two. */
  function Pieces(records: Records, uri: string, value: int, extra: string): (Records, seq<string>)
    requires uri in records
  {
    var i := records[uri];
    if i.begin == value then
      if i.begin < i.end then (records[uri := Interval(value + 1, i.end, false)], [uri])
      else (records[uri := i.(deleted := true)], [])
    else if i.end == value then (records[uri := Interval(i.begin, value - 1, false)], [uri])
    else
      (records[uri := Interval(i.begin, value - 1, false)][extra := Interval(value + 1, i.end, false)], [uri, extra])
  }

  lemma PiecesElsewhere(records: Records, list: seq<string>, k: nat, j: nat, value: int, extra: string)
    requires WellFormed(records, list) && k < |list| && j < |list| && j != k
    requires InRecord(records, list[k], value) && (Inside(records[list[k]], value) ==> extra !in records)
    ensures var records' := Pieces(records, list[k], value, extra).0;
            list[j] in records' && records'[list[j]] == records[list[j]]
    ensures !InRecord(records, list[j], value) && list[j] in records
  {
    Pairwise(records, list, j, k);
    OnlyHere(records, list, k, value);
  }

  /** The intervals but the one at k are apart from it, and a number is in it or in one of them. */
  lemma ApartFromOthers(records: Records, list: seq<string>, k: nat)
    requires WellFormed(records, list) && k < |list|
    ensures forall j | 0 <= j < |list| && j != k :: Apart(records[list[j]], records[list[k]])
    ensures forall v :: Holds(records, list, v) <==>
      records[list[k]].begin <= v <= records[list[k]].end || InOther(records, list, k, v)
  {
    forall j | 0 <= j < |list| && j != k ensures Apart(records[list[j]], records[list[k]]) {
      Pairwise(records, list, j, k);
    }
    forall v ensures Holds(records, list, v) <==>
      records[list[k]].begin <= v <= records[list[k]].end || InOther(records, list, k, v) {
      assert records[list[k]].begin <= v <= records[list[k]].end <==> InRecord(records, list[k], v);
    }
  }

  ghost predicate InOther(records: Records, list: seq<string>, k: nat, v: int) {
    exists j :: 0 <= j < |list| && j != k && InRecord(records, list[j], v)
  }

  lemma InOnlyOne(records: Records, list: seq<string>, k: nat, v: int)
    requires WellFormed(records, list) && k < |list| && InRecord(records, list[k], v)
    ensures !InOther(records, list, k, v)
  {
    OnlyHere(records, list, k, v);
  }

  lemma Cutting(records: Records, list: seq<string>, k: nat, value: int, extra: string)
    requires WellFormed(records, list) && k < |list| && InRecord(records, list[k], value)
    requires Inside(records[list[k]], value) ==> extra !in records
    ensures var (records', pieces) := Pieces(records, list[k], value, extra);
            var list' := list[..k] + pieces + list[k + 1..];
            && WellFormed(records', list')
            && forall v :: Holds(records', list', v) <==> Holds(records, list, v) && v != value
  {
    var i := records[list[k]];
    assert list[..k] + [list[k]] + list[k + 1..] == list;
    assert list[..k] + [] + list[k + 1..] == list[..k] + list[k + 1..];
    assert list[..k] + [list[k], extra] + list[k + 1..] == Inserted(list, k + 1, extra);
    ApartFromOthers(records, list, k);
    InOnlyOne(records, list, k, value);
    if i.begin == value == i.end {
      Drop(records, list, k);
      hide *;
    } else if i.begin == value || i.end == value {
      Shorten(records, list, k, if i.begin == value then Interval(value + 1, i.end, false) else Interval(i.begin, value - 1, false));
      hide WellFormed;
      hide Holds;
    } else {
      Split(records, list, k, value, extra);
      hide WellFormed;
      hide Holds;
    }
  }

  /** A part of an interval in its place. */
  lemma Shorten(records: Records, list: seq<string>, k: nat, part: Interval)
    requires WellFormed(records, list) && k < |list|
    requires records[list[k]].begin <= part.begin <= part.end <= records[list[k]].end && !part.deleted
    ensures var records' := records[list[k] := part];
            && WellFormed(records', list)
            && forall v :: Holds(records', list, v) <==> part.begin <= v <= part.end || InOther(records, list, k, v)
  {
    ApartFromOthers(records, list, k);
    ReplaceAt(records, list, k, part);
    hide WellFormed;
    hide Holds;
  }

  /** The parts before and after the value, the second one in a record of its own. */
  lemma Split(records: Records, list: seq<string>, k: nat, value: int, extra: string)
    requires WellFormed(records, list) && k < |list| && Inside(records[list[k]], value) && extra !in records
    ensures var i := records[list[k]];
            var records' := records[list[k] := Interval(i.begin, value - 1, false)][extra := Interval(value + 1, i.end, false)];
            var list' := Inserted(list, k + 1, extra);
            && WellFormed(records', list')
            && forall v :: Holds(records', list', v) <==>
                             i.begin <= v < value || value < v <= i.end || InOther(records, list, k, v)
  {
    var i := records[list[k]];
    var low, high := Interval(i.begin, value - 1, false), Interval(value + 1, i.end, false);
    var records' := records[list[k] := low];
    ApartFromOthers(records, list, k);
    Shorten(records, list, k, low);
    forall j | 0 <= j < |list| ensures Apart(records'[list[j]], high) && list[j] != extra {
      if j != k {
        Pairwise(records, list, j, k);
      }
    }
    Insert(records', list, k + 1, extra, high);
    hide WellFormed;
    hide Holds;
    hide Inserted;
  }

  /** Where the value was found, if anywhere, decides what revoking leaves. */
  lemma Revoked(
    records: Records, list: seq<string>, hit: Option<nat>, value: int, extra: string, records': Records, list': seq<string>)
    requires WellFormed(records, list)
    requires if hit.None? then
               records' == records && list' == list && forall k :: 0 <= k < |list| ==> !InRecord(records, list[k], value)
             else
               && hit.value < |list| && InRecord(records, list[hit.value], value)
               && (Inside(records[list[hit.value]], value) ==> extra !in records)
               && (var (r, pieces) := Pieces(records, list[hit.value], value, extra);
                   records' == r && list' == list[..hit.value] + pieces + list[hit.value + 1..])
    ensures WellFormed(records', list') && Denotes(records', list') == Denotes(records, list) - iset{value}
    ensures value !in Denotes(records, list) ==> records' == records && list' == list
  {
    if hit.Some? {
      Cutting(records, list, hit.value, value, extra);
    }
  }
}
