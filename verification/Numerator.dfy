/** The numerator: committed numbers of one scope as interval records, and the numbering of documents on top. */
module Numerator {
  import opened IntervalSet
  import opened Uris
  import opened Wrappers

  class Scope {
    var records: Records
    /** The interval list of the scope record, absent until the first commit. */
    var list: Option<seq<string>>

    ghost predicate Valid()
      reads this
    {
      WellFormed(records, Listed())
    }

    function Listed(): seq<string>
      reads this
    {
      if list.Some? then list.value else []
    }

    ghost function Committed(): iset<int>
      reads this
    {
      Denotes(records, Listed())
    }

    constructor ()
      ensures Valid() && Committed() == iset{}
    {
      records, list := map[], None;
    }

    /** Adds exactly the value; answers false, and changes nothing, just when it was there. */
    method CommitValue(value: int) returns (added: bool)
      requires Valid()
      modifies this
      ensures Valid()
      ensures added <==> value !in old(Committed())
      ensures Committed() == old(Committed()) + iset{value}
      ensures !added ==> records == old(records) && list == old(list)
    {
      if list.None? {
        AddInterval([], value);
        return true;
      }
      var uris := list.value;
      var prev: Option<nat>, next: Option<nat> := None, None;
      for i := 0 to |uris|
        invariant forall k :: 0 <= k < i ==> !InRecord(records, uris[k], value)
        invariant if prev.Some? then prev.value < i && records[uris[prev.value]].end == value - 1
                  else forall k :: 0 <= k < i ==> records[uris[k]].end != value - 1
        invariant if next.Some? then next.value < i && records[uris[next.value]].begin == value + 1
                  else forall k :: 0 <= k < i ==> records[uris[k]].begin != value + 1
      {
        var interval := records[uris[i]];
        if interval.begin <= value <= interval.end {
          assert InRecord(records, uris[i], value);
          return false;
        } else if interval.begin == value + 1 {
          next := Some(i);
        } else if interval.end == value - 1 {
          prev := Some(i);
        }
      }
      if prev.Some? && next.Some? {
        MergeBoth(uris, prev.value, next.value, value);
      } else if prev.Some? {
        Grow(uris, prev.value, records[uris[prev.value]].(end := value), value);
      } else if next.Some? {
        Grow(uris, next.value, records[uris[next.value]].(begin := value), value);
      } else {
        AddInterval(uris, value);
      }
      return true;
    }

    /** The value is next to one interval only, which takes it in. */
    method Grow(uris: seq<string>, k: nat, interval: Interval, value: int)
      requires Valid() && list == Some(uris) && k < |uris|
      requires var current := records[uris[k]];
               || (interval == current.(end := value) && current.end == value - 1
                   && forall j :: 0 <= j < |uris| ==> records[uris[j]].begin != value + 1)
               || (interval == current.(begin := value) && current.begin == value + 1
                   && forall j :: 0 <= j < |uris| ==> records[uris[j]].end != value - 1)
      modifies this
      ensures Valid() && Committed() == old(Committed()) + iset{value}
    {
      forall j | 0 <= j < |uris| && j != k ensures Apart(records[uris[j]], interval) {
        assert if j < k then Apart(records[uris[j]], records[uris[k]]) else Apart(records[uris[k]], records[uris[j]]);
      }
      ReplaceAt(records, uris, k, interval);
      records := records[uris[k] := interval];
    }

    /** The value is next to no interval and gets one of its own. */
    method AddInterval(uris: seq<string>, value: int)
      requires Valid() && Listed() == uris
      requires forall k :: 0 <= k < |uris| ==> Apart(records[uris[k]], Interval(value, value, false))
      modifies this
      ensures Valid() && Committed() == old(Committed()) + iset{value}
    {
      var id := GenUri(records.Keys);
      var single := Interval(value, value, false);
      Insert(records, uris, |uris|, id, single);
      assert Inserted(uris, |uris|, id) == uris + [id];
      records := records[id := single];
      list := Some(uris + [id]);
    }

    /** The value closes the gap between two intervals: the first takes over the second, whose record is deleted. */
    method MergeBoth(uris: seq<string>, p: nat, n: nat, value: int)
      requires Valid() && list == Some(uris) && p < |uris| && n < |uris|
      requires records[uris[p]].end == value - 1 && records[uris[n]].begin == value + 1
      modifies this
      ensures Valid() && Committed() == old(Committed()) + iset{value}
    {
      ghost var committed := Committed();
      Merging(records, uris, p, n, value);
      assert Denotes(Merged(records, uris, p, n), uris[..n] + uris[n + 1..]) == committed + iset{value};
      forall i | 0 <= i < |uris| && i != n ensures uris[i] != uris[n] {
        Pairwise(records, uris, i, n);
      }
      hide WellFormed;
      hide Denotes;
      TakeOver(uris, p, n);
      hide Merged;
      DropFrom(uris, n);
    }

    /** The record of the first interval reaches to the end of the second, which is marked deleted. */
    method TakeOver(uris: seq<string>, p: nat, n: nat)
      requires Valid() && Listed() == uris && p < |uris| && n < |uris| && p != n
      modifies this`records
      ensures records == Merged(old(records), uris, p, n)
    {
      Pairwise(records, uris, p, n);
      ghost var was := records;
      var merged := records[uris[p]].(end := records[uris[n]].end);
      var nextUri := uris[n];
      records := records[uris[p] := merged];
      records := records[nextUri := records[nextUri].(deleted := true)];
      assert records == Merged(was, uris, p, n);
    }

    /** One interval is left out of the list. */
    method DropFrom(uris: seq<string>, n: nat)
      requires n < |uris| && forall i | 0 <= i < |uris| && i != n :: uris[i] != uris[n]
      modifies this`list
      ensures list == Some(uris[..n] + uris[n + 1..])
    {
      var intervals := [];
      for i := 0 to |uris|
        invariant intervals == if i <= n then uris[..i] else uris[..n] + uris[n + 1..i]
      {
        if uris[i] != uris[n] {
          intervals := intervals + [uris[i]];
        }
      }
      assert uris[n + 1..|uris|] == uris[n + 1..];
      list := Some(intervals);
    }

    /** Removes exactly the value; when it was not there, nothing changes. */
    method RevokeValue(value: int)
      requires Valid()
      modifies this
      ensures Valid()
      ensures Committed() == old(Committed()) - iset{value}
      ensures value !in old(Committed()) ==> records == old(records) && Listed() == old(Listed())
    {
      var intervals := [];
      var uris := Listed();
      ghost var was := records;
      ghost var hit: Option<nat>, extra, pieces := None, "", [];
      ghost var before := Committed();
      assert forall k :: 0 <= k < |uris| ==> uris[k] in was && was[uris[k]].begin <= was[uris[k]].end;
      hide WellFormed;
      hide Pieces;
      hide Inside;
      hide Denotes;
      hide Holds;
      for i := 0 to |uris|
        invariant Listed() == uris
        invariant if hit.None? then
                    records == was && intervals == uris[..i] && forall k :: 0 <= k < i ==> !InRecord(was, uris[k], value)
                  else
                    && hit.value < i && InRecord(was, uris[hit.value], value)
                    && (Inside(was[uris[hit.value]], value) ==> extra !in was)
                    && (records, pieces) == Pieces(was, uris[hit.value], value, extra)
                    && intervals == uris[..hit.value] + pieces + uris[hit.value + 1..i]
      {
        if hit.Some? {
          PiecesElsewhere(was, uris, hit.value, i, value, extra);
        }
        var interval := records[uris[i]];
        if interval.begin == value || interval.end == value || interval.begin < value < interval.end {
          hit := Some(i);
          var kept;
          kept, extra := CutInterval(uris[i], value);
          pieces := kept;
          intervals := intervals + kept;
        } else {
          intervals := intervals + [uris[i]];
        }
      }
      list := Some(intervals);
      Revoked(was, uris, hit, value, extra, records, intervals);
    }

    /** The value is taken out of one interval, whose record is cut, split in two, or deleted. */
    method CutInterval(uri: string, value: int) returns (intervals: seq<string>, ghost extra: string)
      requires uri in records && InRecord(records, uri, value)
      modifies this`records
      ensures (records, intervals) == Pieces(old(records), uri, value, extra)
      ensures Inside(old(records)[uri], value) ==> extra !in old(records)
    {
      intervals, extra := [uri], "";
      var interval := records[uri];
      if interval.begin == value {
        if interval.begin < interval.end {
          records := records[uri := Interval(value + 1, interval.end, false)];
        } else {
          records := records[uri := interval.(deleted := true)];
          intervals := [];
        }
      } else if interval.end == value {
        records := records[uri := Interval(interval.begin, value - 1, false)];
      } else {
        var newUri := GenUri(records.Keys);
        records := records[uri := Interval(interval.begin, value - 1, false)];
        records := records[newUri := Interval(value + 1, interval.end, false)];
        intervals, extra := [uri, newUri], newUri;
      }
    }

    /** The value after the greatest committed one, or 1 if none is positive; the first value for an empty scope. */
    method NextValueSimple(firstValue: int) returns (next: int)
      requires Valid()
      ensures forall v :: v in Committed() ==> v < next
      ensures if Listed() == [] then next == firstValue else next == 1 || (next > 1 && next - 1 in Committed())
    {
      if list.None? || |list.value| == 0 {
        return firstValue;
      }
      var max := 0;
      for i := 0 to |list.value|
        invariant max >= 0 && forall k :: 0 <= k < i ==> records[list.value[k]].end <= max
        invariant max == 0 || exists k :: 0 <= k < i && InRecord(records, list.value[k], max)
      {
        var end := records[list.value[i]].end;
        if end > max {
          max := end;
          assert InRecord(records, list.value[i], max);
        }
      }
      return max + 1;
    }

    /** Any run of commits and revokes leaves exactly what the same run leaves of the set. */
    method RunAll(steps: seq<Step>)
      requires Valid()
      modifies this
      ensures Valid() && Committed() == After(old(Committed()), steps)
    {
      assert steps[..0] == [];
      for i := 0 to |steps|
        invariant Valid() && Committed() == After(old(Committed()), steps[..i])
      {
        assert steps[..i + 1][..i] == steps[..i];
        match steps[i] {
          case Commit(value) => var _ := CommitValue(value);
          case Revoke(value) => RevokeValue(value);
        }
      }
      assert steps[..|steps|] == steps;
    }

    /** Revoking what was just committed gives the old set back. */
    method CommitThenRevoke(value: int) returns (added: bool)
      requires Valid()
      modifies this
      ensures Valid() && (added ==> Committed() == old(Committed()))
    {
      added := CommitValue(value);
      RevokeValue(value);
    }
  }

  datatype Step = Commit(value: int) | Revoke(value: int)

  /** What a run of commits and revokes does to a set of numbers. */
  ghost function After(committed: iset<int>, steps: seq<Step>): iset<int> {
    if steps == [] then committed
    else
      var before := After(committed, steps[..|steps| - 1]);
      match steps[|steps| - 1]
      case Commit(value) => before + iset{value}
      case Revoke(value) => before - iset{value}
  }
}
