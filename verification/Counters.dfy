/** The reference counters of a right: how many records grant each flag. Counters are 16 bits wide and wrap around. */
module Counters {
  import opened Access
  import opened Letters
  import opened Wrappers

  const LIMIT: nat := 0x1_0000

  type Tally = map<char, nat>

  function CountOf(tally: Tally, flag: Flag): nat {
    if Letter(flag) in tally then tally[Letter(flag)] else 0
  }

  predicate InRange(tally: Tally) {
    forall c :: c in tally ==> tally[c] < LIMIT
  }

  /** One update of the counters: the flags of `cur` are granted once more, or, for a deletion, those also in `prev` once less. */
  datatype Change = Change(prev: Access, cur: Access, isDeleted: bool)

  /** What one update does to one flag: its counter, and whether the access that comes back still has it. */
  predicate Applied(tally: Tally, change: Change, flag: Flag, tally': Tally, out: Access) {
    var c := Letter(flag);
    if flag !in change.cur then
      flag !in out && Untouched(tally, c, tally')
    else if !change.isDeleted then
      flag in out && c in tally' && tally'[c] == (CountOf(tally, flag) + 1) % LIMIT
    else if flag in change.prev && c in tally then
      && c in tally' && tally'[c] == (tally[c] + LIMIT - 1) % LIMIT
      && (flag in out <==> tally'[c] != 0)
    else
      flag in out && Untouched(tally, c, tally')
  }

  predicate Untouched(tally: Tally, c: char, tally': Tally) {
    (c in tally' <==> c in tally) && (c in tally ==> tally'[c] == tally[c])
  }

  ghost predicate Updates(tally: Tally, change: Change, tally': Tally, out: Access) {
    && (forall flag :: Applied(tally, change, flag, tally', out))
    && forall c :: FlagOf(c).None? ==> Untouched(tally, c, tally')
  }

  /** The body of the loop, for the flag of one letter; no other flag is touched. */
  method UpdateCounter(counters: Tally, access: Access, letter: char, prevAccess: Access, isDeleted: bool)
    returns (outAccess: Access, counters': Tally)
    requires InRange(counters) && FlagOf(letter).Some?
    ensures Applied(counters, Change(prevAccess, access, isDeleted), FlagOf(letter).value, counters', outAccess)
    ensures forall c :: c != letter ==> Untouched(counters, c, counters')
    ensures forall f :: Letter(f) != letter ==> (f in outAccess <==> f in access)
    ensures InRange(counters')
  {
    outAccess, counters' := access, counters;
    var check := FlagOf(letter).value;
    if letter in counters {
      if check in outAccess {
        if isDeleted {
          if check in prevAccess {
            counters' := counters[letter := (counters[letter] + LIMIT - 1) % LIMIT];
            if counters'[letter] == 0 {
              outAccess := outAccess - {check};
            }
          }
        } else {
          counters' := counters[letter := (counters[letter] + 1) % LIMIT];
          outAccess := outAccess + {check};
        }
      }
    } else {
      if !isDeleted && check in outAccess {
        outAccess := outAccess + {check};
        counters' := counters[letter := 1];
      }
    }
  }

  method UpdateCounters(counters: Tally, prevAccess: Access, curAccess: Access, isDeleted: bool)
    returns (outAccess: Access, counters': Tally)
    requires InRange(counters)
    ensures Updates(counters, Change(prevAccess, curAccess, isDeleted), counters', outAccess) && InRange(counters')
    // a flag is dropped exactly when its last grant is deleted
    ensures outAccess <= curAccess
    ensures forall f :: f in curAccess && f !in outAccess <==>
      isDeleted && f in prevAccess && f in curAccess && CountOf(counters, f) == 1
  {
    ghost var change := Change(prevAccess, curAccess, isDeleted);
    outAccess, counters' := curAccess, counters;
    for i := 0 to |LETTERS|
      invariant forall f :: UpTo(i, counters, change, f, counters', outAccess)
      invariant forall c :: FlagOf(c).None? ==> Untouched(counters, c, counters')
      invariant InRange(counters')
    {
      ghost var mid, out := counters', outAccess;
      ListedOnce(i);
      outAccess, counters' := UpdateCounter(counters', outAccess, LETTERS[i], prevAccess, isDeleted);
      ghost var next := i + 1;
      forall f: Flag ensures UpTo(next, counters, change, f, counters', outAccess) {
        assert UpTo(i, counters, change, f, mid, out);
        OneMore(i, counters, change, f, mid, out, counters', outAccess);
      }
      forall c | FlagOf(c).None? ensures Untouched(counters, c, counters') {
        assert Untouched(counters, c, mid) && Untouched(mid, c, counters');
      }
    }
    forall f: Flag ensures Applied(counters, change, f, counters', outAccess) {
      assert UpTo(8, counters, change, f, counters', outAccess);
    }
    assert Updates(counters, change, counters', outAccess);
    DroppedAtZero(counters, change, counters', outAccess);
  }

  lemma OneMore(
    i: nat, tally: Tally, change: Change, f: Flag, mid: Tally, access: Access, tally': Tally, out: Access)
    requires i < |LETTERS| && FlagOf(LETTERS[i]).Some? && UpTo(i, tally, change, f, mid, access)
    requires Position(f) == i <==> Letter(f) == LETTERS[i]
    requires Applied(mid, Change(change.prev, access, change.isDeleted), FlagOf(LETTERS[i]).value, tally', out)
    requires Letter(f) != LETTERS[i] ==> Untouched(mid, Letter(f), tally') && (f in out <==> f in access)
    ensures UpTo(i + 1, tally, change, f, tally', out)
  {
    LettersDiffer(f, FlagOf(LETTERS[i]).value);
  }

  /** The flags at the first places of the list are done, the others are as they were. */
  predicate UpTo(i: nat, tally: Tally, change: Change, flag: Flag, tally': Tally, out: Access) {
    if Position(flag) < i then Applied(tally, change, flag, tally', out)
    else Untouched(tally, Letter(flag), tally') && (flag in out <==> flag in change.cur)
  }

  lemma DroppedAtZero(tally: Tally, change: Change, tally': Tally, out: Access)
    requires Updates(tally, change, tally', out) && InRange(tally)
    ensures out <= change.cur
    ensures forall f :: f in change.cur && f !in out <==>
      change.isDeleted && f in change.prev && f in change.cur && CountOf(tally, f) == 1
  {
    forall f: Flag
      ensures f in out ==> f in change.cur
      ensures f in change.cur && f !in out <==>
        change.isDeleted && f in change.prev && f in change.cur && CountOf(tally, f) == 1
    {
      assert Applied(tally, change, f, tally', out);
    }
  }

  /** Where the loop meets a flag. */
  function Position(flag: Flag): nat {
    match flag
    case Create => 0
    case Read => 1
    case Update => 2
    case Delete => 3
    case CantCreate => 4
    case CantRead => 5
    case CantUpdate => 6
    case CantDelete => 7
  }

  lemma ListedOnce(i: nat)
    requires i < |LETTERS|
    ensures FlagOf(LETTERS[i]).Some? && forall f :: Position(f) == i <==> Letter(f) == LETTERS[i]
  {
  }

  // ----- runs

  /** What the change means for the number of grants of a flag. */
  function Delta(change: Change, flag: Flag): int {
    if flag !in change.cur then 0
    else if !change.isDeleted then 1
    else if flag in change.prev then -1
    else 0
  }

  /** Additions minus deletions of the flag. */
  function Balance(changes: seq<Change>, flag: Flag): int {
    if changes == [] then 0
    else Balance(changes[..|changes| - 1], flag) + Delta(changes[|changes| - 1], flag)
  }

  /** The counters before the run and after each change. */
  ghost predicate IsRun(tallies: seq<Tally>, changes: seq<Change>) {
    && |tallies| == |changes| + 1 && InRange(tallies[0])
    && forall i | 0 <= i < |changes| :: Leads(tallies[i], changes[i], tallies[i + 1])
  }

  ghost predicate Leads(tally: Tally, change: Change, tally': Tally) {
    exists out :: Updates(tally, change, tally', out)
  }

  method Run(counters: Tally, changes: seq<Change>) returns (tallies: seq<Tally>)
    requires InRange(counters)
    ensures IsRun(tallies, changes) && tallies[0] == counters
  {
    tallies := [counters];
    for i := 0 to |changes|
      invariant IsRun(tallies, changes[..i]) && tallies[0] == counters && InRange(tallies[i])
    {
      var out, next := UpdateCounters(tallies[i], changes[i].prev, changes[i].cur, changes[i].isDeleted);
      assert Leads(tallies[i], changes[i], next);
      assert changes[..i + 1][..i] == changes[..i];
      tallies := tallies + [next];
    }
  }

  /** Over every run, a counter is additions minus deletions at every moment iff that number always fits the 16 bits. */
  lemma {:induction false} CountersExact(tallies: seq<Tally>, changes: seq<Change>, flag: Flag)
    requires IsRun(tallies, changes)
    ensures
      (forall i | 0 <= i <= |changes| ::
        CountOf(tallies[i], flag) == CountOf(tallies[0], flag) + Balance(changes[..i], flag))
      <==>
      (forall i | 0 <= i <= |changes| :: 0 <= CountOf(tallies[0], flag) + Balance(changes[..i], flag) < LIMIT)
  {
    var start := CountOf(tallies[0], flag);
    RunInRange(tallies, changes, flag);
    if forall i | 0 <= i <= |changes| :: 0 <= start + Balance(changes[..i], flag) < LIMIT {
      for i := 0 to |changes|
        invariant forall k | 0 <= k <= i :: CountOf(tallies[k], flag) == start + Balance(changes[..k], flag)
      {
        assert changes[..i + 1][..i] == changes[..i];
        CountStep(tallies[i], changes[i], tallies[i + 1], flag);
      }
    }
  }

  lemma CountStep(tally: Tally, change: Change, tally': Tally, flag: Flag)
    requires Leads(tally, change, tally') && CountOf(tally, flag) < LIMIT
    ensures CountOf(tally', flag) < LIMIT
    ensures 0 <= CountOf(tally, flag) + Delta(change, flag) < LIMIT ==>
      CountOf(tally', flag) == CountOf(tally, flag) + Delta(change, flag)
  {
    var out :| Updates(tally, change, tally', out);
    assert Applied(tally, change, flag, tally', out);
  }

  lemma RunInRange(tallies: seq<Tally>, changes: seq<Change>, flag: Flag)
    requires IsRun(tallies, changes)
    ensures forall i | 0 <= i <= |changes| :: CountOf(tallies[i], flag) < LIMIT
  {
    for i := 0 to |changes|
      invariant forall k | 0 <= k <= i :: CountOf(tallies[k], flag) < LIMIT
    {
      CountStep(tallies[i], changes[i], tallies[i + 1], flag);
    }
  }
}
