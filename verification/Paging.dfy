/** Full-text search by pages: the server's loop over ranked matches, and the client that asks for page after page. */
module Paging {
  import opened Wrappers

  const DEFAULT: int := 10000

  /** Who may read what, when access is checked at all. */
  datatype Guard = Checked(allowed: string -> bool) | Unchecked

  predicate Passes(guard: Guard, id: string) {
    guard.Checked? ==> guard.allowed(id)
  }

  /** The matches that may be seen, in their order. */
  function Visible(guard: Guard, matches: seq<string>): seq<string> {
    if matches == [] then []
    else
      Visible(guard, matches[..|matches| - 1])
      + if Passes(guard, matches[|matches| - 1]) then [matches[|matches| - 1]] else []
  }

  lemma {:induction false} VisibleConcat(guard: Guard, a: seq<string>, b: seq<string>)
    ensures Visible(guard, a + b) == Visible(guard, a) + Visible(guard, b)
  {
    if b == [] {
      assert a + b == a;
    } else {
      var k := |b| - 1;
      assert (a + b)[..|a| + k] == a + b[..k];
      VisibleConcat(guard, a, b[..k]);
    }
  }

  /** Each match that may be seen is there as often as among the matches, and nothing else is there. */
  lemma {:induction false} VisibleCounts(guard: Guard, matches: seq<string>, id: string)
    ensures multiset(Visible(guard, matches))[id]
      == if guard.Unchecked? || guard.allowed(id) then multiset(matches)[id] else 0
  {
    hide Visible;
    if matches == [] {
      NoMatches(guard);
    } else {
      var k := |matches| - 1;
      VisibleCounts(guard, matches[..k], id);
      VisibleLast(guard, matches[..k], matches[k]);
      CountMore(matches[..k], matches[k], id);
      CountMore(Visible(guard, matches[..k]), matches[k], id);
      assert matches == matches[..k] + [matches[k]];
    }
  }

  lemma NoMatches(guard: Guard)
    ensures Visible(guard, []) == []
  {
  }

  lemma VisibleLast(guard: Guard, before: seq<string>, last: string)
    ensures Visible(guard, before + [last])
      == if guard.Unchecked? || guard.allowed(last) then Visible(guard, before) + [last] else Visible(guard, before)
  {
    assert (before + [last])[..|before|] == before && Visible(guard, before) + [] == Visible(guard, before);
  }

  lemma CountMore(ids: seq<string>, last: string, id: string)
    ensures multiset(ids + [last])[id] == multiset(ids)[id] + if id == last then 1 else 0
  {
  }

  /** In the order of the matches: one that may be seen comes right behind those of before that may be. */
  lemma VisibleInOrder(guard: Guard, before: seq<string>, id: string, after: seq<string>)
    requires guard.Unchecked? || guard.allowed(id)
    ensures Visible(guard, before) + [id] <= Visible(guard, before + [id] + after)
  {
    hide Visible;
    VisibleLast(guard, before, id);
    VisibleConcat(guard, before + [id], after);
  }

  /** The answer to one query, or no answer: an entry without an id is looked at again and again. */
  datatype Answer = NoTicket | Page(found: seq<string>, count: nat, processed: nat, cursor: nat, estimated: nat) | Stuck

  /** What a search returns for one page: the window of matches behind `from`, which is empty behind the last match. */
  function Window(matches: seq<string>, from: nat, limit: nat): (to: nat)
    ensures from <= to && (from <= |matches| ==> to <= |matches|) && (from > |matches| ==> to == from)
  {
    if from > |matches| then from else if from + limit < |matches| then from + limit else |matches|
  }

  function OrDefault(n: int): int {
    if n == 0 then DEFAULT else n
  }

  /** What may be seen from one place to another. */
  function Seen(guard: Guard, matches: seq<string>, from: nat, to: nat): seq<string>
    requires from <= to <= |matches|
  {
    Visible(guard, matches[from..to])
  }

  lemma SeenConcat(guard: Guard, matches: seq<string>, a: nat, b: nat, c: nat)
    requires a <= b <= c <= |matches|
    ensures Seen(guard, matches, a, c) == Seen(guard, matches, a, b) + Seen(guard, matches, b, c)
  {
    assert matches[a..c] == matches[a..b] + matches[b..c];
    VisibleConcat(guard, matches[a..b], matches[b..c]);
  }

  lemma SeenNone(guard: Guard, matches: seq<string>, from: nat)
    requires from <= |matches|
    ensures Seen(guard, matches, from, from) == []
  {
  }

  lemma SeenOne(guard: Guard, matches: seq<string>, from: nat, it: nat)
    requires from <= it < |matches|
    ensures Seen(guard, matches, from, it + 1)
      == Seen(guard, matches, from, it) + if Passes(guard, matches[it]) then [matches[it]] else []
  {
    assert matches[from..it + 1][..it - from] == matches[from..it];
  }

  /** The page is full: the loop looks only after it has found one more. */
  predicate Full(guard: Guard, matches: seq<string>, from: nat, to: nat, top: int)
    requires from <= to <= |matches|
  {
    Seen(guard, matches, from, to) != [] && |Seen(guard, matches, from, to)| >= top
  }

  ghost predicate NotFullUpTo(guard: Guard, matches: seq<string>, from: nat, to: nat, top: int)
    requires from <= to <= |matches|
  {
    forall c | from <= c <= to :: !Full(guard, matches, from, c, top)
  }

  lemma NextNotFull(guard: Guard, matches: seq<string>, from: nat, it: nat, top: int)
    requires from <= it < |matches| && NotFullUpTo(guard, matches, from, it, top)
    requires Passes(guard, matches[it]) ==> |Seen(guard, matches, from, it + 1)| < top
    ensures NotFullUpTo(guard, matches, from, it + 1, top)
  {
    SeenOne(guard, matches, from, it);
    hide Seen;
    assert !Full(guard, matches, from, it, top);
    if !Passes(guard, matches[it]) {
      assert Seen(guard, matches, from, it + 1) == Seen(guard, matches, from, it);
    }
  }

  /** A page ends where it is full first, or with its window. */
  ghost predicate EndsAt(guard: Guard, matches: seq<string>, from: nat, to: nat, cursor: nat, top: int)
    requires from <= to <= |matches|
  {
    && from <= cursor <= to
    && (cursor > from ==> NotFullUpTo(guard, matches, from, cursor - 1, top))
    && (cursor < to ==> Full(guard, matches, from, cursor, top))
  }

  /** The loop comes to an entry without an id before its page is full. */
  ghost predicate BlankFirst(guard: Guard, matches: seq<string>, from: nat, to: nat, top: int)
    requires from <= to <= |matches|
  {
    exists b | from <= b < to :: matches[b] == "" && NotFullUpTo(guard, matches, from, b, top)
  }

  method Exec(userUri: string, matches: seq<string>, estimated: nat, from: nat, inTop: int, inLimit: nat, guard: Guard)
    returns (answer: Answer)
    ensures userUri == "" <==> answer.NoTicket?
    ensures userUri != "" && from > |matches| ==> answer == Page([], 0, 0, from, estimated)
    ensures answer.Page? && from <= |matches| ==>
      && EndsAt(guard, matches, from, Window(matches, from, OrDefault(inLimit)), answer.cursor, OrDefault(inTop))
      && answer.found == Seen(guard, matches, from, answer.cursor) && answer.count == |answer.found|
      && answer.processed == answer.cursor - from && answer.estimated == estimated
    ensures answer.Stuck? <==>
      userUri != "" && from <= |matches| && BlankFirst(
        guard, matches, from, Window(matches, from, OrDefault(inLimit)), OrDefault(inTop))
  {
    hide Seen;
    if userUri == "" {
      return NoTicket;
    }
    var top, limit := OrDefault(inTop), OrDefault(inLimit);
    var readCount, processed := 0, 0;
    var found: seq<string> := [];
    var to := Window(matches, from, limit);
    var it := from;
    if from > |matches| {
      return Page([], 0, 0, from, estimated);
    }
    SeenNone(guard, matches, from);
    while it < to
      invariant from <= it <= to && processed == it - from && readCount == |found|
      invariant found == Seen(guard, matches, from, it) && NotFullUpTo(guard, matches, from, it, top)
      invariant forall b | from <= b < it :: matches[b] != ""
    {
      SeenOne(guard, matches, from, it);
      var subjectId := matches[it];
      if subjectId == "" {
        return Stuck;
      }
      processed := processed + 1;
      if Passes(guard, subjectId) {
        found := found + [subjectId];
        readCount := readCount + 1;
        if readCount >= top {
          break;
        }
      }
      NextNotFull(guard, matches, from, it, top);
      it := it + 1;
    }
    answer := Page(found, readCount, processed, from + processed, estimated);
  }

  /** A page goes through as many matches as asked for, or stops earlier at the last match or once enough is found; 0 stands for 10000. */
  lemma PageStops(guard: Guard, matches: seq<string>, from: nat, inTop: int, inLimit: nat, cursor: nat)
    requires from <= |matches|
    requires EndsAt(guard, matches, from, Window(matches, from, OrDefault(inLimit)), cursor, OrDefault(inTop))
    ensures var top, limit := if inTop == 0 then 10000 else inTop, if inLimit == 0 then 10000 else inLimit;
            && from <= cursor <= from + limit && cursor <= |matches|
            && (cursor < from + limit && cursor < |matches| ==> |Seen(guard, matches, from, cursor)| >= top)
            && (cursor > from && Seen(guard, matches, from, cursor - 1) != [] ==> |Seen(guard, matches, from, cursor - 1)| < top)
  {
    hide Seen;
    if cursor > from {
      assert !Full(guard, matches, from, cursor - 1, OrDefault(inTop));
    }
  }

  // ----- page after page

  /** A page with anything in its window gets ahead; behind the last match there is nothing. */
  lemma Progress(guard: Guard, matches: seq<string>, from: nat, to: nat, cursor: nat, top: int)
    requires from <= to <= |matches| && EndsAt(guard, matches, from, to, cursor, top)
    ensures from < to ==> from < cursor
    ensures from == |matches| ==> cursor == from && Seen(guard, matches, from, cursor) == []
  {
    SeenNone(guard, matches, from);
  }

  const PAGE_TOP: int := 10
  const PAGE_LIMIT: nat := 1000

  /** Where the client may stop: enough is found, or the cursor has reached the estimate. */
  predicate Satisfied(results: seq<string>, limit: nat, cursor: nat, estimated: nat) {
    |results| >= limit || cursor >= estimated
  }

  // ----- how far n requests get

  /** The first place, from c on, where the page is full, or the end of its window. */
  function PageEnd(guard: Guard, matches: seq<string>, from: nat, c: nat, to: nat, top: int): (cursor: nat)
    requires from <= c <= to <= |matches|
    ensures c <= cursor <= to
    decreases |matches| - c
  {
    if c == to || Full(guard, matches, from, c, top) then c else PageEnd(guard, matches, from, c + 1, to, top)
  }

  /** There is only one place where a page can end. */
  lemma {:induction false} EndsAtOnce(
    guard: Guard, matches: seq<string>, from: nat, c: nat, to: nat, cursor: nat, top: int)
    requires from <= c <= cursor <= to <= |matches| && EndsAt(guard, matches, from, to, cursor, top)
    ensures PageEnd(guard, matches, from, c, to, top) == cursor
    decreases |matches| - c
  {
    hide Full;
    if c < cursor {
      EndsAtOnce(guard, matches, from, c + 1, to, cursor, top);
    }
  }

  datatype Client = Client(cursor: nat, results: seq<string>)

  /** Where the client is after n requests, if it goes on whatever it has found. */
  function AfterRequests(guard: Guard, matches: seq<string>, start: Client, n: nat): (client: Client)
    requires start.cursor <= |matches|
    ensures client.cursor <= |matches|
  {
    if n == 0 then start
    else
      var before := AfterRequests(guard, matches, start, n - 1);
      var to := Window(matches, before.cursor, PAGE_LIMIT);
      var cursor := PageEnd(guard, matches, before.cursor, before.cursor, to, PAGE_TOP);
      Client(cursor, before.results + Seen(guard, matches, before.cursor, cursor))
  }

  lemma {:induction false} NotFullAtStart(guard: Guard, matches: seq<string>, from: nat, to: nat, top: int)
    requires from < to <= |matches|
    ensures from < PageEnd(guard, matches, from, from, to, top)
  {
    SeenNone(guard, matches, from);
  }

  /** After n requests at least n matches have been gone through, or all there are; and all that may be seen of them is found. */
  lemma {:induction false} RequestsReach(guard: Guard, matches: seq<string>, start: Client, n: nat)
    requires start.cursor <= |matches|
    ensures var client := AfterRequests(guard, matches, start, n);
            && start.cursor <= client.cursor
            && (client.cursor == |matches| || client.cursor >= start.cursor + n)
            && client.results == start.results + Seen(guard, matches, start.cursor, client.cursor)
  {
    hide *;
    if n == 0 {
      NoRequest(guard, matches, start);
      SeenNone(guard, matches, start.cursor);
      assert start.results + [] == start.results;
    } else {
      RequestsReach(guard, matches, start, n - 1);
      OneRequestOn(guard, matches, start, n);
      var before, client := AfterRequests(guard, matches, start, n - 1), AfterRequests(guard, matches, start, n);
      SeenConcat(guard, matches, start.cursor, before.cursor, client.cursor);
      assert start.results + Seen(guard, matches, start.cursor, before.cursor) + Seen(guard, matches, before.cursor, client.cursor)
          == start.results + (Seen(guard, matches, start.cursor, before.cursor)
                              + Seen(guard, matches, before.cursor, client.cursor));
    }
  }

  lemma NoRequest(guard: Guard, matches: seq<string>, start: Client)
    requires start.cursor <= |matches|
    ensures AfterRequests(guard, matches, start, 0) == start
  {
  }

  lemma OneRequestOn(guard: Guard, matches: seq<string>, start: Client, n: nat)
    requires start.cursor <= |matches| && n > 0
    ensures var before, client := AfterRequests(guard, matches, start, n - 1), AfterRequests(guard, matches, start, n);
            && before.cursor <= client.cursor && (before.cursor < |matches| ==> before.cursor < client.cursor)
            && client.results == before.results + Seen(guard, matches, before.cursor, client.cursor)
  {
    var before := AfterRequests(guard, matches, start, n - 1);
    var to := Window(matches, before.cursor, PAGE_LIMIT);
    if before.cursor < to {
      NotFullAtStart(guard, matches, before.cursor, to, PAGE_TOP);
    }
    hide Seen;
    hide PageEnd;
  }

  /** One request of the client: up to 10 more that may be seen, out of up to 1000 matches; fewer of both only at the end. */
  lemma OneRequestShows(guard: Guard, matches: seq<string>, start: Client)
    requires start.cursor <= |matches|
    ensures var next := AfterRequests(guard, matches, start, 1);
            var seen := |next.results| - |start.results|;
            && start.cursor <= next.cursor <= start.cursor + 1000 && 0 <= seen <= 10
            && (seen == 10 || next.cursor == start.cursor + 1000 || next.cursor == |matches|)
            && next.results == start.results + Seen(guard, matches, start.cursor, next.cursor)
  {
    var to := Window(matches, start.cursor, PAGE_LIMIT);
    NoRequest(guard, matches, start);
    RequestsReach(guard, matches, start, 1);
    var next := AfterRequests(guard, matches, start, 1);
    assert next.cursor == PageEnd(guard, matches, start.cursor, start.cursor, to, PAGE_TOP);
    NotFullBefore(guard, matches, start.cursor, start.cursor, to, PAGE_TOP);
    if next.cursor > start.cursor {
      SeenOne(guard, matches, start.cursor, next.cursor - 1);
      assert !Full(guard, matches, start.cursor, next.cursor - 1, PAGE_TOP);
    } else {
      SeenNone(guard, matches, start.cursor);
    }
    hide Seen;
    hide PageEnd;
    hide AfterRequests;
  }

  /** The client can be satisfied: the estimate is not beyond the matches, or enough of the rest may be seen. */
  predicate Satisfiable(guard: Guard, matches: seq<string>, estimated: nat, start: Client, limit: nat)
    requires start.cursor <= |matches|
  {
    estimated <= |matches| || |start.results + Seen(guard, matches, start.cursor, |matches|)| >= limit
  }

  /** Some request satisfies the client if and only if it can be satisfied; otherwise it asks for ever. */
  lemma EndsIff(guard: Guard, matches: seq<string>, estimated: nat, start: Client, limit: nat)
    requires start.cursor <= |matches|
    ensures
      (exists n: nat :: n > 0 && SatisfiedAfter(guard, matches, estimated, start, limit, n))
      <==> Satisfiable(guard, matches, estimated, start, limit)
  {
    if n: nat :| n > 0 && SatisfiedAfter(guard, matches, estimated, start, limit, n) {
      RequestsReach(guard, matches, start, n);
      var client := AfterRequests(guard, matches, start, n);
      SeenConcat(guard, matches, start.cursor, client.cursor, |matches|);
    }
    if Satisfiable(guard, matches, estimated, start, limit) {
      var n := |matches| - start.cursor + 1;
      RequestsReach(guard, matches, start, n);
      assert SatisfiedAfter(guard, matches, estimated, start, limit, n);
    }
  }

  predicate SatisfiedAfter(guard: Guard, matches: seq<string>, estimated: nat, start: Client, limit: nat, n: nat)
    requires start.cursor <= |matches|
  {
    var client := AfterRequests(guard, matches, start, n);
    Satisfied(client.results, limit, client.cursor, estimated)
  }

  /** With an estimate beyond the matches and too few of them to be seen, no request is the last. */
  lemma AsksForEver(guard: Guard, matches: seq<string>, estimated: nat, limit: nat, n: nat)
    requires estimated > |matches| && |Visible(guard, matches)| < limit && n > 0
    ensures !SatisfiedAfter(guard, matches, estimated, Client(0, []), limit, n)
  {
    EndsIff(guard, matches, estimated, Client(0, []), limit);
    assert matches[0..|matches|] == matches;
    assert [] + Seen(guard, matches, 0, |matches|) == Visible(guard, matches);
  }

  /** The first of the requests that satisfy the client. */
  ghost predicate IsFirst(guard: Guard, matches: seq<string>, estimated: nat, start: Client, limit: nat, n: nat)
    requires start.cursor <= |matches|
  {
    && n > 0 && SatisfiedAfter(guard, matches, estimated, start, limit, n)
    && forall m | 0 < m < n :: !SatisfiedAfter(guard, matches, estimated, start, limit, m)
  }

  lemma FirstRequest(guard: Guard, matches: seq<string>, estimated: nat, start: Client, limit: nat) returns (n: nat)
    requires start.cursor <= |matches| && Satisfiable(guard, matches, estimated, start, limit)
    ensures IsFirst(guard, matches, estimated, start, limit, n)
  {
    hide Satisfiable;
    hide SatisfiedAfter;
    EndsIff(guard, matches, estimated, start, limit);
    n :| n > 0 && SatisfiedAfter(guard, matches, estimated, start, limit, n);
    n := FirstUpTo(guard, matches, estimated, start, limit, n);
  }

  lemma FirstUpTo(guard: Guard, matches: seq<string>, estimated: nat, start: Client, limit: nat, n: nat) returns (k: nat)
    requires start.cursor <= |matches| && n > 0 && SatisfiedAfter(guard, matches, estimated, start, limit, n)
    ensures IsFirst(guard, matches, estimated, start, limit, k)
    decreases n
  {
    hide SatisfiedAfter;
    k := n;
    if m: nat :| 0 < m < n && SatisfiedAfter(guard, matches, estimated, start, limit, m) {
      k := FirstUpTo(guard, matches, estimated, start, limit, m);
    }
  }

  /** The same of the client one request further. */
  lemma FirstFromNext(
    guard: Guard, matches: seq<string>, estimated: nat, start: Client, next: Client, limit: nat, n: nat, k: nat)
    requires start.cursor <= |matches| && next.cursor <= |matches| && AfterRequests(guard, matches, start, 1) == next
    requires IsFirst(guard, matches, estimated, start, limit, n) && IsFirst(guard, matches, estimated, next, limit, k)
    requires !SatisfiedAfter(guard, matches, estimated, start, limit, 1)
    ensures n == k + 1 && AfterRequests(guard, matches, start, n) == AfterRequests(guard, matches, next, k)
  {
    hide AfterRequests;
    assert n > 1;
    OneMoreRequest(guard, matches, start, next, k);
    OneMoreRequest(guard, matches, start, next, n - 1);
    assert SatisfiedAfter(guard, matches, estimated, start, limit, k + 1);
    assert SatisfiedAfter(guard, matches, estimated, next, limit, n - 1);
    hide SatisfiedAfter;
  }

  // ----- entries without an id

  lemma {:induction false} NotFullBefore(guard: Guard, matches: seq<string>, from: nat, c: nat, to: nat, top: int)
    requires from <= c <= to <= |matches|
    ensures var end := PageEnd(guard, matches, from, c, to, top);
            && (forall d | c <= d < end :: !Full(guard, matches, from, d, top))
            && (end < to ==> Full(guard, matches, from, end, top))
    decreases |matches| - c
  {
    hide Full;
    if c < to && !Full(guard, matches, from, c, top) {
      NotFullBefore(guard, matches, from, c + 1, to, top);
    }
  }

  /** The loop comes to one just when there is one before the end of the page. */
  lemma BlankFirstIff(guard: Guard, matches: seq<string>, from: nat, to: nat, top: int)
    requires from <= to <= |matches|
    ensures BlankFirst(guard, matches, from, to, top)
      <==> "" in matches[from..PageEnd(guard, matches, from, from, to, top)]
  {
    var end := PageEnd(guard, matches, from, from, to, top);
    NotFullBefore(guard, matches, from, from, to, top);
    hide Full;
    hide PageEnd;
    if b :| from <= b < to && matches[b] == "" && NotFullUpTo(guard, matches, from, b, top) {
      assert b < end;
      assert matches[from..end][b - from] == "";
    }
    if "" in matches[from..end] {
      var i :| 0 <= i < end - from && matches[from..end][i] == "";
      assert matches[from + i] == "" && NotFullUpTo(guard, matches, from, from + i, top);
    }
  }

  /** The cursor after the first request, and that the page of it is where the loop can get stuck. */
  lemma FirstPage(guard: Guard, matches: seq<string>, start: Client, n: nat)
    requires start.cursor <= |matches| && n > 0
    ensures var to, first := Window(matches, start.cursor, PAGE_LIMIT), AfterRequests(guard, matches, start, 1);
            && start.cursor <= first.cursor <= AfterRequests(guard, matches, start, n).cursor
            && (BlankFirst(guard, matches, start.cursor, to, PAGE_TOP) <==> "" in matches[start.cursor..first.cursor])
  {
    var to, first := Window(matches, start.cursor, PAGE_LIMIT), AfterRequests(guard, matches, start, 1);
    NoRequest(guard, matches, start);
    assert first.cursor == PageEnd(guard, matches, start.cursor, start.cursor, to, PAGE_TOP);
    BlankFirstIff(guard, matches, start.cursor, to, PAGE_TOP);
    hide AfterRequests;
    hide PageEnd;
    hide BlankFirst;
    OneMoreRequest(guard, matches, start, first, n - 1);
    RequestsReach(guard, matches, first, n - 1);
  }

  // ----- the search of the client

  /**
   Page after page until the client is satisfied, as soon as it is; no match is skipped or shown twice. There is an answer just
   when no entry without an id comes before the end of the last page.
   */
  method IncrementalSearch(
    userUri: string, matches: seq<string>, estimated: nat, cursor: nat, limit: nat, results: seq<string>, guard: Guard)
    returns (found: Option<seq<string>>, ghost requests: nat)
    requires cursor <= |matches| && Satisfiable(guard, matches, estimated, Client(cursor, results), limit)
    ensures IsFirst(guard, matches, estimated, Client(cursor, results), limit, requests)
    ensures var last := AfterRequests(guard, matches, Client(cursor, results), requests);
            && cursor <= last.cursor
            && (found.Some? <==> userUri != "" && "" !in matches[cursor..last.cursor])
            && (found.Some? ==> found.value == last.results == results + Seen(guard, matches, cursor, last.cursor))
    decreases |matches| - cursor
  {
    hide Seen;
    hide AfterRequests;
    hide Satisfiable;
    hide IsFirst;
    hide BlankFirst;
    hide EndsAt;
    ghost var start := Client(cursor, results);
    requests := FirstRequest(guard, matches, estimated, start, limit);
    FirstIsPositive(guard, matches, estimated, start, limit, requests);
    RequestsReach(guard, matches, start, requests);
    FirstPage(guard, matches, start, requests);
    ghost var first, last := AfterRequests(guard, matches, start, 1), AfterRequests(guard, matches, start, requests);
    assert matches[cursor..last.cursor] == matches[cursor..first.cursor] + matches[first.cursor..last.cursor];
    var answer := Exec(userUri, matches, estimated, cursor, PAGE_TOP, PAGE_LIMIT, guard);
    if !answer.Page? {
      return None, requests;
    }
    var results' := results + answer.found;
    OneRequest(guard, matches, start, answer.cursor);
    if |results'| >= limit || answer.cursor >= answer.estimated {
      FirstAtOnce(guard, matches, estimated, start, limit, requests);
      return Some(results'), requests;
    }
    StillSatisfiable(guard, matches, estimated, start, limit, answer.cursor);
    Progress(guard, matches, cursor, Window(matches, cursor, PAGE_LIMIT), answer.cursor, PAGE_TOP);
    ghost var more;
    found, more := IncrementalSearch(userUri, matches, estimated, answer.cursor, limit, results', guard);
    FirstFromNext(guard, matches, estimated, start, first, limit, requests, more);
  }

  lemma FirstIsPositive(guard: Guard, matches: seq<string>, estimated: nat, start: Client, limit: nat, n: nat)
    requires start.cursor <= |matches| && IsFirst(guard, matches, estimated, start, limit, n)
    ensures n > 0
  {
  }

  lemma FirstAtOnce(guard: Guard, matches: seq<string>, estimated: nat, start: Client, limit: nat, n: nat)
    requires start.cursor <= |matches| && IsFirst(guard, matches, estimated, start, limit, n)
    requires SatisfiedAfter(guard, matches, estimated, start, limit, 1)
    ensures n == 1
  {
    hide SatisfiedAfter;
  }

  lemma StillSatisfiable(guard: Guard, matches: seq<string>, estimated: nat, start: Client, limit: nat, cursor: nat)
    requires start.cursor <= cursor <= |matches| && Satisfiable(guard, matches, estimated, start, limit)
    ensures var next := Client(cursor, start.results + Seen(guard, matches, start.cursor, cursor));
            && Satisfiable(guard, matches, estimated, next, limit)
            && (cursor == |matches| ==> Satisfied(next.results, limit, cursor, estimated))
  {
    hide Seen;
    SeenNone(guard, matches, |matches|);
    SeenConcat(guard, matches, start.cursor, cursor, |matches|);
    assert start.results + Seen(guard, matches, start.cursor, cursor) + Seen(guard, matches, cursor, |matches|)
        == start.results + (Seen(guard, matches, start.cursor, cursor) + Seen(guard, matches, cursor, |matches|));
  }

  lemma OneRequest(guard: Guard, matches: seq<string>, start: Client, cursor: nat)
    requires start.cursor <= |matches|
    requires EndsAt(guard, matches, start.cursor, Window(matches, start.cursor, PAGE_LIMIT), cursor, PAGE_TOP)
    ensures AfterRequests(guard, matches, start, 1)
      == Client(cursor, start.results + Seen(guard, matches, start.cursor, cursor))
  {
    EndsAtOnce(guard, matches, start.cursor, start.cursor, Window(matches, start.cursor, PAGE_LIMIT), cursor, PAGE_TOP);
    hide PageEnd;
  }

  /** The requests after the first one start where it has got to. */
  lemma {:induction false} OneMoreRequest(guard: Guard, matches: seq<string>, start: Client, next: Client, n: nat)
    requires start.cursor <= |matches| && next.cursor <= |matches| && AfterRequests(guard, matches, start, 1) == next
    ensures AfterRequests(guard, matches, start, n + 1) == AfterRequests(guard, matches, next, n)
  {
    hide Seen;
    hide PageEnd;
    if n > 0 {
      OneMoreRequest(guard, matches, start, next, n - 1);
    }
  }

  /** With an exact estimate the client gets all it may see, or as much as it wanted. */
  method SearchAll(userUri: string, matches: seq<string>, limit: nat, guard: Guard) returns (found: seq<string>)
    requires userUri != "" && "" !in matches
    ensures found <= Visible(guard, matches)
    ensures |found| >= limit || found == Visible(guard, matches)
  {
    var answer, requests := IncrementalSearch(userUri, matches, |matches|, 0, limit, [], guard);
    ghost var end := AfterRequests(guard, matches, Client(0, []), requests).cursor;
    assert forall i | 0 <= i < end :: matches[..end][i] == matches[i];
    found := answer.value;
    SeenConcat(guard, matches, 0, end, |matches|);
    assert matches[0..|matches|] == matches && found == Seen(guard, matches, 0, end);
  }
}
