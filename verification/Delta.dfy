/** Saving by difference: the client splits its changes into three commands, the server applies them one by one. */
module Delta {
  import opened Wrappers

  datatype Data = Text(text: string) | Number(number: int)

  datatype Value = Value(kind: string, data: Data, lang: string)

  /** The value lists by predicate; the identifier is not among them. */
  type Props = map<string, seq<Value>>

  const UPDATE_COUNTER := "v-s:updateCounter"

  function Look(props: Props, key: string): Option<seq<Value>> {
    if key in props then Some(props[key]) else None
  }

  // ----- the client

  /** Values are the same for the client if type and data are; the language is not looked at. */
  predicate Same(a: Value, b: Value) {
    a.kind == b.kind && a.data == b.data
  }

  predicate Has(values: seq<Value>, value: Value) {
    exists i | 0 <= i < |values| :: Same(values[i], value)
  }

  method HasValue(values: seq<Value>, value: Value) returns (found: bool)
    ensures found <==> Has(values, value)
  {
    var filtered := [];
    for i := 0 to |values|
      invariant filtered != [] <==> exists k | 0 <= k < i :: Same(values[k], value)
    {
      if Same(values[i], value) {
        filtered := filtered + [values[i]];
      }
    }
    found := |filtered| > 0;
  }

  /** The test for an unchanged list: as long as before, and everything of before is still there. */
  predicate Unchanged(changed: seq<Value>, base: seq<Value>) {
    |base| == |changed| && forall i | 0 <= i < |base| :: Has(changed, base[i])
  }

  method SeemsUnchanged(changed: seq<Value>, base: seq<Value>) returns (hasValue: bool)
    ensures hasValue <==> Unchanged(changed, base)
  {
    hasValue := |base| == |changed|;
    var i := 0;
    while i < |base| && hasValue
      invariant i <= |base|
      invariant hasValue <==> |base| == |changed| && forall k | 0 <= k < i :: Has(changed, base[k])
    {
      hasValue := HasValue(changed, base[i]);
      i := i + 1;
    }
  }

  datatype Parts = Parts(added: Props, missing: Props, differ: Props)

  /** Each predicate goes to exactly one part, or to none if its list seems unchanged. */
  ghost predicate IsDiff(changed: Props, base: Props, parts: Parts) {
    && (forall k :: Look(parts.added, k) == if k in base then None else Look(changed, k))
    && (forall k :: Look(parts.missing, k) == if k in changed then None else Look(base, k))
    && (forall k :: Look(parts.differ, k)
                    == if k in base && k in changed && !Unchanged(changed[k], base[k]) then Some(changed[k]) else None)
  }

  method Diff(changed: Props, base: Props) returns (parts: Parts)
    ensures IsDiff(changed, base, parts)
  {
    var added: Props, missing: Props, differ: Props := map[], map[], map[];
    var keys := base.Keys;
    while keys != {}
      invariant keys <= base.Keys && added == map[]
      invariant forall k :: Look(missing, k) == if k in changed || k in keys then None else Look(base, k)
      invariant forall k :: k !in base || k in keys || k !in changed ==> k !in differ
      invariant forall k :: k in base && k !in keys && k in changed ==>
        Look(differ, k) == if Unchanged(changed[k], base[k]) then None else Some(changed[k])
    {
      var key :| key in keys;
      keys := keys - {key};
      if key !in changed {
        missing := missing[key := base[key]];
      } else {
        var hasValue := SeemsUnchanged(changed[key], base[key]);
        if !hasValue {
          differ := differ[key := changed[key]];
        }
      }
    }
    keys := changed.Keys;
    while keys != {}
      invariant keys <= changed.Keys
      invariant forall k :: Look(added, k) == if k in base || k in keys then None else Look(changed, k)
    {
      var key :| key in keys;
      keys := keys - {key};
      if key !in base {
        added := added[key := changed[key]];
      }
    }
    parts := Parts(added, missing, differ);
  }

  // ----- the server

  datatype Command = AddTo | SetIn | RemoveFrom

  datatype Answer = Ok | NotAuthorized | FailStore

  /** What is not there yet is appended; the server compares whole values, language included. */
  function AddUnique(values: seq<Value>, more: seq<Value>): seq<Value> {
    if more == [] then values
    else
      var grown := AddUnique(values, more[..|more| - 1]);
      if more[|more| - 1] in grown then grown else grown + [more[|more| - 1]]
  }

  function Exclude(values: seq<Value>, exclude: seq<Value>): seq<Value> {
    if values == [] then []
    else
      Exclude(values[..|values| - 1], exclude)
      + if values[|values| - 1] in exclude then [] else [values[|values| - 1]]
  }

  /** What a command makes of one list. */
  function Applied(command: Command, before: Option<seq<Value>>, values: seq<Value>): Option<seq<Value>> {
    var now := if before.Some? then before.value else [];
    match command
    case AddTo => Some(AddUnique(now, values))
    case SetIn => Some(values)
    case RemoveFrom => if Exclude(now, values) == [] then None else Some(Exclude(now, values))
  }

  /** The effect of a command on the predicates of its part; the update counter is never touched. */
  ghost predicate Applies(props: Props, command: Command, part: Props, props': Props) {
    forall k :: Look(props', k)
      == if k in part && k != UPDATE_COUNTER then Applied(command, Look(props, k), part[k]) else Look(props, k)
  }

  /** The counter, 0 if there is none: the number of the first value. */
  function CounterOf(props: Props): int {
    if UPDATE_COUNTER in props && props[UPDATE_COUNTER] != [] && props[UPDATE_COUNTER][0].data.Number?
    then props[UPDATE_COUNTER][0].data.number else 0
  }

  lemma CounterRead(props: Props, kind: string, n: int, lang: string)
    ensures "v-s:updateCounter" !in props ==> CounterOf(props) == 0
    ensures Look(props, "v-s:updateCounter") == Some([Value(kind, Number(n), lang)]) ==> CounterOf(props) == n
    ensures Look(props, "v-s:updateCounter") == Some([]) ==> CounterOf(props) == 0
  {
  }

  function CounterValue(n: int): seq<Value> {
    [Value("Integer", Number(n), "")]
  }

  class Stored {
    var props: Props

    constructor (props: Props)
      ensures this.props == props
    {
      this.props := props;
    }

    method AddUniqueResources(key: string, more: seq<Value>)
      modifies this
      ensures props == old(props)[key := AddUnique(if key in old(props) then old(props)[key] else [], more)]
    {
      var values: seq<Value> := if key in props then props[key] else [];
      ghost var was := values;
      for i := 0 to |more|
        invariant values == AddUnique(was, more[..i]) && props == old(props)
      {
        assert more[..i + 1][..i] == more[..i];
        if more[i] !in values {
          values := values + [more[i]];
        }
      }
      assert more[..|more|] == more;
      props := props[key := values];
    }

    method SetResources(key: string, values: seq<Value>)
      modifies this
      ensures props == old(props)[key := values]
    {
      var copied: seq<Value> := [];
      for i := 0 to |values|
        invariant copied == values[..i] && props == old(props)
      {
        copied := copied + [values[i]];
      }
      assert values[..|values|] == values;
      props := props[key := copied];
    }

    method ExcludeAndSetResources(key: string, exclude: seq<Value>)
      modifies this
      ensures var rest := Exclude(if key in old(props) then old(props)[key] else [], exclude);
              props == if rest == [] then old(props) - {key} else old(props)[key := rest]
    {
      var values: seq<Value> := if key in props then props[key] else [];
      var rest: seq<Value> := [];
      for i := 0 to |values|
        invariant rest == Exclude(values[..i], exclude) && props == old(props)
      {
        assert values[..i + 1][..i] == values[..i];
        if values[i] !in exclude {
          rest := rest + [values[i]];
        }
      }
      assert values[..|values|] == values;
      if rest == [] {
        props := props - {key};
      } else {
        props := props[key := rest];
      }
    }

    method ApplyPredicate(command: Command, key: string, values: seq<Value>)
      modifies this
      ensures Look(props, key) == Applied(command, Look(old(props), key), values)
      ensures forall k :: k != key ==> Look(props, k) == Look(old(props), k)
    {
      if command == AddTo {
        AddUniqueResources(key, values);
      } else if command == SetIn {
        SetResources(key, values);
      } else {
        ExcludeAndSetResources(key, values);
      }
    }

    /** Nothing happens to an individual without any predicate. */
    method IndvApplyCmd(command: Command, part: Props)
      modifies this
      ensures old(props) == map[] ==> props == map[]
      ensures old(props) != map[] ==> Applies(old(props), command, part, props)
    {
      if props != map[] {
        var keys := part.Keys;
        while keys != {}
          invariant keys <= part.Keys
          invariant forall k :: k in part && k !in keys && k != UPDATE_COUNTER ==>
            Look(props, k) == Applied(command, Look(old(props), k), part[k])
          invariant forall k :: k !in part || k in keys || k == UPDATE_COUNTER ==> Look(props, k) == Look(old(props), k)
        {
          var key :| key in keys;
          keys := keys - {key};
          if key != UPDATE_COUNTER {
            ApplyPredicate(command, key, part[key]);
          }
        }
      }
    }

    /**
     One command. It is refused if nothing is stored, then if the user may not do this, and then if the storage fails;
     else it is applied and counted. Whether authorization and storage agree is not decided here.
     */
    method Handle(command: Command, part: Props, authorized: bool, stores: bool) returns (answer: Answer)
      modifies this
      ensures answer == if old(props) == map[] then FailStore
                        else if !authorized then NotAuthorized
                        else if !stores then FailStore
                        else Ok
      ensures if answer == Ok then Handled(old(props), command, part, props) else props == old(props)
    {
      var prev := props;
      if prev == map[] {
        return FailStore;
      }
      if !authorized {
        return NotAuthorized;
      }
      var counter := CounterOf(props) + 1;
      IndvApplyCmd(command, part);
      props := props[UPDATE_COUNTER := CounterValue(counter)];
      if !stores {
        props := prev;
        return FailStore;
      }
      answer := Ok;
    }
  }

  ghost predicate Handled(props: Props, command: Command, part: Props, props': Props) {
    && (forall k :: k != UPDATE_COUNTER ==>
          Look(props', k) == if k in part then Applied(command, Look(props, k), part[k]) else Look(props, k))
    && Look(props', "v-s:updateCounter") == Some([Value("Integer", Number(CounterOf(props) + 1), "")])
  }

  // ----- what a command does to a list that is already there

  /**
   Adding appends: the old list is a prefix of the new one, a value is in the new one just when it is in one of the two, and
   what follows the old list has no repeats and nothing of the old list.
   */
  lemma {:induction false} AddUniqueAppends(values: seq<Value>, more: seq<Value>)
    ensures var grown := AddUnique(values, more);
            && values <= grown
            && (forall v :: v in grown <==> v in values || v in more)
            && (forall i | |values| <= i < |grown| :: grown[i] !in grown[..i])
  {
    if more != [] {
      var k := |more| - 1;
      AddUniqueAppends(values, more[..k]);
      assert more == more[..k] + [more[k]];
      var before, grown := AddUnique(values, more[..k]), AddUnique(values, more);
      assert before <= grown;
      forall i | |values| <= i < |grown| ensures grown[i] !in grown[..i] {
        assert grown[..i] == before[..i];
      }
    }
  }

  /** New values are appended in the order in which they come: adding two lists is adding one after the other. */
  lemma {:induction false} AddUniqueInTurn(values: seq<Value>, a: seq<Value>, b: seq<Value>)
    ensures AddUnique(values, a + b) == AddUnique(AddUnique(values, a), b)
  {
    if b == [] {
      assert a + b == a;
    } else {
      assert (a + b)[..|a + b| - 1] == a + b[..|b| - 1];
      AddUniqueInTurn(values, a, b[..|b| - 1]);
    }
  }

  lemma {:induction false} ExcludeConcat(a: seq<Value>, b: seq<Value>, exclude: seq<Value>)
    ensures Exclude(a + b, exclude) == Exclude(a, exclude) + Exclude(b, exclude)
  {
    if b == [] {
      assert a + b == a;
    } else {
      assert (a + b)[..|a + b| - 1] == a + b[..|b| - 1];
      ExcludeConcat(a, b[..|b| - 1], exclude);
    }
  }

  lemma ExcludeLast(values: seq<Value>, exclude: seq<Value>)
    requires values != []
    ensures var k := |values| - 1;
            Exclude(values, exclude)
            == if values[k] in exclude then Exclude(values[..k], exclude) else Exclude(values[..k], exclude) + [values[k]]
  {
    var before := Exclude(values[..|values| - 1], exclude);
    assert before + [] == before;
  }

  lemma CountMore(values: seq<Value>, last: Value, v: Value)
    ensures multiset(values + [last])[v] == multiset(values)[v] + if v == last then 1 else 0
  {
  }

  lemma ExcludeNone(exclude: seq<Value>)
    ensures Exclude([], exclude) == []
  {
  }

  /** Taking away keeps the rest: a value stays as often as it was there, or not at all if it is to be taken away. */
  lemma {:induction false} ExcludeCounts(values: seq<Value>, exclude: seq<Value>, v: Value)
    ensures multiset(Exclude(values, exclude))[v] == if v in exclude then 0 else multiset(values)[v]
  {
    hide Exclude;
    if values == [] {
      ExcludeNone(exclude);
    } else {
      var k := |values| - 1;
      ExcludeCounts(values[..k], exclude, v);
      ExcludeLast(values, exclude);
      CountMore(values[..k], values[k], v);
      CountMore(Exclude(values[..k], exclude), values[k], v);
      assert values == values[..k] + [values[k]];
    }
  }

  /** In their old order: a value that stays stands behind just those that stay of what was before it. */
  lemma ExcludeInOrder(values: seq<Value>, exclude: seq<Value>, i: nat)
    requires i < |values| && values[i] !in exclude
    ensures Exclude(values[..i], exclude) + [values[i]] <= Exclude(values, exclude)
  {
    assert values[..i + 1][..i] == values[..i];
    assert values == values[..i + 1] + values[i + 1..];
    ExcludeConcat(values[..i + 1], values[i + 1..], exclude);
  }

  lemma {:induction false} ExcludeEmptyIff(values: seq<Value>, exclude: seq<Value>)
    ensures Exclude(values, exclude) == [] <==> forall w | w in values :: w in exclude
  {
    hide Exclude;
    if values == [] {
      ExcludeNone(exclude);
    } else {
      var k := |values| - 1;
      ExcludeEmptyIff(values[..k], exclude);
      ExcludeLast(values, exclude);
      assert forall w :: w in values <==> w in values[..k] || w == values[k];
    }
  }

  /** What a command leaves under a predicate, by values: nothing left means that the predicate is gone. */
  lemma CommandMeans(command: Command, before: Option<seq<Value>>, values: seq<Value>, v: Value)
    ensures var now := if before.Some? then before.value else [];
            var after := Applied(command, before, values);
            match command
            case AddTo => after.Some? && now <= after.value && (v in after.value <==> v in now || v in values)
            case SetIn => after == Some(values)
            case RemoveFrom =>
              && (after.None? <==> forall w | w in now :: w in values)
              && (after.Some? ==> multiset(after.value)[v] == if v in values then 0 else multiset(now)[v])
  {
    var now := if before.Some? then before.value else [];
    match command
    case AddTo => AddUniqueAppends(now, values);
    case SetIn =>
    case RemoveFrom =>
      ExcludeEmptyIff(now, values);
      ExcludeCounts(now, values, v);
  }

  // ----- all together

  function PartOf(parts: Parts, command: Command): Props {
    match command
    case AddTo => parts.added
    case SetIn => parts.differ
    case RemoveFrom => parts.missing
  }

  /** The three commands in one of their six orders. */
  predicate IsOrder(order: seq<Command>) {
    |order| == 3 && order[0] != order[1] && order[1] != order[2] && order[0] != order[2]
  }

  function FirstOf(order: seq<Command>, n: nat): set<Command>
    requires n <= |order|
  {
    set c | c in order[..n]
  }

  /** The server still has what the client started from; its counter may have moved on. */
  predicate UpToDate(stored: Props, base: Props) {
    stored != map[] && forall k | k in stored.Keys + base.Keys && k != UPDATE_COUNTER :: Look(stored, k) == Look(base, k)
  }

  /** What the server has under a predicate once all three commands have been handled. */
  function Saved(changed: Props, base: Props, key: string): Option<seq<Value>> {
    if key !in changed then None
    else if key !in base then Some(AddUnique([], changed[key]))
    else if Unchanged(changed[key], base[key]) then Some(base[key])
    else Some(changed[key])
  }

  /** Saved for the commands that have been handled, the list of the base for the others. */
  function SavedBy(parts: Parts, base: Props, key: string, handled: set<Command>): Option<seq<Value>> {
    if AddTo in handled && key in parts.added then Some(AddUnique([], parts.added[key]))
    else if SetIn in handled && key in parts.differ then Some(parts.differ[key])
    else if RemoveFrom in handled && key in parts.missing then None
    else Look(base, key)
  }

  /** Under every predicate there is what the commands handled so far have left. */
  ghost predicate HandledSoFar(props: Props, parts: Parts, base: Props, handled: set<Command>) {
    forall k :: k != UPDATE_COUNTER ==> Look(props, k) == SavedBy(parts, base, k, handled)
  }

  lemma {:induction false} ExcludeAll(values: seq<Value>, all: seq<Value>)
    requires forall i | 0 <= i < |values| :: values[i] in all
    ensures Exclude(values, all) == []
  {
    if values != [] {
      ExcludeAll(values[..|values| - 1], all);
    }
  }

  lemma OneMoreCommand(
    changed: Props, base: Props, parts: Parts, handled: set<Command>, command: Command, props: Props, props': Props)
    requires IsDiff(changed, base, parts) && command !in handled
    requires HandledSoFar(props, parts, base, handled)
    requires Handled(props, command, PartOf(parts, command), props')
             || (PartOf(parts, command) == map[] && props' == props)
    ensures HandledSoFar(props', parts, base, handled + {command})
  {
    forall k | k != UPDATE_COUNTER ensures Look(props', k) == SavedBy(parts, base, k, handled + {command}) {
      assert Look(props, k) == SavedBy(parts, base, k, handled);
      assert Look(parts.added, k) == if k in base then None else Look(changed, k);
      assert Look(parts.missing, k) == if k in changed then None else Look(base, k);
      assert k in parts.differ ==> k in base && k in changed;
      if k in parts.missing {
        ExcludeAll(base[k], base[k]);
      }
    }
  }

  lemma NothingHandled(changed: Props, base: Props, parts: Parts, stored: Props)
    requires IsDiff(changed, base, parts) && UpToDate(stored, base)
    ensures HandledSoFar(stored, parts, base, {})
  {
  }

  /** One part is sent, unless it is empty. */
  method SendPart(
    stored: Stored, parts: Parts, command: Command, ghost changed: Props, ghost base: Props, ghost handled: set<Command>)
    returns (sent: nat)
    requires stored.props != map[] && IsDiff(changed, base, parts) && command !in handled
    requires HandledSoFar(stored.props, parts, base, handled)
    modifies stored
    ensures stored.props != map[] && HandledSoFar(stored.props, parts, base, handled + {command})
    ensures CounterOf(stored.props) == CounterOf(old(stored.props)) + sent && sent <= 1
  {
    hide Handled;
    hide CounterOf;
    hide SavedBy;
    hide IsDiff;
    ghost var before := stored.props;
    var part := PartOf(parts, command);
    sent := 0;
    if part != map[] {
      var answer := stored.Handle(command, part, true, true);
      Counted(before, command, part, stored.props);
      sent := 1;
    }
    OneMoreCommand(changed, base, parts, handled, command, before, stored.props);
  }

  /** Saving sends the parts that are not empty; the server handles them in whatever order they arrive. */
  method Save(stored: Stored, changed: Props, base: Props, order: seq<Command>) returns (sent: nat)
    requires IsOrder(order) && UpToDate(stored.props, base)
    modifies stored
    ensures forall k :: k != UPDATE_COUNTER ==> Look(stored.props, k) == Saved(changed, base, k)
    ensures CounterOf(stored.props) == CounterOf(old(stored.props)) + sent <= CounterOf(old(stored.props)) + 3
  {
    var parts := Diff(changed, base);
    NothingHandled(changed, base, parts, stored.props);
    hide HandledSoFar;
    hide CounterOf;
    hide Saved;
    hide IsDiff;
    sent := 0;
    for i := 0 to 3
      invariant stored.props != map[] && sent <= i
      invariant HandledSoFar(stored.props, parts, base, FirstOf(order, i))
      invariant CounterOf(stored.props) == CounterOf(old(stored.props)) + sent
    {
      ghost var handled := FirstOf(order, i);
      assert order[i] !in handled;
      var one := SendPart(stored, parts, order[i], changed, base, handled);
      assert handled + {order[i]} == FirstOf(order, i + 1);
      sent := sent + one;
    }
    AllHandled(order);
    SavedInTheEnd(changed, base, parts, stored.props, FirstOf(order, 3));
  }

  lemma SavedInTheEnd(changed: Props, base: Props, parts: Parts, props: Props, handled: set<Command>)
    requires IsDiff(changed, base, parts) && AddTo in handled && SetIn in handled && RemoveFrom in handled
    requires HandledSoFar(props, parts, base, handled)
    ensures forall k :: k != UPDATE_COUNTER ==> Look(props, k) == Saved(changed, base, k)
  {
    SavedByAll(changed, base, parts, handled);
    hide SavedBy;
    hide Saved;
    hide IsDiff;
  }

  lemma SavedByAll(changed: Props, base: Props, parts: Parts, handled: set<Command>)
    requires IsDiff(changed, base, parts) && AddTo in handled && SetIn in handled && RemoveFrom in handled
    ensures forall k :: SavedBy(parts, base, k, handled) == Saved(changed, base, k)
  {
    hide AddUnique;
    hide Unchanged;
    forall k ensures SavedBy(parts, base, k, handled) == Saved(changed, base, k) {
      assert Look(parts.added, k) == if k in base then None else Look(changed, k);
      assert Look(parts.missing, k) == if k in changed then None else Look(base, k);
    }
  }

  lemma Counted(props: Props, command: Command, part: Props, props': Props)
    requires Handled(props, command, part, props')
    ensures props' != map[] && CounterOf(props') == CounterOf(props) + 1
  {
    assert Look(props', UPDATE_COUNTER) == Some(CounterValue(CounterOf(props) + 1));
  }

  lemma AllHandled(order: seq<Command>)
    requires IsOrder(order)
    ensures AddTo in FirstOf(order, 3) && SetIn in FirstOf(order, 3) && RemoveFrom in FirstOf(order, 3)
  {
    assert order[0] in order[..3] && order[1] in order[..3] && order[2] in order[..3];
  }

  // ----- what that means for the client

  function Bare(values: seq<Value>): seq<(string, Data)> {
    if values == [] then [] else Bare(values[..|values| - 1]) + [(values[|values| - 1].kind, values[|values| - 1].data)]
  }

  /** The same values up to order and language. */
  predicate SameUpToOrder(a: seq<Value>, b: seq<Value>) {
    multiset(Bare(a)) == multiset(Bare(b))
  }

  predicate Distinct(values: seq<Value>) {
    forall i, j | 0 <= i < j < |values| :: !Same(values[i], values[j])
  }

  predicate NoRepeats(values: seq<Value>) {
    forall i, j | 0 <= i < j < |values| :: values[i] != values[j]
  }

  lemma {:induction false} BareAt(values: seq<Value>)
    ensures |Bare(values)| == |values|
    ensures forall i | 0 <= i < |values| :: Bare(values)[i] == (values[i].kind, values[i].data)
  {
    if values != [] {
      BareAt(values[..|values| - 1]);
    }
  }

  lemma UnchangedThenSame(changed: seq<Value>, base: seq<Value>)
    requires Distinct(base) && Unchanged(changed, base)
    ensures SameUpToOrder(changed, base)
  {
    var c, b := Bare(changed), Bare(base);
    BareAt(changed);
    BareAt(base);
    forall v ensures multiset(b)[v] <= multiset(c)[v] {
      OnlyOnce(b, v);
      if v in multiset(b) {
        StillThere(changed, base, v);
      }
    }
    assert |multiset(b)| == |b| && |multiset(c)| == |c|;
    hide *;
    SameSize(multiset(b), multiset(c));
  }

  lemma StillThere(changed: seq<Value>, base: seq<Value>, v: (string, Data))
    requires Unchanged(changed, base) && v in multiset(Bare(base))
    ensures v in multiset(Bare(changed))
  {
    BareAt(changed);
    BareAt(base);
    var i :| 0 <= i < |base| && Bare(base)[i] == v;
    assert Has(changed, base[i]);
    var j :| 0 <= j < |changed| && Same(changed[j], base[i]);
    assert Bare(changed)[j] == v;
  }

  lemma SameSize(b: multiset<(string, Data)>, c: multiset<(string, Data)>)
    requires |b| == |c| && forall v :: b[v] <= c[v]
    ensures b == c
  {
    var rest := c - b;
    assert c == b + rest;
    assert |rest| == 0;
  }

  /** Without repeats in the base, the test for an unchanged list is right. */
  lemma UnchangedIsSame(changed: seq<Value>, base: seq<Value>)
    requires Distinct(base)
    ensures Unchanged(changed, base) <==> SameUpToOrder(changed, base)
  {
    if Unchanged(changed, base) {
      UnchangedThenSame(changed, base);
    }
    if SameUpToOrder(changed, base) {
      var c, b := Bare(changed), Bare(base);
      BareAt(changed);
      BareAt(base);
      assert |b| == |multiset(b)| == |multiset(c)| == |c|;
      forall i | 0 <= i < |base| ensures Has(changed, base[i]) {
        assert b[i] in multiset(b);
        var j :| 0 <= j < |c| && c[j] == b[i];
        assert Same(changed[j], base[i]);
      }
    }
  }

  lemma {:induction false} OnlyOnce(s: seq<(string, Data)>, v: (string, Data))
    requires forall i, j | 0 <= i < j < |s| :: s[i] != s[j]
    ensures multiset(s)[v] <= 1
  {
    if s != [] {
      var k := |s| - 1;
      OnlyOnce(s[..k], v);
      assert s == s[..k] + [s[k]];
      assert s[k] !in s[..k];
    }
  }

  lemma {:induction false} AddUniqueKeeps(values: seq<Value>)
    ensures |AddUnique([], values)| <= |values|
    ensures NoRepeats(values) <==> AddUnique([], values) == values
    ensures !NoRepeats(values) ==> |AddUnique([], values)| < |values|
    ensures forall v :: v in AddUnique([], values) <==> v in values
  {
    if values != [] {
      var k := |values| - 1;
      AddUniqueKeeps(values[..k]);
      assert values == values[..k] + [values[k]];
      if values[k] in values[..k] {
        var i :| 0 <= i < k && values[..k][i] == values[k];
        assert !NoRepeats(values);
      }
    }
  }

  /** After saving, the server has the client's predicates, each with the client's values up to order and language. */
  lemma SavedIsChanged(changed: Props, base: Props, key: string)
    requires key in base ==> Distinct(base[key])
    requires key in changed && key !in base ==> NoRepeats(changed[key])
    ensures Saved(changed, base, key).Some? <==> key in changed
    ensures key in changed ==> SameUpToOrder(Saved(changed, base, key).value, changed[key])
  {
    if key in changed {
      if key in base {
        UnchangedIsSame(changed[key], base[key]);
      } else {
        AddUniqueKeeps(changed[key]);
      }
    }
  }

  /** For a predicate that is new, repeats are what must not be there. */
  lemma AddedIff(changed: Props, base: Props, key: string)
    requires key in changed && key !in base
    ensures SameUpToOrder(Saved(changed, base, key).value, changed[key]) <==> NoRepeats(changed[key])
  {
    var saved := AddUnique([], changed[key]);
    AddUniqueKeeps(changed[key]);
    BareAt(saved);
    BareAt(changed[key]);
    assert |multiset(Bare(saved))| == |saved| && |multiset(Bare(changed[key]))| == |changed[key]|;
  }

  /** The later of two equal values replaced by another one: no longer the same values, but the test does not see it. */
  lemma RepeatHidesChange(base: seq<Value>, i: nat, j: nat, other: Value)
    requires i < j < |base| && Same(base[i], base[j]) && !Same(base[j], other)
    ensures Unchanged(base[j := other], base) && !SameUpToOrder(base[j := other], base)
  {
    var changed := base[j := other];
    forall k | 0 <= k < |base| ensures Has(changed, base[k]) {
      assert Same(changed[if k == j then i else k], base[k]);
    }
    BareReplaced(base, j, other);
    hide *;
    OneLess(Bare(base), j, (other.kind, other.data));
  }

  lemma BareReplaced(base: seq<Value>, j: nat, other: Value)
    requires j < |base|
    ensures |Bare(base)| == |base| && Bare(base)[j] == (base[j].kind, base[j].data)
    ensures Bare(base[j := other]) == Bare(base)[j := (other.kind, other.data)]
  {
    BareAt(base);
    BareAt(base[j := other]);
    hide Bare;
  }

  lemma OneLess(s: seq<(string, Data)>, j: nat, w: (string, Data))
    requires j < |s| && s[j] != w
    ensures multiset(s[j := w]) != multiset(s)
  {
    assert multiset(s[j := w]) == multiset(s) - multiset{s[j]} + multiset{w};
    assert s[j] in multiset(s);
    assert multiset(s[j := w])[s[j]] == multiset(s)[s[j]] - 1;
  }

  /** The test for an unchanged list is right, whatever the list is changed to, if and only if no value repeats in the base. */
  lemma TestRightIff(base: seq<Value>)
    ensures (forall changed :: Unchanged(changed, base) ==> SameUpToOrder(changed, base)) <==> Distinct(base)
  {
    if Distinct(base) {
      forall changed | Unchanged(changed, base) ensures SameUpToOrder(changed, base) {
        UnchangedIsSame(changed, base);
      }
    } else {
      var i, j :| 0 <= i < j < |base| && Same(base[i], base[j]);
      var other := base[j].(kind := base[j].kind + "x");
      assert |other.kind| == |base[j].kind| + 1;
      RepeatHidesChange(base, i, j, other);
    }
  }
}
