/** The client's cache: objects by id, expiry lists by key, a count, and batch eviction when the limit is reached. */
module Cache {
  import opened Wrappers

  datatype Item = Item(id: string, expires: int)

  type Lists = map<int, seq<Item>>

  // ----- the order of the keys of an object: array indices ascending, then the others as they came

  predicate IsIndex(key: int) {
    0 <= key < 0xFFFF_FFFF
  }

  /** How many keys stay before the new one. */
  function PlaceOf(keys: seq<int>, key: int): (place: nat)
    ensures place <= |keys|
  {
    if keys == [] then 0
    else if !IsIndex(key) || (IsIndex(keys[0]) && keys[0] < key) then 1 + PlaceOf(keys[1..], key)
    else 0
  }

  function WithKey(keys: seq<int>, key: int): seq<int> {
    keys[..PlaceOf(keys, key)] + [key] + keys[PlaceOf(keys, key)..]
  }

  predicate Ordered(keys: seq<int>) {
    keys != [] ==>
      && keys[0] !in keys[1..]
      && (forall k :: k in keys[1..] && IsIndex(k) ==> IsIndex(keys[0]) && keys[0] < k)
      && Ordered(keys[1..])
  }

  lemma {:induction false} WithKeyOrdered(keys: seq<int>, key: int)
    requires Ordered(keys) && key !in keys
    ensures Ordered(WithKey(keys, key))
    ensures forall k :: k in WithKey(keys, key) <==> k in keys || k == key
  {
    var p := PlaceOf(keys, key);
    assert keys == keys[..p] + keys[p..];
    if p > 0 {
      WithKeyOrdered(keys[1..], key);
      assert WithKey(keys, key)[1..] == WithKey(keys[1..], key);
    } else {
      assert WithKey(keys, key)[1..] == keys;
      if keys != [] {
        assert forall k :: k in keys ==> k == keys[0] || k in keys[1..];
      }
    }
  }

  /**
   A new key: a time stamp, which is no array index, comes last, so that lists are kept in the order in which they were begun;
   an array index comes behind the smaller ones and before everything else. The other keys stay as they are.
   */
  lemma {:induction false} WithKeyPlace(keys: seq<int>, key: int)
    requires Ordered(keys) && key !in keys
    ensures key < 0 || key >= 0xFFFF_FFFF ==> WithKey(keys, key) == keys + [key]
    ensures 0 <= key < 0xFFFF_FFFF ==>
      exists p | 0 <= p <= |keys| :: SplitAt(keys, key, p) && WithKey(keys, key) == keys[..p] + [key] + keys[p..]
  {
    var p := PlaceOf(keys, key);
    PlaceSplits(keys, key);
    if !IsIndex(key) {
      assert keys == keys + [] && keys[..p] == keys && keys[p..] == [];
    }
  }

  predicate SplitAt(keys: seq<int>, key: int, p: nat)
    requires p <= |keys|
  {
    && (forall i | 0 <= i < p :: 0 <= keys[i] < key)
    && (forall i | p <= i < |keys| :: !(0 <= keys[i] < key))
  }

  lemma {:induction false} PlaceSplits(keys: seq<int>, key: int)
    requires Ordered(keys) && key !in keys
    ensures var p := PlaceOf(keys, key); if IsIndex(key) then SplitAt(keys, key, p) else p == |keys|
  {
    if keys != [] {
      PlaceSplits(keys[1..], key);
      assert forall i | 0 < i < |keys| :: keys[i] == keys[1..][i - 1] && keys[i] in keys[1..];
    }
  }

  lemma {:induction false} OrderedWithout(a: seq<int>, key: int, b: seq<int>)
    requires Ordered(a + [key] + b)
    ensures Ordered(a + b) && key !in a && key !in b
  {
    var all := a + [key] + b;
    if a == [] {
      assert all[1..] == b && a + b == b;
    } else {
      assert all[1..] == a[1..] + [key] + b && (a + b)[1..] == a[1..] + b;
      OrderedWithout(a[1..], key, b);
      assert forall k :: k in a[1..] + b ==> k in all[1..];
      assert key in all[1..];
    }
  }

  // ----- the contents in key order

  function ListOf(lists: Lists, key: int): seq<Item> {
    if key in lists then lists[key] else []
  }

  function Flat(keys: seq<int>, lists: Lists): seq<Item> {
    if keys == [] then [] else ListOf(lists, keys[0]) + Flat(keys[1..], lists)
  }

  lemma {:induction false} FlatConcat(a: seq<int>, b: seq<int>, lists: Lists)
    ensures Flat(a + b, lists) == Flat(a, lists) + Flat(b, lists)
  {
    if a == [] {
      assert a + b == b;
    } else {
      assert (a + b)[1..] == a[1..] + b;
      FlatConcat(a[1..], b, lists);
    }
  }

  lemma {:induction false} FlatSame(keys: seq<int>, lists: Lists, lists': Lists)
    requires forall k :: k in keys ==> ListOf(lists, k) == ListOf(lists', k)
    ensures Flat(keys, lists) == Flat(keys, lists')
  {
    if keys != [] {
      FlatSame(keys[1..], lists, lists');
      assert keys[0] in keys;
    }
  }

  /** The key with its list, between the keys before and after it. */
  lemma FlatAround(a: seq<int>, key: int, b: seq<int>, lists: Lists)
    ensures Flat(a + [key] + b, lists) == Flat(a, lists) + ListOf(lists, key) + Flat(b, lists)
  {
    FlatConcat(a + [key], b, lists);
    FlatConcat(a, [key], lists);
    assert Flat([key], lists) == ListOf(lists, key) by {
      assert [key][1..] == [];
      assert ListOf(lists, key) + [] == ListOf(lists, key);
    }
  }

  // ----- one place for each object

  /** The storage is exactly what the lists hold, each id once. */
  predicate Mirrors(flat: seq<Item>, storage: map<string, Item>) {
    if flat == [] then storage == map[]
    else
      && flat[0].id in storage && storage[flat[0].id] == flat[0]
      && Mirrors(flat[1..], storage - {flat[0].id})
  }

  lemma {:induction false} MirrorsWith(a: seq<Item>, b: seq<Item>, storage: map<string, Item>, item: Item)
    requires Mirrors(a + b, storage) && item.id !in storage
    ensures Mirrors(a + [item] + b, storage[item.id := item])
  {
    var flat, storage' := a + [item] + b, storage[item.id := item];
    if a == [] {
      assert flat[1..] == a + b && storage' - {item.id} == storage;
    } else {
      assert flat[1..] == a[1..] + [item] + b && (a + b)[1..] == a[1..] + b;
      MirrorsWith(a[1..], b, storage - {a[0].id}, item);
      assert storage' - {a[0].id} == (storage - {a[0].id})[item.id := item];
    }
  }

  lemma {:induction false} MirrorsWithout(a: seq<Item>, b: seq<Item>, storage: map<string, Item>, item: Item)
    requires Mirrors(a + [item] + b, storage)
    ensures Mirrors(a + b, storage - {item.id}) && item.id in storage && storage[item.id] == item
  {
    var flat := a + [item] + b;
    if a == [] {
      assert flat[1..] == a + b;
    } else {
      assert flat[1..] == a[1..] + [item] + b && (a + b)[1..] == a[1..] + b;
      MirrorsWithout(a[1..], b, storage - {a[0].id}, item);
      assert storage - {a[0].id} - {item.id} == storage - {item.id} - {a[0].id};
    }
  }

  /** In plain words: as many objects as list entries, each object in one entry, under its own id. */
  lemma {:induction false} MirrorsMeans(flat: seq<Item>, storage: map<string, Item>)
    requires Mirrors(flat, storage)
    ensures |storage| == |flat|
    ensures forall i, j | 0 <= i < j < |flat| :: flat[i].id != flat[j].id
    ensures forall i | 0 <= i < |flat| :: flat[i].id in storage && storage[flat[i].id] == flat[i]
    ensures forall id :: id in storage ==> storage[id] in flat && storage[id].id == id
  {
    if flat != [] {
      var rest := storage - {flat[0].id};
      MirrorsMeans(flat[1..], rest);
      hide Mirrors;
      assert storage.Keys == rest.Keys + {flat[0].id};
      assert |storage| == |rest| + 1;
      OneMoreMirrored(flat, storage);
    }
  }

  lemma OneMoreMirrored(flat: seq<Item>, storage: map<string, Item>)
    requires flat != [] && flat[0].id in storage && storage[flat[0].id] == flat[0]
    requires var rest, later := storage - {flat[0].id}, flat[1..];
             && (forall i, j | 0 <= i < j < |later| :: later[i].id != later[j].id)
             && (forall i | 0 <= i < |later| :: later[i].id in rest && rest[later[i].id] == later[i])
             && forall id :: id in rest ==> rest[id] in later && rest[id].id == id
    ensures forall i, j | 0 <= i < j < |flat| :: flat[i].id != flat[j].id
    ensures forall i | 0 <= i < |flat| :: flat[i].id in storage && storage[flat[i].id] == flat[i]
    ensures forall id :: id in storage ==> storage[id] in flat && storage[id].id == id
  {
    var rest, later := storage - {flat[0].id}, flat[1..];
    assert forall i | 0 < i < |flat| :: flat[i] == later[i - 1];
    forall id | id in storage ensures storage[id] in flat && storage[id].id == id {
      if id != flat[0].id {
        assert rest[id] in later;
      }
    }
  }

  function WithoutKey(keys: seq<int>, key: int): seq<int> {
    if keys == [] then []
    else if keys[0] == key then keys[1..]
    else [keys[0]] + WithoutKey(keys[1..], key)
  }

  lemma {:induction false} WithoutKeyAround(a: seq<int>, key: int, b: seq<int>)
    requires key !in a
    ensures WithoutKey(a + [key] + b, key) == a + b
  {
    var all := a + [key] + b;
    if a == [] {
      assert all[1..] == b;
    } else {
      assert all[1..] == a[1..] + [key] + b;
      WithoutKeyAround(a[1..], key, b);
    }
  }

  /** Keys in order, a list under each of them and no other, no list empty, every object under its own key. */
  ghost predicate WellKept(keys: seq<int>, lists: Lists) {
    && Ordered(keys) && (forall k :: k in keys <==> k in lists)
    && forall k :: k in lists ==> lists[k] != [] && forall i | 0 <= i < |lists[k]| :: lists[k][i].expires == k
  }

  lemma WellKeptWithout(a: seq<int>, key: int, b: seq<int>, lists: Lists)
    requires WellKept(a + [key] + b, lists)
    ensures WellKept(a + b, lists - {key}) && Flat(a + b, lists - {key}) == Flat(a, lists) + Flat(b, lists)
    ensures WithoutKey(a + [key] + b, key) == a + b && key in lists && key !in a && key !in b
  {
    OrderedWithout(a, key, b);
    WithoutKeyAround(a, key, b);
    hide Ordered;
    hide Flat;
    hide WithoutKey;
    SameKeys(a, key, b);
    assert WellKept(a + b, lists - {key});
    hide WellKept;
    FlatSame(a, lists, lists - {key});
    FlatSame(b, lists, lists - {key});
    FlatConcat(a, b, lists - {key});
  }

  lemma SameKeys(a: seq<int>, key: int, b: seq<int>)
    requires key !in a && key !in b
    ensures forall k :: k in a + b <==> k in a + [key] + b && k != key
    ensures key in a + [key] + b
  {
    forall k ensures k in a + [key] + b <==> k in a || k == key || k in b {
      assert k in a + [key] + b <==> k in a + [key] || k in b;
    }
  }

  lemma WellKeptChanged(a: seq<int>, key: int, b: seq<int>, lists: Lists, list: seq<Item>)
    requires WellKept(a + [key] + b, lists) && list != [] && forall i | 0 <= i < |list| :: list[i].expires == key
    ensures WellKept(a + [key] + b, lists[key := list])
    ensures Flat(a + [key] + b, lists[key := list]) == Flat(a, lists) + list + Flat(b, lists)
  {
    OrderedWithout(a, key, b);
    assert key in a + [key] + b;
    FlatSame(a, lists, lists[key := list]);
    FlatSame(b, lists, lists[key := list]);
    FlatAround(a, key, b, lists[key := list]);
    hide Ordered;
    hide Flat;
  }

  function IdsOf(items: seq<Item>): set<string> {
    set i | 0 <= i < |items| :: items[i].id
  }

  /** The first n of the later items are gone. */
  lemma {:induction false} MirrorsDrop(first: seq<Item>, items: seq<Item>, n: nat, storage: map<string, Item>)
    requires n <= |items| && Mirrors(first + items, storage)
    ensures Mirrors(first + items[n..], storage - IdsOf(items[..n]))
  {
    if n == 0 {
      assert items[0..] == items && storage - IdsOf(items[..0]) == storage;
    } else {
      assert first + items == first + [items[0]] + items[1..];
      MirrorsWithout(first, items[1..], storage, items[0]);
      MirrorsDrop(first, items[1..], n - 1, storage - {items[0].id});
      assert items[1..][n - 1..] == items[n..];
      IdsFromFirst(items, n);
      assert storage - {items[0].id} - IdsOf(items[1..][..n - 1]) == storage - IdsOf(items[..n]);
    }
  }

  lemma IdsFromFirst(items: seq<Item>, n: nat)
    requires 0 < n <= |items|
    ensures IdsOf(items[..n]) == {items[0].id} + IdsOf(items[1..][..n - 1])
  {
    forall id | id in IdsOf(items[..n]) ensures id in {items[0].id} + IdsOf(items[1..][..n - 1]) {
      var i :| 0 <= i < n && items[..n][i].id == id;
      if i > 0 {
        assert items[1..][..n - 1][i - 1].id == id;
      }
    }
    forall id | id in IdsOf(items[1..][..n - 1]) ensures id in IdsOf(items[..n]) {
      var i :| 0 <= i < n - 1 && items[1..][..n - 1][i].id == id;
      assert items[..n][i + 1].id == id;
    }
    assert items[..n][0].id == items[0].id;
  }

  lemma IdsConcat(a: seq<Item>, b: seq<Item>)
    ensures IdsOf(a + b) == IdsOf(a) + IdsOf(b)
  {
    forall id | id in IdsOf(a + b) ensures id in IdsOf(a) + IdsOf(b) {
      var i :| 0 <= i < |a + b| && (a + b)[i].id == id;
      assert if i < |a| then a[i].id == id else b[i - |a|].id == id;
    }
    forall id | id in IdsOf(a) ensures id in IdsOf(a + b) {
      var i :| 0 <= i < |a| && a[i].id == id;
      assert (a + b)[i].id == id;
    }
    forall id | id in IdsOf(b) ensures id in IdsOf(a + b) {
      var i :| 0 <= i < |b| && b[i].id == id;
      assert (a + b)[|a| + i].id == id;
    }
  }

  /** The items of one key, in order. */
  function OfKey(items: seq<Item>, key: int): seq<Item> {
    if items == [] then [] else (if items[0].expires == key then [items[0]] else []) + OfKey(items[1..], key)
  }

  lemma {:induction false} OfKeyConcat(a: seq<Item>, b: seq<Item>, key: int)
    ensures OfKey(a + b, key) == OfKey(a, key) + OfKey(b, key)
  {
    if a == [] {
      assert a + b == b;
    } else {
      assert (a + b)[0] == a[0] && (a + b)[1..] == a[1..] + b;
      OfKeyConcat(a[1..], b, key);
      var first := if a[0].expires == key then [a[0]] else [];
      assert OfKey(a + b, key) == first + OfKey(a[1..] + b, key) && OfKey(a, key) == first + OfKey(a[1..], key);
      hide OfKey;
    }
  }

  lemma {:induction false} OfOneKey(items: seq<Item>, own: int, key: int)
    requires forall i | 0 <= i < |items| :: items[i].expires == own
    ensures OfKey(items, key) == if key == own then items else []
  {
    if items != [] {
      OfOneKey(items[1..], own, key);
    }
  }

  /** A list can be told from the contents alone. */
  lemma {:induction false} ListInFlat(keys: seq<int>, lists: Lists, key: int)
    requires Ordered(keys)
    requires forall k :: k in keys ==> forall i | 0 <= i < |ListOf(lists, k)| :: ListOf(lists, k)[i].expires == k
    ensures OfKey(Flat(keys, lists), key) == if key in keys then ListOf(lists, key) else []
  {
    if keys != [] {
      ListInFlat(keys[1..], lists, key);
      OfOneKey(ListOf(lists, keys[0]), keys[0], key);
      OfKeyConcat(ListOf(lists, keys[0]), Flat(keys[1..], lists), key);
      assert key in keys <==> key == keys[0] || key in keys[1..];
    }
  }

  lemma ListKept(keys: seq<int>, lists: Lists, key: int)
    requires WellKept(keys, lists)
    ensures OfKey(Flat(keys, lists), key) == ListOf(lists, key)
  {
    hide Ordered;
    hide OfKey;
    ListInFlat(keys, lists, key);
  }

  // ----- the cache

  function Min(a: int, b: int): int {
    if a < b then a else b
  }

  /** How many of so many candidates are evicted. */
  function Evictions(limit: int, delta: int, count: int, candidates: nat): (n: nat)
    ensures n <= candidates
  {
    if count < limit || limit - count >= delta then 0 else Min(candidates, delta - (limit - count))
  }

  /** Nothing is evicted below the limit; at it, as many as are needed for delta free places, or all there are. */
  lemma EvictionsMeans(limit: int, delta: int, count: int, candidates: nat)
    ensures var n := Evictions(limit, delta, count, candidates);
            && (count < limit ==> n == 0)
            && (count >= limit ==> limit - (count - n) >= delta || n == candidates)
            && (n > 0 ==> limit - (count - n) <= delta)
  {
  }

  class Store {
    const limit: int
    const delta: int
    var count: int
    var storage: map<string, Item>
    var keys: seq<int>
    var lists: Lists

    ghost predicate Valid()
      reads this
    {
      WellKept(keys, lists) && Mirrors(Flat(keys, lists), storage) && count == |Flat(keys, lists)|
    }

    constructor (limit: int, delta: int)
      ensures Valid() && storage == map[] && this.limit == limit && this.delta == delta
    {
      this.limit, this.delta := limit, delta;
      count, storage, keys, lists := 0, map[], [], map[];
    }

    function First(): seq<Item>
      reads this
    {
      if keys == [] then [] else ListOf(lists, keys[0])
    }

    /** What can be evicted, in the order in which it would be: everything but the first list. */
    function Candidates(): seq<Item>
      reads this
    {
      if keys == [] then [] else Flat(keys[1..], lists)
    }

    /** One list is swept from its start until enough is gone. */
    method Sweep(list: seq<Item>, count: int) returns (kept: seq<Item>, count': int)
      modifies `storage
      ensures var m := if limit - count >= delta then 0 else Min(|list|, delta - (limit - count));
              && 0 <= m && kept == list[m..] && count' == count - m && storage == old(storage) - IdsOf(list[..m])
    {
      kept, count' := [], count;
      assert storage == old(storage) - IdsOf(list[..0]);
      for i := 0 to |list|
        invariant count - i <= count' <= count && count - count' <= |list|
        invariant limit - count' < delta ==> count' == count - i && kept == []
        invariant limit - count' >= delta && count' < count ==> limit - count' == delta
        invariant kept == list[count - count'..i] && storage == old(storage) - IdsOf(list[..count - count'])
      {
        if limit - count' >= delta {
          kept := kept + [list[i]];
        } else {
          assert list[..i + 1] == list[..i] + [list[i]];
          IdsConcat(list[..i], [list[i]]);
          assert IdsOf([list[i]]) == {list[i].id} by { OneId(list[i]); }
          storage := storage - {list[i].id};
          count' := count' - 1;
        }
      }
    }

    /** The limit is reached: lists are swept in key order, the first one apart, until there is room or nothing is left. */
    method Evict()
      requires Valid() && count >= limit
      modifies `count, `storage, `keys, `lists
      ensures Valid()
      ensures var n := Evictions(limit, delta, old(count), |old(Candidates())|);
              && count == old(count) - n
              && Flat(keys, lists) == old(First()) + old(Candidates())[n..]
              && storage == old(storage) - IdsOf(old(Candidates())[..n])
      ensures old(keys) != [] ==> keys != [] && keys[0] == old(keys)[0]
    {
      hide WellKept;
      hide Flat;
      hide Mirrors;
      hide Sweeping;
      hide IdsOf;
      hide ListOf;
      hide Ordered;
      hide WithoutKey;
      FlatParts(keys, lists);
      NoIds(Candidates());
      if |keys| == 0 {
        return;
      }
      ghost var first, candidates, key0 := First(), Candidates(), keys[0];
      MirrorsDropped(first, candidates, storage);
      SweepStart(keys, lists, limit - count < delta);
      var left := count;
      var all := keys;
      var i := 1;
      ghost var gone: seq<Item>, remain := [], candidates;
      while i < |all| && limit - left < delta
        invariant 1 <= i <= |all| && count == old(count) && count - left == |gone| && candidates == gone + remain
        invariant Sweeping(first, key0, all[i..], remain, limit - left < delta, keys, lists)
        invariant storage == old(storage) - IdsOf(gone)
        invariant limit - left >= delta && left < count ==> limit - left == delta
      {
        assert all[i..][1..] == all[i + 1..];
        gone, remain, left := SweepOne(all[i], left, first, key0, all[i..], gone, remain, old(storage));
        i := i + 1;
      }
      SweepEnd(first, key0, all[i..], remain, limit - left < delta, keys, lists);
      assert candidates[..|gone|] == gone && candidates[|gone|..] == remain;
      count := left;
    }

    /** The next list is swept; it goes with its last object. */
    method SweepOne(
      key: int, left: int, ghost first: seq<Item>, ghost key0: int, ghost rest: seq<int>, ghost gone: seq<Item>,
      ghost remain: seq<Item>, ghost storage0: map<string, Item>)
      returns (ghost gone': seq<Item>, ghost remain': seq<Item>, left': int)
      requires rest != [] && rest[0] == key && limit - left < delta
      requires Sweeping(first, key0, rest, remain, true, keys, lists) && storage == storage0 - IdsOf(gone)
      modifies `storage, `keys, `lists
      ensures gone' + remain' == gone + remain && left - left' == |gone'| - |gone| >= 0
      ensures Sweeping(first, key0, rest[1..], remain', limit - left' < delta, keys, lists)
      ensures storage == storage0 - IdsOf(gone')
      ensures limit - left' >= delta ==> limit - left' == delta
    {
      hide WellKept;
      hide Flat;
      hide Sweeping;
      hide IdsOf;
      hide ListOf;
      hide WithoutKey;
      ghost var later := Flat(rest[1..], lists);
      NextList(first, key0, rest, remain, keys, lists);
      var kept;
      ghost var list := lists[key];
      kept, left' := Sweep(lists[key], left);
      ghost var m := left - left';
      gone', remain' := gone + list[..m], list[m..] + later;
      IdsConcat(gone, list[..m]);
      if |kept| == 0 {
        ListGone(first, key0, rest, remain, limit - left' < delta, keys, lists);
        assert list[m..] + later == later;
        keys := WithoutKey(keys, key);
        lists := lists - {key};
      } else {
        ListCut(first, key0, rest, remain, keys, lists, m);
        lists := lists[key := kept];
      }
    }

    /** A new object goes to the end of the list of its key. */
    method Add(item: Item)
      requires Valid()
      modifies `count, `storage, `keys, `lists
      ensures count == old(count) + 1 && storage == old(storage)[item.id := item]
      ensures Inserted(old(Flat(keys, lists)), item, Flat(keys, lists))
      ensures WellKept(keys, lists) && ListOf(lists, item.expires) == ListOf(old(lists), item.expires) + [item]
      ensures item.id !in old(storage) ==> Valid()
    {
      hide WellKept;
      hide Flat;
      hide Mirrors;
      hide Inserted;
      hide ListOf;
      hide WithKey;
      ghost var flat, storage0 := Flat(keys, lists), storage;
      AddStep(keys, lists, item);
      storage := storage[item.id := item];
      if item.expires !in lists {
        keys := WithKey(keys, item.expires);
      }
      lists := lists[item.expires := ListOf(lists, item.expires) + [item]];
      count := count + 1;
      if item.id !in storage0 {
        InsertedMirrors(flat, storage0, item, Flat(keys, lists));
      }
    }

    /** An object is cached under the given time, or the current one; with the limit reached, others are evicted first. */
    method Set(id: string, expires: Option<int>, now: int)
      requires Valid()
      modifies `count, `storage, `keys, `lists
      ensures var item, n := Item(id, if expires.Some? then expires.value else now),
                             Evictions(limit, delta, old(count), |old(Candidates())|);
              && Inserted(old(First()) + old(Candidates())[n..], item, Flat(keys, lists))
              && ListOf(lists, item.expires) == OfKey(old(First()) + old(Candidates())[n..], item.expires) + [item]
              && storage == (old(storage) - IdsOf(old(Candidates())[..n]))[id := item]
              && count == old(count) - n + 1
      // an id that is there already is counted twice, unless it was among those evicted
      ensures var n := Evictions(limit, delta, old(count), |old(Candidates())|);
              Valid() <==> id !in old(storage) - IdsOf(old(Candidates())[..n])
      ensures !Valid() ==> count == |storage| + 1
    {
      hide WellKept;
      hide Flat;
      hide Mirrors;
      hide IdsOf;
      hide ListOf;
      hide Inserted;
      hide OfKey;
      FlatParts(keys, lists);
      NoIds(Candidates());
      assert Candidates()[0..] == Candidates() && First() + Candidates() == Flat(keys, lists);
      CountIsSize();
      if count >= limit {
        Evict();
      }
      var key := if expires.Some? then expires.value else now;
      ListKept(keys, lists, key);
      ghost var kept := storage;
      CountIsSize();
      Add(Item(id, key));
      SizeWith(kept, id, Item(id, key));
      if Valid() {
        CountIsSize();
      }
    }

    /** Valid says that the three ways to count agree. */
    lemma CountIsSize()
      requires Valid()
      ensures count == |storage| == |Flat(keys, lists)|
    {
      MirrorsMeans(Flat(keys, lists), storage);
    }

    /** A cached object is taken out of the storage and out of its list. */
    method Remove(id: string) returns (deleted: bool)
      requires Valid() && id in storage
      modifies `count, `storage, `keys, `lists
      ensures Valid() && deleted
      ensures count == old(count) - 1 && storage == old(storage) - {id}
      ensures Inserted(Flat(keys, lists), old(storage)[id], old(Flat(keys, lists)))
    {
      hide WellKept;
      hide Flat;
      hide Mirrors;
      hide IdsOf;
      hide ListOf;
      hide Inserted;
      hide Filtered;
      hide WithoutKey;
      var obj := storage[id];
      var expires := obj.expires;
      RemoveStep(keys, lists, storage, id);
      var kept := FilterId(lists[expires], id);
      ghost var flat0 := Flat(keys, lists);
      if |kept| == 0 {
        keys := WithoutKey(keys, expires);
        lists := lists - {expires};
      } else {
        lists := lists[expires := kept];
      }
      count := count - 1;
      storage := storage - {id};
      InsertedBack(Flat(keys, lists), obj, flat0, old(storage));
      deleted := true;
    }

    method FilterId(list: seq<Item>, id: string) returns (kept: seq<Item>)
      ensures kept == Filtered(list, id)
    {
      kept := [];
      for i := 0 to |list|
        invariant kept == Filtered(list[..i], id)
      {
        assert list[..i + 1][..i] == list[..i];
        if list[i].id != id {
          kept := kept + [list[i]];
        }
      }
      assert list[..|list|] == list;
    }

    method Clear()
      modifies `count, `storage, `keys, `lists
      ensures Valid() && storage == map[] && count == 0
    {
      count, storage, keys, lists := 0, map[], [], map[];
    }

    /** Caching an object and removing it again leaves the cache as it was. */
    method SetThenRemove(id: string, expires: Option<int>, now: int)
      requires Valid() && id !in storage && count < limit
      modifies `count, `storage, `keys, `lists
      ensures Valid() && storage == old(storage) && count == old(count) && Flat(keys, lists) == old(Flat(keys, lists))
    {
      hide WellKept;
      hide Flat;
      hide IdsOf;
      hide ListOf;
      hide OfKey;
      hide Inserted;
      hide Mirrors;
      ghost var flat := Flat(keys, lists);
      FlatParts(keys, lists);
      NoIds(Candidates());
      assert Candidates()[0..] == Candidates();
      Set(id, expires, now);
      ghost var flat1, item := Flat(keys, lists), storage[id];
      MirrorsMeans(flat1, storage);
      var deleted := Remove(id);
      InsertedUnique(flat, Flat(keys, lists), item, flat1);
    }

    method Perform(action: Action, now: int)
      requires Valid()
      modifies `count, `storage, `keys, `lists
      ensures Valid()
    {
      match action {
        case Cache(id, expires) =>
          if id !in storage {
            Set(id, expires, now);
          }
        case Drop(id) =>
          if id in storage {
            var deleted := Remove(id);
          }
        case Empty =>
          Clear();
      }
    }
  }

  /** Callers look an id up first: they cache what is absent and remove what is there. */
  datatype Action = Cache(id: string, expires: Option<int>) | Drop(id: string) | Empty

  /** Over every run, the count is the number of stored objects and the total length of the lists. */
  method Run(cache: Store, actions: seq<Action>, times: seq<int>)
    requires cache.Valid() && |times| == |actions|
    modifies cache
    ensures cache.Valid() && cache.count == |cache.storage| == |Flat(cache.keys, cache.lists)|
  {
    for i := 0 to |actions|
      invariant cache.Valid()
    {
      cache.Perform(actions[i], times[i]);
    }
    cache.CountIsSize();
  }

  lemma SizeWith(storage: map<string, Item>, id: string, item: Item)
    ensures |storage[id := item]| == |storage| + if id in storage then 0 else 1
  {
    assert storage[id := item].Keys == storage.Keys + {id};
  }

  function Filtered(list: seq<Item>, id: string): seq<Item> {
    if list == [] then []
    else Filtered(list[..|list| - 1], id) + if list[|list| - 1].id != id then [list[|list| - 1]] else []
  }

  lemma {:induction false} FilteredAll(list: seq<Item>, id: string)
    requires forall i | 0 <= i < |list| :: list[i].id != id
    ensures Filtered(list, id) == list
  {
    if list != [] {
      FilteredAll(list[..|list| - 1], id);
    }
  }

  lemma {:induction false} FilteredOne(a: seq<Item>, item: Item, b: seq<Item>)
    requires forall i | 0 <= i < |a| :: a[i].id != item.id
    requires forall i | 0 <= i < |b| :: b[i].id != item.id
    ensures Filtered(a + [item] + b, item.id) == a + b
  {
    var all := a + [item] + b;
    if b == [] {
      assert all[..|all| - 1] == a && a + b == a;
      FilteredAll(a, item.id);
    } else {
      var k := |b| - 1;
      assert all[..|all| - 1] == a + [item] + b[..k];
      FilteredOne(a, item, b[..k]);
      assert a + b[..k] + [b[k]] == a + b;
    }
  }

  /** An object of the contents is in the list of its own key. */
  lemma {:induction false} InItsList(keys: seq<int>, lists: Lists, item: Item)
    requires item in Flat(keys, lists)
    requires forall k :: k in lists ==> forall i | 0 <= i < |lists[k]| :: lists[k][i].expires == k
    ensures item.expires in keys && item.expires in lists && item in lists[item.expires]
  {
    if item in ListOf(lists, keys[0]) {
    } else {
      assert item in Flat(keys[1..], lists);
      InItsList(keys[1..], lists, item);
    }
  }

  lemma RemoveStep(keys: seq<int>, lists: Lists, storage: map<string, Item>, id: string)
    requires WellKept(keys, lists) && Mirrors(Flat(keys, lists), storage) && id in storage
    ensures var item := storage[id];
            && item.id == id && item.expires in lists
            && var kept := Filtered(lists[item.expires], id);
               var keys', lists' := if kept == [] then WithoutKey(keys, item.expires) else keys,
                                    if kept == [] then lists - {item.expires} else lists[item.expires := kept];
               WellKept(keys', lists') && Inserted(Flat(keys', lists'), item, Flat(keys, lists))
  {
    var item := storage[id];
    MirrorsMeans(Flat(keys, lists), storage);
    InItsList(keys, lists, item);
    hide Mirrors;
    hide Ordered;
    var a, b := Around(keys, item.expires);
    var before, after := Around(lists[item.expires], item);
    FlatAround(a, item.expires, b, lists);
    assert ListOf(lists, item.expires) == before + [item] + after;
    hide *;
    OnlyThere(Flat(a, lists), before, item, after, Flat(b, lists));
    FilteredOne(before, item, after);
    TakeOut(a, item.expires, b, lists, before, item, after);
  }

  lemma Around<T>(s: seq<T>, x: T) returns (a: seq<T>, b: seq<T>)
    requires x in s
    ensures s == a + [x] + b
  {
    var i :| 0 <= i < |s| && s[i] == x;
    a, b := s[..i], s[i + 1..];
  }

  /** With distinct ids, the object is nowhere else in its list. */
  lemma OnlyThere(a: seq<Item>, before: seq<Item>, item: Item, after: seq<Item>, b: seq<Item>)
    requires var flat := a + (before + [item] + after) + b;
             forall i, j | 0 <= i < j < |flat| :: flat[i].id != flat[j].id
    ensures forall i | 0 <= i < |before| :: before[i].id != item.id
    ensures forall i | 0 <= i < |after| :: after[i].id != item.id
  {
    var flat := a + (before + [item] + after) + b;
    var p := |a| + |before|;
    assert flat[p] == item;
    forall i | 0 <= i < |before| ensures before[i].id != item.id {
      assert flat[|a| + i] == before[i];
    }
    forall i | 0 <= i < |after| ensures after[i].id != item.id {
      assert flat[p + 1 + i] == after[i];
    }
  }

  lemma TakeOut(a: seq<int>, key: int, b: seq<int>, lists: Lists, before: seq<Item>, item: Item, after: seq<Item>)
    requires WellKept(a + [key] + b, lists) && key in lists && lists[key] == before + [item] + after && item.expires == key
    ensures var keys, kept := a + [key] + b, before + after;
            var keys', lists' := if kept == [] then WithoutKey(keys, key) else keys,
                                 if kept == [] then lists - {key} else lists[key := kept];
            WellKept(keys', lists') && Inserted(Flat(keys', lists'), item, Flat(keys, lists))
  {
    var kept := before + after;
    FlatAround(a, key, b, lists);
    assert ListOf(lists, key) == lists[key];
    if kept == [] {
      WellKeptWithout(a, key, b, lists);
    } else {
      StillUnder(key, before, item, after, lists[key]);
      WellKeptChanged(a, key, b, lists, kept);
    }
    hide *;
    Between(Flat(a, lists), before, item, after, Flat(b, lists));
  }

  lemma StillUnder(key: int, before: seq<Item>, item: Item, after: seq<Item>, list: seq<Item>)
    requires list == before + [item] + after && forall i | 0 <= i < |list| :: list[i].expires == key
    ensures var kept := before + after; forall i | 0 <= i < |kept| :: kept[i].expires == key
  {
    var kept := before + after;
    forall i | 0 <= i < |kept| ensures kept[i].expires == key {
      assert kept[i] == list[if i < |before| then i else i + 1];
    }
  }

  lemma Between(x: seq<Item>, before: seq<Item>, item: Item, after: seq<Item>, y: seq<Item>)
    ensures Inserted(x + (before + after) + y, item, x + (before + [item] + after) + y)
    ensures before + after == [] ==> x + (before + after) + y == x + y
  {
    InsertedHere(x + before, item, after + y);
    assert x + before + [item] + (after + y) == x + (before + [item] + after) + y;
    assert x + before + (after + y) == x + (before + after) + y;
    if before + after == [] {
      assert x + [] == x;
    }
  }

  lemma InsertedBack(flat: seq<Item>, item: Item, flat0: seq<Item>, storage0: map<string, Item>)
    requires Inserted(flat, item, flat0) && Mirrors(flat0, storage0)
    ensures Mirrors(flat, storage0 - {item.id}) && |flat| == |flat0| - 1
  {
    var a, b :| InsertedBetween(a, item, b, flat, flat0);
    MirrorsWithout(a, b, storage0, item);
    hide Mirrors;
  }

  /** Taking out an object that is there once can give only one result. */
  lemma InsertedUnique(a: seq<Item>, b: seq<Item>, item: Item, flat: seq<Item>)
    requires Inserted(a, item, flat) && Inserted(b, item, flat)
    requires forall i, j | 0 <= i < j < |flat| :: flat[i].id != flat[j].id
    ensures a == b
  {
    var a1, a2 :| InsertedBetween(a1, item, a2, a, flat);
    var b1, b2 :| InsertedBetween(b1, item, b2, b, flat);
    assert flat[|a1|] == item && flat[|b1|] == item;
    assert |a1| == |b1|;
    assert a1 == flat[..|a1|] == b1;
    assert a2 == flat[|a1| + 1..] == b2;
  }

  /** The object is put in somewhere, the others stay in order. */
  ghost predicate Inserted(flat: seq<Item>, item: Item, flat': seq<Item>) {
    exists a, b :: InsertedBetween(a, item, b, flat, flat')
  }

  predicate InsertedBetween(a: seq<Item>, item: Item, b: seq<Item>, flat: seq<Item>, flat': seq<Item>) {
    flat == a + b && flat' == a + [item] + b
  }

  lemma InsertedHere(a: seq<Item>, item: Item, b: seq<Item>)
    ensures Inserted(a + b, item, a + [item] + b)
  {
    assert InsertedBetween(a, item, b, a + b, a + [item] + b);
  }

  lemma InsertedMirrors(flat: seq<Item>, storage: map<string, Item>, item: Item, flat': seq<Item>)
    requires Mirrors(flat, storage) && Inserted(flat, item, flat') && item.id !in storage
    ensures Mirrors(flat', storage[item.id := item]) && |flat'| == |flat| + 1
  {
    var a, b :| InsertedBetween(a, item, b, flat, flat');
    MirrorsWith(a, b, storage, item);
    hide Mirrors;
  }

  lemma AddStep(keys: seq<int>, lists: Lists, item: Item)
    requires WellKept(keys, lists)
    ensures var key := item.expires;
            var keys', lists' := if key in lists then keys else WithKey(keys, key),
                                 lists[key := ListOf(lists, key) + [item]];
            && WellKept(keys', lists') && Inserted(Flat(keys, lists), item, Flat(keys', lists'))
            && ListOf(lists', key) == ListOf(lists, key) + [item]
  {
    var key := item.expires;
    if key in lists {
      assert key in keys;
      var a, b := Around(keys, key);
      WellKeptChanged(a, key, b, lists, lists[key] + [item]);
      FlatAround(a, key, b, lists);
      assert ListOf(lists, key) == lists[key];
      hide Flat;
      hide WellKept;
      AtEnd(Flat(a, lists), ListOf(lists, key), item, Flat(b, lists));
    } else {
      AddKey(keys, lists, item);
    }
  }

  lemma AtEnd(x: seq<Item>, list: seq<Item>, item: Item, y: seq<Item>)
    ensures Inserted(x + list + y, item, x + (list + [item]) + y)
  {
    InsertedHere(x + list, item, y);
    assert x + (list + [item]) == x + list + [item];
  }

  lemma AddKey(keys: seq<int>, lists: Lists, item: Item)
    requires WellKept(keys, lists) && item.expires !in lists
    ensures var keys', lists' := WithKey(keys, item.expires), lists[item.expires := ListOf(lists, item.expires) + [item]];
            && WellKept(keys', lists') && Inserted(Flat(keys, lists), item, Flat(keys', lists'))
            && ListOf(lists', item.expires) == ListOf(lists, item.expires) + [item]
  {
    assert ListOf(lists, item.expires) + [item] == [item];
    KeyAdded(keys, lists, item.expires, item);
    FlatWithKey(keys, lists, item.expires, item);
    hide *;
  }

  lemma KeyAdded(keys: seq<int>, lists: Lists, key: int, item: Item)
    requires WellKept(keys, lists) && key !in lists && item.expires == key
    ensures WellKept(WithKey(keys, key), lists[key := [item]]) && ListOf(lists[key := [item]], key) == [item]
    ensures key !in keys
  {
    WithKeyOrdered(keys, key);
    hide Ordered;
    hide WithKey;
  }

  lemma FlatWithKey(keys: seq<int>, lists: Lists, key: int, item: Item)
    requires key !in keys && key !in lists
    ensures Inserted(Flat(keys, lists), item, Flat(WithKey(keys, key), lists[key := [item]]))
  {
    var lists' := lists[key := [item]];
    var p := PlaceOf(keys, key);
    var a, b := keys[..p], keys[p..];
    assert keys == a + b && WithKey(keys, key) == a + [key] + b;
    assert ListOf(lists', key) == [item];
    FlatSame(a, lists, lists');
    FlatSame(b, lists, lists');
    hide *;
    FlatAround(a, key, b, lists');
    FlatConcat(a, b, lists);
    InsertedHere(Flat(a, lists), item, Flat(b, lists));
  }

  lemma NoIds(items: seq<Item>)
    ensures IdsOf(items[..0]) == {}
  {
  }

  lemma OneId(item: Item)
    ensures IdsOf([item]) == {item.id}
  {
    assert [item][0].id in IdsOf([item]);
  }

  lemma FlatParts(keys: seq<int>, lists: Lists)
    ensures Flat(keys, lists) == if keys == [] then [] else ListOf(lists, keys[0]) + Flat(keys[1..], lists)
  {
  }

  lemma MirrorsDropped(first: seq<Item>, items: seq<Item>, storage: map<string, Item>)
    requires Mirrors(first + items, storage)
    ensures forall n | 0 <= n <= |items| :: Mirrors(first + items[n..], storage - IdsOf(items[..n]))
  {
    forall n | 0 <= n <= |items| ensures Mirrors(first + items[n..], storage - IdsOf(items[..n])) {
      MirrorsDrop(first, items, n, storage);
    }
  }

  /** Where a sweep stands: `remain` is what it has left of the candidates; while more are wanted, whole lists are gone. */
  ghost predicate Sweeping(
    first: seq<Item>, key0: int, rest: seq<int>, remain: seq<Item>, more: bool, keys: seq<int>, lists: Lists)
  {
    && WellKept(keys, lists) && keys != [] && keys[0] == key0 && Flat(keys, lists) == first + remain
    && (more ==> keys == [key0] + rest && ListOf(lists, key0) == first && Flat(rest, lists) == remain)
  }

  lemma SweepStart(keys: seq<int>, lists: Lists, more: bool)
    requires WellKept(keys, lists) && keys != []
    ensures Sweeping(ListOf(lists, keys[0]), keys[0], keys[1..], Flat(keys[1..], lists), more, keys, lists)
  {
    assert keys == [keys[0]] + keys[1..];
  }

  lemma SweepEnd(
    first: seq<Item>, key0: int, rest: seq<int>, remain: seq<Item>, more: bool, keys: seq<int>, lists: Lists)
    requires Sweeping(first, key0, rest, remain, more, keys, lists)
    ensures WellKept(keys, lists) && keys != [] && keys[0] == key0 && Flat(keys, lists) == first + remain
    ensures more && rest == [] ==> remain == []
  {
    hide WellKept;
  }

  lemma NextList(first: seq<Item>, key0: int, rest: seq<int>, remain: seq<Item>, keys: seq<int>, lists: Lists)
    requires Sweeping(first, key0, rest, remain, true, keys, lists) && rest != []
    ensures rest[0] in lists && remain == lists[rest[0]] + Flat(rest[1..], lists)
    ensures keys == [key0] + [rest[0]] + rest[1..]
  {
    assert rest == [rest[0]] + rest[1..];
    assert rest[0] in keys;
  }

  lemma ListGone(
    first: seq<Item>, key0: int, rest: seq<int>, remain: seq<Item>, more: bool, keys: seq<int>, lists: Lists)
    requires Sweeping(first, key0, rest, remain, true, keys, lists) && rest != []
    ensures var key := rest[0];
            Sweeping(first, key0, rest[1..], Flat(rest[1..], lists), more, WithoutKey(keys, key), lists - {key})
  {
    var key, later := rest[0], rest[1..];
    NextList(first, key0, rest, remain, keys, lists);
    WellKeptWithout([key0], key, later, lists);
    FlatOne(key0, lists);
    FlatSame(later, lists, lists - {key});
    hide Flat;
    hide WellKept;
    hide WithoutKey;
  }

  lemma ListCut(
    first: seq<Item>, key0: int, rest: seq<int>, remain: seq<Item>, keys: seq<int>, lists: Lists, m: nat)
    requires Sweeping(first, key0, rest, remain, true, keys, lists) && rest != []
    requires rest[0] in lists && m < |lists[rest[0]]|
    ensures var key := rest[0];
            Sweeping(first, key0, rest[1..], lists[key][m..] + Flat(rest[1..], lists), false, keys, lists[key := lists[key][m..]])
  {
    var key, later := rest[0], rest[1..];
    var kept := lists[key][m..];
    NextList(first, key0, rest, remain, keys, lists);
    WellKeptChanged([key0], key, later, lists, kept);
    FlatOne(key0, lists);
    assert ListOf(lists, key0) == first;
    hide *;
    CutDone(first, key0, later, kept, Flat(later, lists), keys, lists[key := kept]);
  }

  lemma CutDone(
    first: seq<Item>, key0: int, later: seq<int>, kept: seq<Item>, others: seq<Item>, keys: seq<int>, lists: Lists)
    requires WellKept(keys, lists) && keys != [] && keys[0] == key0 && Flat(keys, lists) == first + kept + others
    ensures Sweeping(first, key0, later, kept + others, false, keys, lists)
  {
    hide WellKept;
    hide Flat;
    assert first + kept + others == first + (kept + others);
  }

  lemma FlatOne(key: int, lists: Lists)
    ensures Flat([key], lists) == ListOf(lists, key)
  {
    assert [key][1..] == [];
    assert ListOf(lists, key) + [] == ListOf(lists, key);
  }
}
