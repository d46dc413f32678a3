/** The open-addressing hash table of toml/table.c. */
module TomlTable {
  import opened Options

  const TABLE_INIT_BUF := 8

  /** Keys are C strings, without their NUL. */
  datatype Slot<+V> = Free | Used(key: string, val: V)

  /** A char is signed. */
  function CharValue(c: char): int
  {
    var n := c as int % 0x100;
    if n < 0x80 then n else n - 0x100
  }

  /** djb2, in 64 bits */
  function Djb2(key: string, hash: nat): nat
  {
    if key == "" then hash else Djb2(key[1..], (hash * 33 + CharValue(key[0])) % 0x1_0000_0000_0000_0000)
  }

  /** _hash_table_hash */
  method HashTableHash(key: string) returns (hash: nat)
    ensures hash == Djb2(key, 5381)
  {
    hash := 5381;
    for i := 0 to |key|
      invariant Djb2(key[i..], hash) == Djb2(key, 5381)
    {
      assert key[i..][1..] == key[i + 1..];
      hash := (hash * 33 + CharValue(key[i])) % 0x1_0000_0000_0000_0000;
    }
  }

  /** Where the search for a key starts; the capacity is a power of two, so that masking is the remainder. */
  function Home(key: string, cap: nat): (home: nat)
    requires cap > 0
    ensures home < cap
  {
    Djb2(key, 5381) % cap
  }

  // ---------- probing ----------

  /** The slot `k` steps behind `home`, cyclically. */
  function Around(home: nat, k: nat, cap: nat): (i: nat)
    requires home < cap && k < cap
    ensures i < cap
  {
    if home + k < cap then home + k else home + k - cap
  }

  /** How many steps behind `home` a slot is. */
  function Steps(home: nat, i: nat, cap: nat): (k: nat)
    requires home < cap && i < cap
    ensures k < cap && Around(home, k, cap) == i
  {
    if home <= i then i - home else i + cap - home
  }

  predicate Stops<V>(slot: Slot<V>, key: string)
  {
    slot.Free? || slot.key == key
  }

  /** The first slot from step `k` on that is free or has the key. */
  function Probe<V>(tab: seq<Slot<V>>, key: string, home: nat, k: nat): (r: Option<nat>)
    requires home < |tab| && k <= |tab|
    ensures r.Some? ==> r.value < |tab| && Stops(tab[r.value], key)
    decreases |tab| - k
  {
    if k == |tab| then None
    else if Stops(tab[Around(home, k, |tab|)], key) then Some(Around(home, k, |tab|))
    else Probe(tab, key, home, k + 1)
  }

  function Find<V>(tab: seq<Slot<V>>, key: string): Option<nat>
    requires tab != []
  {
    Probe(tab, key, Home(key, |tab|), 0)
  }

  /** Where a search stops, no earlier slot does. */
  lemma {:induction false} ProbeFirst<V>(tab: seq<Slot<V>>, key: string, home: nat, k: nat)
    requires home < |tab| && k <= |tab|
    ensures match Probe(tab, key, home, k)
      case None =>
        forall j {:trigger Around(home, j, |tab|)} :: k <= j < |tab| ==> !Stops(tab[Around(home, j, |tab|)], key)
      case Some(i) =>
        && k <= Steps(home, i, |tab|)
        && forall j {:trigger Around(home, j, |tab|)} :: k <= j < Steps(home, i, |tab|) ==>
          !Stops(tab[Around(home, j, |tab|)], key)
    decreases |tab| - k
  {
    if k < |tab| && !Stops(tab[Around(home, k, |tab|)], key) {
      ProbeFirst(tab, key, home, k + 1);
    }
  }

  // ---------- the invariant ----------

  predicate UniqueKeys<V>(tab: seq<Slot<V>>)
  {
    forall i, j :: 0 <= i < j < |tab| && tab[i].Used? && tab[j].Used? ==> tab[i].key != tab[j].key
  }

  /** Every slot cyclically between a key's home and its position is in use. */
  predicate Reachable<V>(tab: seq<Slot<V>>, i: nat)
    requires i < |tab|
  {
    tab[i].Used? ==>
      var home := Home(tab[i].key, |tab|);
      forall j {:trigger Around(home, j, |tab|)} :: 0 <= j < Steps(home, i, |tab|) ==> tab[Around(home, j, |tab|)].Used?
  }

  predicate Inv<V>(tab: seq<Slot<V>>)
  {
    UniqueKeys(tab) && forall i :: 0 <= i < |tab| ==> Reachable(tab, i)
  }

  /** The map a table stands for. */
  function Model<V>(tab: seq<Slot<V>>): map<string, V>
  {
    if tab == [] then map[]
    else
      var last := tab[|tab| - 1];
      var front := Model(tab[..|tab| - 1]);
      if last.Free? then front else front[last.key := last.val]
  }

  function UsedSlots<V>(tab: seq<Slot<V>>): (n: nat)
    ensures n <= |tab|
  {
    if tab == [] then 0 else UsedSlots(tab[..|tab| - 1]) + if tab[|tab| - 1].Free? then 0 else 1
  }

  lemma {:induction false} FrontUnique<V>(tab: seq<Slot<V>>)
    requires tab != [] && UniqueKeys(tab)
    ensures UniqueKeys(tab[..|tab| - 1])
  {
  }

  /** A slot in use is in the map. */
  lemma {:induction false} ModelHas<V>(tab: seq<Slot<V>>, i: nat)
    requires UniqueKeys(tab) && i < |tab| && tab[i].Used?
    ensures tab[i].key in Model(tab) && Model(tab)[tab[i].key] == tab[i].val
  {
    if i < |tab| - 1 {
      FrontUnique(tab);
      ModelHas(tab[..|tab| - 1], i);
    }
  }

  /** A key of the map is in a slot. */
  lemma {:induction false} ModelOnly<V>(tab: seq<Slot<V>>, key: string) returns (i: nat)
    requires key in Model(tab)
    ensures i < |tab| && tab[i].Used? && tab[i].key == key
  {
    i := |tab| - 1;
    if tab[i].Free? || tab[i].key != key {
      i := ModelOnly(tab[..i], key);
    }
  }

  lemma {:induction false} ModelSize<V>(tab: seq<Slot<V>>)
    requires UniqueKeys(tab)
    ensures |Model(tab)| == UsedSlots(tab)
  {
    if tab != [] {
      var n := |tab| - 1;
      FrontUnique(tab);
      ModelSize(tab[..n]);
      if tab[n].Used? && tab[n].key in Model(tab[..n]) {
        var i := ModelOnly(tab[..n], tab[n].key);
        assert false;
      }
    }
  }

  lemma {:induction false} FullMeans<V>(tab: seq<Slot<V>>)
    ensures UsedSlots(tab) == |tab| <==> forall i :: 0 <= i < |tab| ==> tab[i].Used?
  {
    if tab != [] {
      FullMeans(tab[..|tab| - 1]);
      assert forall i :: 0 <= i < |tab| - 1 ==> tab[..|tab| - 1][i] == tab[i];
    }
  }

  // ---------- finding ----------

  /** Under the invariant a search ends at the key's slot if the key is there, else at a free slot,
      unless all slots are in use. */
  lemma {:induction false} FindMeans<V>(tab: seq<Slot<V>>, key: string)
    requires tab != [] && Inv(tab)
    ensures key in Model(tab) ==> Find(tab, key).Some? && tab[Find(tab, key).value] == Used(key, Model(tab)[key])
    ensures key !in Model(tab) ==> (Find(tab, key).None? <==> UsedSlots(tab) == |tab|)
    ensures key !in Model(tab) && Find(tab, key).Some? ==> tab[Find(tab, key).value].Free?
  {
    var home := Home(key, |tab|);
    ProbeFirst(tab, key, home, 0);
    FullMeans(tab);
    if key in Model(tab) {
      var i := ModelOnly(tab, key);
      ModelHas(tab, i);
      assert Reachable(tab, i);
      FoundAt(tab, key, i);
    } else {
      NotFound(tab, key);
    }
  }

  lemma {:induction false} FoundAt<V>(tab: seq<Slot<V>>, key: string, i: nat)
    requires i < |tab| && UniqueKeys(tab) && tab[i].Used? && tab[i].key == key && Reachable(tab, i)
    ensures Find(tab, key) == Some(i)
  {
    var home := Home(key, |tab|);
    ProbeFirst(tab, key, home, 0);
    assert Around(home, Steps(home, i, |tab|), |tab|) == i;
    match Find(tab, key)
    case None =>
    case Some(k) => assert Around(home, Steps(home, k, |tab|), |tab|) == k;
  }

  lemma {:induction false} NotFound<V>(tab: seq<Slot<V>>, key: string)
    requires tab != [] && UniqueKeys(tab) && key !in Model(tab)
    ensures match Find(tab, key)
      case None => forall i :: 0 <= i < |tab| ==> tab[i].Used?
      case Some(i) => tab[i].Free?
  {
    var home := Home(key, |tab|);
    ProbeFirst(tab, key, home, 0);
    match Find(tab, key)
    case Some(i) =>
      if tab[i].Used? {
        ModelHas(tab, i);
      }
    case None =>
      forall i | 0 <= i < |tab|
        ensures tab[i].Used?
      {
        assert Around(home, Steps(home, i, |tab|), |tab|) == i;
      }
  }

  // ---------- storing ----------

  lemma {:induction false} StoreKeepsInv<V>(tab: seq<Slot<V>>, key: string, val: V)
    requires tab != [] && Inv(tab) && Find(tab, key).Some?
    ensures Inv(tab[Find(tab, key).value := Used(key, val)])
  {
    var p := Find(tab, key).value;
    var tab' := tab[p := Used(key, val)];
    var home := Home(key, |tab|);
    ProbeFirst(tab, key, home, 0);
    FindMeans(tab, key);
    forall i | 0 <= i < |tab'|
      ensures Reachable(tab', i)
    {
      if i != p {
        assert Reachable(tab, i);
      }
    }
    forall i, j | 0 <= i < j < |tab'| && tab'[i].Used? && tab'[j].Used?
      ensures tab'[i].key != tab'[j].key
    {
      var k := if i == p then j else i;
      if (i == p || j == p) && tab[k].key == key {
        ModelHas(tab, k);
      }
    }
  }

  lemma {:induction false} StoreUpdatesModel<V>(tab: seq<Slot<V>>, p: nat, key: string, val: V)
    requires p < |tab| && UniqueKeys(tab) && UniqueKeys(tab[p := Used(key, val)]) && Stops(tab[p], key)
    ensures Model(tab[p := Used(key, val)]) == Model(tab)[key := val]
  {
    var n := |tab| - 1;
    var tab' := tab[p := Used(key, val)];
    if p == n {
      assert tab'[..n] == tab[..n];
      assert Model(tab') == Model(tab[..n])[key := val];
    } else {
      assert tab'[..n] == tab[..n][p := Used(key, val)];
      FrontUnique(tab);
      FrontUnique(tab');
      StoreUpdatesModel(tab[..n], p, key, val);
      if tab[n].Used? {
        assert tab'[p].key != tab'[n].key;
      }
    }
  }

  lemma {:induction false} EmptyTable<V>(tab: seq<Slot<V>>)
    requires forall i :: 0 <= i < |tab| ==> tab[i].Free?
    ensures Inv(tab) && Model(tab) == map[] && UsedSlots(tab) == 0
  {
    if tab != [] {
      EmptyTable(tab[..|tab| - 1]);
    }
  }

  /** What hash_table_lookup returns. */
  function Lookup<V>(tab: seq<Slot<V>>, key: string): Option<V>
    requires tab != []
  {
    match Find(tab, key)
    case None => None
    case Some(i) => if tab[i].Used? then Some(tab[i].val) else None
  }

  lemma {:induction false} LookupMeans<V>(tab: seq<Slot<V>>, key: string)
    requires tab != [] && Inv(tab)
    ensures Lookup(tab, key) == if key in Model(tab) then Some(Model(tab)[key]) else None
  {
    FindMeans(tab, key);
  }

  class HashTable<V> {
    var tab: array<Slot<V>>
    var size: nat
    var cap: nat

    ghost predicate Valid()
      reads this, tab
    {
      0 < cap == tab.Length && Inv(tab[..])
    }

    ghost function Contents(): map<string, V>
      reads this, tab
    {
      Model(tab[..])
    }

    /** hash_table_new */
    constructor ()
      ensures Valid() && fresh(tab) && Contents() == map[] && size == 0 && cap == TABLE_INIT_BUF
    {
      tab := new Slot<V>[TABLE_INIT_BUF](_ => Free);
      size, cap := 0, TABLE_INIT_BUF;
      new;
      EmptyTable(tab[..]);
    }

    /** _hash_table_find: the two probe loops. */
    method HashTableFind(key: string) returns (found: Option<nat>)
      requires 0 < cap == tab.Length
      ensures found == Find(tab[..], key)
    {
      var hash := HashTableHash(key);
      var pos := hash % cap;
      var i := pos;
      while i < cap
        invariant pos <= i <= cap
        invariant Find(tab[..], key) == Probe(tab[..], key, pos, i - pos)
      {
        if tab[i].Free? || tab[i].key == key {
          return Some(i);
        }
        i := i + 1;
      }
      i := 0;
      while i < pos
        invariant 0 <= i <= pos
        invariant Find(tab[..], key) == Probe(tab[..], key, pos, cap - pos + i)
      {
        if tab[i].Free? || tab[i].key == key {
          return Some(i);
        }
        i := i + 1;
      }
      found := None;
    }

    /** The end of _hash_table_insert: the slot found gets the key and the value. `ok` is false where
        the original asserts that a slot was found. */
    method Store(key: string, val: V) returns (ok: bool)
      requires Valid()
      modifies tab
      ensures Valid()
      ensures ok == (key in old(Contents()) || |old(Contents())| < cap)
      ensures Contents() == if ok then old(Contents())[key := val] else old(Contents())
    {
      var found := HashTableFind(key);
      ghost var before := tab[..];
      FindMeans(before, key);
      ModelSize(before);
      if found.None? {
        return false;
      }
      StoreKeepsInv(before, key, val);
      StoreUpdatesModel(before, found.value, key, val);
      tab[found.value] := Used(key, val);
      assert tab[..] == before[found.value := Used(key, val)];
      ok := true;
    }

    /** _hash_table_expand: every entry is inserted again into a table twice as large. */
    method HashTableExpand()
      requires Valid()
      modifies this
      ensures Valid() && fresh(tab) && cap == 2 * old(cap) && size == 0
      ensures Contents() == old(Contents())
      decreases 1
    {
      var oldTab, oldCap := tab, cap;
      ghost var slots := tab[..];
      cap := 2 * cap;
      tab := new Slot<V>[cap](_ => Free);
      size := 0;
      EmptyTable(tab[..]);
      var i := 0;
      while i < oldCap
        invariant 0 <= i <= oldCap && Valid() && fresh(tab) && cap == 2 * oldCap && size == 0
        invariant oldTab[..] == slots && Contents() == Model(slots[..i])
      {
        assert slots[..i + 1][..i] == slots[..i];
        assert UniqueKeys(slots[..i]);
        ModelSize(slots[..i]);
        if oldTab[i].Used? {
          var ok := HashTableInsert(oldTab[i].key, oldTab[i].val);
        }
        i := i + 1;
      }
      assert slots[..oldCap] == slots;
    }

    /** _hash_table_insert. The size is never counted up, so a table of hash_table_new never expands:
        it has room for eight keys for ever. */
    method HashTableInsert(key: string, val: V) returns (ok: bool)
      requires Valid()
      modifies this, tab
      ensures Valid() && (tab == old(tab) || fresh(tab))
      ensures old(size) != old(cap) ==> tab == old(tab) && size == old(size) && cap == old(cap)
      ensures old(size) == old(cap) ==> fresh(tab) && size == 0 && cap == 2 * old(cap)
      ensures ok == (key in old(Contents()) || |old(Contents())| < cap)
      ensures Contents() == if ok then old(Contents())[key := val] else old(Contents())
      decreases if size == cap then 2 else 0
    {
      if size == cap {
        HashTableExpand();
      }
      ok := Store(key, val);
    }

    /** hash_table_lookup */
    method HashTableLookup(key: string) returns (val: Option<V>)
      requires Valid()
      ensures val == if key in Contents() then Some(Contents()[key]) else None
    {
      LookupMeans(tab[..], key);
      var found := HashTableFind(key);
      if found.Some? && tab[found.value].Used? {
        return Some(tab[found.value].val);
      }
      val := None;
    }
  }

  // ---------- whole runs ----------

  /** The map after inserting some entries into a table of `room` slots that never grows, and whether
      all of them found a slot. */
  function InsertAll<V>(m: map<string, V>, entries: seq<(string, V)>, room: nat): (bool, map<string, V>)
    decreases |entries|
  {
    if entries == [] then (true, m)
    else if entries[0].0 in m || |m| < room then InsertAll(m[entries[0].0 := entries[0].1], entries[1..], room)
    else (false, m)
  }

  /** Inserts some entries, up to the one at which the original's assertion fails. */
  method InsertEntries<V>(table: HashTable<V>, entries: seq<(string, V)>) returns (ok: bool)
    requires table.Valid() && table.size != table.cap
    modifies table, table.tab
    ensures table.Valid() && table.tab == old(table.tab) && table.size == old(table.size) && table.cap == old(table.cap)
    ensures (ok, table.Contents()) == InsertAll(old(table.Contents()), entries, table.cap)
  {
    ghost var goal := InsertAll(table.Contents(), entries, table.cap);
    for i := 0 to |entries|
      invariant table.Valid() && table.size == old(table.size) && table.cap == old(table.cap)
      invariant table.tab == old(table.tab) && InsertAll(table.Contents(), entries[i..], table.cap) == goal
    {
      assert entries[i..][1..] == entries[i + 1..];
      ok := table.HashTableInsert(entries[i].0, entries[i].1);
      if !ok {
        return;
      }
    }
    ok := true;
  }

  /** A table of hash_table_new filled with some entries. */
  method FillNew<V>(entries: seq<(string, V)>) returns (ok: bool, table: HashTable<V>)
    ensures fresh(table) && fresh(table.tab) && table.Valid()
    ensures (ok, table.Contents()) == InsertAll(map[], entries, TABLE_INIT_BUF)
  {
    table := new HashTable<V>();
    ok := InsertEntries(table, entries);
  }

  function KeysOf<V>(entries: seq<(string, V)>): set<string>
  {
    if entries == [] then {} else {entries[0].0} + KeysOf(entries[1..])
  }

  /** The value of the last entry with a key, if there is one. */
  function LastFor<V>(entries: seq<(string, V)>, key: string): Option<V>
  {
    if entries == [] then None
    else if LastFor(entries[1..], key).Some? then LastFor(entries[1..], key)
    else if entries[0].0 == key then Some(entries[0].1)
    else None
  }

  /** A run of insertions that does not reach the assertion leaves every key with its last value. */
  lemma {:induction false} InsertAllMeans<V>(m: map<string, V>, entries: seq<(string, V)>, room: nat, key: string)
    requires InsertAll(m, entries, room).0
    ensures var n := InsertAll(m, entries, room).1;
      match LastFor(entries, key)
      case Some(v) => key in n && n[key] == v
      case None => (key in n <==> key in m) && (key in m ==> n[key] == m[key])
    decreases |entries|
  {
    if entries != [] {
      InsertAllMeans(m[entries[0].0 := entries[0].1], entries[1..], room, key);
    }
  }

  lemma {:induction false} SubsetSize<T>(a: set<T>, b: set<T>)
    requires a <= b
    ensures |a| <= |b|
  {
    if a != {} {
      var x :| x in a;
      SubsetSize(a - {x}, b - {x});
    }
  }

  lemma {:induction false} UpdateSize<V>(m: map<string, V>, key: string, val: V)
    ensures m[key := val].Keys == m.Keys + {key}
    ensures |m[key := val]| == if key in m then |m| else |m| + 1
  {
    var m' := m[key := val];
    assert m'.Keys == m.Keys + {key} && |m'| == |m'.Keys| && |m| == |m.Keys|;
    if key in m {
      assert m'.Keys == m.Keys;
    }
  }

  lemma {:induction false} UnionMoves<T>(a: set<T>, x: T, b: set<T>)
    ensures a + ({x} + b) == (a + {x}) + b
  {
  }

  lemma {:induction false} KeysOfUpdate<V>(m: map<string, V>, key: string, val: V, keys: set<string>,
      m': map<string, V>, all: set<string>)
    requires m' == m[key := val] && all == {key} + keys
    ensures m.Keys + all == m'.Keys + keys
    ensures |m'| == if key in m then |m| else |m| + 1
  {
    UpdateSize(m, key, val);
    UnionMoves(m.Keys, key, keys);
  }

  lemma {:induction false} NoRoom(keys: set<string>, key: string, more: set<string>)
    requires key !in keys
    ensures |keys + ({key} + more)| > |keys|
  {
    SubsetSize(keys + {key}, keys + ({key} + more));
  }

  /** A run of insertions reaches the assertion exactly when it has more distinct keys than the table
      has slots; else the keys are those there were and those inserted. */
  lemma {:induction false} InsertAllExact<V>(m: map<string, V>, entries: seq<(string, V)>, room: nat)
    requires |m| <= room
    ensures InsertAll(m, entries, room).0 <==> |m.Keys + KeysOf(entries)| <= room
    ensures InsertAll(m, entries, room).0 ==> InsertAll(m, entries, room).1.Keys == m.Keys + KeysOf(entries)
    decreases |entries|
  {
    if entries == [] {
      assert m.Keys + {} == m.Keys;
    } else {
      var key, rest := entries[0].0, entries[1..];
      var m' := m[key := entries[0].1];
      if key in m || |m| < room {
        KeysOfUpdate(m, key, entries[0].1, KeysOf(rest), m', KeysOf(entries));
        InsertAllExact(m', rest, room);
      } else {
        NoRoom(m.Keys, key, KeysOf(rest));
      }
    }
  }
}
