/** The table generator and the key lookup: _ast_node_entry_gen in toml/ast.c, toml_load and
    toml_lookup in toml/toml.c. */
module TomlGenerator {
  import opened Options
  import opened TomlParser
  import opened TomlTable
  import opened TomlPaths

  /** An object_t; a table is known by its number. */
  datatype Object = ValueObject(value: Value) | TableObject(id: nat)

  datatype Status = Done | Overridden | Aborted

  function PathOf(key: Key): Path
  {
    match key
    case NoKey => []
    case Key(id, next) => [id] + PathOf(next)
  }

  /** The entries with their full paths. A header's path is its key, and it becomes the environment
      of the settings after it; an empty header goes back to the root. */
  function Lines(e: Entry, env: Path): (lines: seq<Line>)
    ensures forall l <- lines :: l.path != []
  {
    match e
    case NoEntry => []
    case Entry(key, value, next) =>
      if key.NoKey? then Lines(next, [])
      else
        var path := (if value.None? then [] else env) + PathOf(key);
        [Line(path, value)] + Lines(next, if value.None? then path else env)
  }

  /** The next line: an entry with a key adds it, where a header's key is a path from the root. */
  lemma {:induction false} NextLine(all: seq<Line>, done: seq<Line>, node: Entry, env: Path)
    returns (line: Line, rest: seq<Line>)
    requires node.Entry? && node.key.Key? && all == done + Lines(node, env) && (node.value.None? ==> env == [])
    ensures line == Line(env + PathOf(node.key), node.value)
    ensures rest == Lines(node.next, if node.value.None? then line.path else env)
    ensures all == (done + [line]) + rest
  {
    line := Line(env + PathOf(node.key), node.value);
    rest := Lines(node.next, if node.value.None? then line.path else env);
    assert Lines(node, env) == [line] + rest;
  }

  /** What the caller learns of an outcome. */
  function StatusOf(o: Outcome): Status
  {
    match o
    case Overriding => Overridden
    case TableFull => Aborted
    case Fine(_) => Done
  }

  // ---------- tables and paths ----------

  /** A table entry shows what is bound at its path. */
  predicate Shows(tables: seq<map<string, Object>>, paths: seq<Path>, m: Bindings, i: nat, k: string)
    requires |paths| == |tables| && i < |tables|
  {
    var p := paths[i] + [k];
    && (k in tables[i] <==> p in m)
    && (k in tables[i] ==>
          match tables[i][k]
          case ValueObject(v) => m[p] == ValueAt(v)
          case TableObject(j) => j < |tables| && paths[j] == p && m[p].TableAt?)
  }

  /** The tables are a tree that holds the bindings: each has its own path, the first is the root. */
  ghost predicate Represents(tables: seq<map<string, Object>>, paths: seq<Path>, m: Bindings)
  {
    && |paths| == |tables| > 0 && paths[0] == []
    && (forall i, j :: 0 <= i < j < |paths| ==> paths[i] != paths[j])
    && (forall i :: 0 <= i < |paths| ==> TableIn(m, paths[i]))
    && (forall i, k :: 0 <= i < |tables| ==> Shows(tables, paths, m, i, k))
    && Closed(m) && NoRoot(m)
  }

  lemma {:induction false} ImageSize(keys: set<string>, q: Path, image: set<Path>)
    requires forall p :: p in image <==> exists k :: k in keys && p == q + [k]
    ensures |image| == |keys|
  {
    if keys == {} {
      assert image == {};
    } else {
      var k :| k in keys;
      var p := q + [k];
      assert p[|q|] == k;
      assert forall k' :: (q + [k'])[|q|] == k';
      ImageSize(keys - {k}, q, image - {p});
    }
  }

  /** A table has as many entries as there are paths one step below its own. */
  lemma {:induction false} SameSize(tables: seq<map<string, Object>>, paths: seq<Path>, m: Bindings, i: nat)
    requires Represents(tables, paths, m) && i < |tables|
    ensures |tables[i]| == |Children(m, paths[i])|
  {
    var q := paths[i];
    forall p
      ensures p in Children(m, q) <==> exists k :: k in tables[i].Keys && p == q + [k]
    {
      if p in Children(m, q) {
        assert p == q + [p[|q|]];
        assert Shows(tables, paths, m, i, p[|q|]);
      }
      if k :| k in tables[i].Keys && p == q + [k] {
        assert Shows(tables, paths, m, i, k);
      }
    }
    ImageSize(tables[i].Keys, q, Children(m, q));
  }

  lemma {:induction false} PathsDiffer(paths: seq<Path>, i: nat, k: string, j: nat, l: string)
    requires i < |paths| && j < |paths| && forall a, b :: 0 <= a < b < |paths| ==> paths[a] != paths[b]
    ensures paths[i] + [k] == paths[j] + [l] <==> i == j && k == l
  {
    if paths[i] + [k] == paths[j] + [l] {
      assert paths[i] == (paths[i] + [k])[..|paths[i]|] == (paths[j] + [l])[..|paths[j]|] == paths[j];
      assert k == (paths[i] + [k])[|paths[i]|];
    }
  }

  lemma {:induction false} ShowsValue(tables: seq<map<string, Object>>, paths: seq<Path>, m: Bindings, i: nat,
      k: string, v: Value, j: nat, l: string)
    requires |paths| == |tables| && i < |tables| && j < |tables| && Shows(tables, paths, m, j, l)
    requires forall a, b :: 0 <= a < b < |paths| ==> paths[a] != paths[b]
    ensures Shows(tables[i := tables[i][k := ValueObject(v)]], paths, m[paths[i] + [k] := ValueAt(v)], j, l)
  {
    PathsDiffer(paths, i, k, j, l);
  }

  /** A new value in a table. */
  lemma {:induction false} BindValue(tables: seq<map<string, Object>>, paths: seq<Path>, m: Bindings, i: nat,
      k: string, v: Value,
                  tables': seq<map<string, Object>>, m': Bindings)
    requires Represents(tables, paths, m) && i < |tables| && k !in tables[i]
    requires tables' == tables[i := tables[i][k := ValueObject(v)]] && m' == m[paths[i] + [k] := ValueAt(v)]
    ensures Represents(tables', paths, m')
  {
    var p := paths[i] + [k];
    assert Shows(tables, paths, m, i, k) && p[..|p| - 1] == paths[i];
    ClosedExtend(m, p, ValueAt(v));
    StillTables(paths, m, p, ValueAt(v));
    forall j, l {:trigger Shows(tables', paths, m', j, l)} | 0 <= j < |tables'|
      ensures Shows(tables', paths, m', j, l)
    {
      ShowsValue(tables, paths, m, i, k, v, j, l);
    }
  }

  lemma {:induction false} StillTables(paths: seq<Path>, m: Bindings, p: Path, b: Binding)
    requires p !in m && p != [] && forall i :: 0 <= i < |paths| ==> TableIn(m, paths[i])
    ensures forall i :: 0 <= i < |paths| ==> paths[i] != p && TableIn(m[p := b], paths[i])
  {
  }

  /** A new, empty table in a table. */
  lemma {:induction false} BindTable(tables: seq<map<string, Object>>, paths: seq<Path>, m: Bindings, i: nat, k: string,
                                     tables': seq<map<string, Object>>, paths': seq<Path>, m': Bindings)
    requires Represents(tables, paths, m) && i < |tables| && k !in tables[i]
    requires tables' == tables[i := tables[i][k := TableObject(|tables|)]] + [map[]]
    requires paths' == paths + [paths[i] + [k]] && m' == m[paths[i] + [k] := TableAt]
    ensures Represents(tables', paths', m')
  {
    var p := paths[i] + [k];
    assert Shows(tables, paths, m, i, k) && p[..|p| - 1] == paths[i];
    ClosedExtend(m, p, TableAt);
    StillTables(paths, m, p, TableAt);
    forall j, l {:trigger Shows(tables', paths', m', j, l)} | 0 <= j < |tables'|
      ensures Shows(tables', paths', m', j, l)
    {
      ShowsTable(tables, paths, m, i, k, j, l);
    }
  }

  lemma {:induction false} ShowsTable(tables: seq<map<string, Object>>, paths: seq<Path>, m: Bindings, i: nat,
      k: string, j: nat, l: string)
    requires Represents(tables, paths, m) && i < |tables| && k !in tables[i] && paths[i] + [k] !in m && j <= |tables|
    ensures Shows(tables[i := tables[i][k := TableObject(|tables|)]] + [map[]], paths + [paths[i] + [k]],
                  m[paths[i] + [k] := TableAt], j, l)
  {
    var p := paths[i] + [k];
    if j == |tables| {
      NothingBelow(m, p);
      assert (p + [l])[..|p|] == p;
    } else {
      PathsDiffer(paths, i, k, j, l);
      assert Shows(tables, paths, m, j, l);
    }
  }

  /** Going down from a table that is there is going down from the root. */
  lemma {:induction false} SkipTables(m: Bindings, path: Path, d: nat, b: Binding)
    requires Closed(m) && d < |path| && TableIn(m, path[..d])
    ensures PutFrom(m, path, 0, b) == PutFrom(m, path, d, b)
  {
    if d > 0 {
      assert path[..d][..d - 1] == path[..d - 1];
      assert TableIn(m, path[..d][..d - 1]);
      SkipTables(m, path, d - 1, b);
    }
  }

  /** What an attempt to insert a value does to the tree of tables. */
  lemma {:induction false} ValueInserted(tables: seq<map<string, Object>>, paths: seq<Path>, m: Bindings, i: nat,
      k: string, v: Value, ok: bool, tables': seq<map<string, Object>>, m': Bindings)
    requires Represents(tables, paths, m) && i < |tables| && k !in tables[i] && ok == (|tables[i]| < TABLE_INIT_BUF)
    requires tables' == if ok then tables[i := tables[i][k := ValueObject(v)]] else tables
    requires m' == if ok then m[paths[i] + [k] := ValueAt(v)] else m
    ensures Represents(tables', paths, m') && ok == !Crowded(m, paths[i])
  {
    SameSize(tables, paths, m, i);
    if ok {
      BindValue(tables, paths, m, i, k, v, tables', m');
    }
  }

  lemma {:induction false} TableInserted(tables: seq<map<string, Object>>, paths: seq<Path>, m: Bindings, i: nat,
      k: string, ok: bool, tables': seq<map<string, Object>>, paths': seq<Path>, m': Bindings)
    requires Represents(tables, paths, m) && i < |tables| && k !in tables[i] && ok == (|tables[i]| < TABLE_INIT_BUF)
    requires tables' == if ok then tables[i := tables[i][k := TableObject(|tables|)]] + [map[]] else tables
    requires paths' == if ok then paths + [paths[i] + [k]] else paths
    requires m' == if ok then m[paths[i] + [k] := TableAt] else m
    ensures Represents(tables', paths', m') && ok == !Crowded(m, paths[i])
  {
    SameSize(tables, paths, m, i);
    if ok {
      BindTable(tables, paths, m, i, k, tables', paths', m');
    }
  }

  /** All lines are those in `done`, which give the bindings, and those of the entries from `node` on. */
  ghost predicate Reached(all: seq<Line>, done: seq<Line>, node: Entry, env: Path, m: Bindings)
  {
    && (forall l <- all :: l.path != []) && (forall l <- done :: l.path != [])
    && all == done + Lines(node, env) && PutAll(done) == Fine(m)
  }

  // ---------- tables on the heap ----------

  type Table = HashTable<Object>

  /** A hash table as it was made, with these entries. It never grows, because its size stays zero. */
  ghost predicate Holds(t: Table, m: map<string, Object>)
    reads t, t.tab
  {
    t.Valid() && t.Contents() == m && t.size == 0 && t.cap == TABLE_INIT_BUF
  }

  function Slots(tables: seq<Table>): (arrays: set<object>)
    reads tables
  {
    set t <- tables :: t.tab
  }

  /** The hash tables hold the entries, and no two share their slots. */
  ghost predicate Backed(tables: seq<Table>, maps: seq<map<string, Object>>)
    reads tables, Slots(tables)
  {
    && |tables| == |maps|
    && (forall i :: 0 <= i < |tables| ==> Holds(tables[i], maps[i]))
    && (forall i, j :: 0 <= i < j < |tables| ==> tables[i] != tables[j] && tables[i].tab != tables[j].tab)
  }

  class Generator {
    /** The tables by number; the root is table 0. */
    var tables: seq<Table>
    ghost var maps: seq<map<string, Object>>
    ghost var paths: seq<Path>
    ghost var bindings: Bindings

    ghost predicate Valid()
      reads this, tables, Slots(tables)
    {
      Backed(tables, maps) && Represents(maps, paths, bindings)
    }

    /** The tables there were are still there, and the others are new. */
    twostate predicate Extends()
      reads this, tables
    {
      && old(tables) <= tables
      && (forall i :: 0 <= i < |old(tables)| ==> tables[i].tab == old(tables[i].tab))
      && (forall i :: |old(tables)| <= i < |tables| ==> fresh(tables[i]) && fresh(tables[i].tab))
    }

    constructor ()
      ensures Valid() && bindings == map[] && paths == [[]]
      ensures forall t <- tables :: fresh(t) && fresh(t.tab)
    {
      var root := new HashTable<Object>();
      tables, maps, paths, bindings := [root], [map[]], [[]], map[];
    }

    /** table_object_insert of a new key. It works unless all slots of the table are taken, where the
        original's assertion fails. */
    method Store(sub: nat, key: string, o: Object) returns (ok: bool)
      requires Backed(tables, maps) && sub < |tables| && key !in maps[sub]
      modifies this`maps, tables[sub], tables[sub].tab
      ensures Backed(tables, maps) && tables[sub].tab == old(tables[sub].tab)
      ensures ok == (|old(maps[sub])| < TABLE_INIT_BUF)
      ensures maps == if ok then old(maps)[sub := old(maps[sub])[key := o]] else old(maps)
    {
      assert Holds(tables[sub], maps[sub]);
      ok := tables[sub].HashTableInsert(key, o);
      if ok {
        maps := maps[sub := maps[sub][key := o]];
      }
    }

    /** A new table gets the next number. */
    method Adopt(t: Table)
      requires Backed(tables, maps) && Holds(t, map[])
      requires forall u <- tables :: u != t && u.tab != t.tab
      modifies this`tables, this`maps
      ensures tables == old(tables) + [t] && maps == old(maps) + [map[]] && Backed(tables, maps)
    {
      tables, maps := tables + [t], maps + [map[]];
    }

    /** An insertion of a value, in terms of paths. */
    method InsertValue(sub: nat, key: string, v: Value) returns (ok: bool)
      requires Valid() && sub < |tables| && key !in maps[sub]
      modifies this, tables[sub], tables[sub].tab
      ensures Valid() && Extends() && old(paths) <= paths && ok == !Crowded(old(bindings), old(paths[sub]))
      ensures bindings == if ok then old(bindings)[old(paths[sub]) + [key] := ValueAt(v)] else old(bindings)
    {
      ghost var before, m, fits := maps, bindings, |maps[sub]| < TABLE_INIT_BUF;
      if fits {
        bindings := bindings[paths[sub] + [key] := ValueAt(v)];
      }
      ok := Store(sub, key, ValueObject(v));
      ValueInserted(before, paths, m, sub, key, v, ok, maps, bindings);
    }

    /** The same for a new, empty table. */
    method StoreTable(sub: nat, key: string) returns (ok: bool)
      requires Backed(tables, maps) && sub < |tables| && key !in maps[sub]
      modifies this`tables, this`maps, tables[sub], tables[sub].tab
      ensures Backed(tables, maps) && Extends()
      ensures ok == (|old(maps[sub])| < TABLE_INIT_BUF)
      ensures maps ==
        if ok then old(maps)[sub := old(maps[sub])[key := TableObject(|old(maps)|)]] + [map[]] else old(maps)
    {
      var t := new HashTable<Object>();
      ok := Store(sub, key, TableObject(|tables|));
      if ok {
        Adopt(t);
      }
    }

    /** An insertion of a table, in terms of paths. */
    method InsertTable(sub: nat, key: string) returns (ok: bool)
      requires Valid() && sub < |tables| && key !in maps[sub]
      modifies this, tables[sub], tables[sub].tab
      ensures Valid() && Extends() && old(paths) <= paths && ok == !Crowded(old(bindings), old(paths[sub]))
      ensures bindings == if ok then old(bindings)[old(paths[sub]) + [key] := TableAt] else old(bindings)
      ensures ok ==> |paths| == old(|paths|) + 1 && paths[old(|paths|)] == old(paths[sub]) + [key]
    {
      ghost var before, from, m, fits := maps, paths, bindings, |maps[sub]| < TABLE_INIT_BUF;
      if fits {
        paths, bindings := paths + [paths[sub] + [key]], bindings[paths[sub] + [key] := TableAt];
      }
      ok := StoreTable(sub, key);
      TableInserted(before, from, m, sub, key, ok, maps, paths, bindings);
    }

    method Insert(sub: nat, key: string, value: Option<Value>) returns (ok: bool)
      requires Valid() && sub < |tables| && key !in maps[sub]
      modifies this, tables[sub], tables[sub].tab
      ensures Valid() && Extends() && old(paths) <= paths && ok == !Crowded(old(bindings), old(paths[sub]))
      ensures bindings == if ok then old(bindings)[old(paths[sub]) + [key] := BindingOf(value)] else old(bindings)
      ensures ok && value.None? ==> |paths| == old(|paths|) + 1 && paths[old(|paths|)] == old(paths[sub]) + [key]
    {
      match value
      case Some(v) => ok := InsertValue(sub, key, v);
      case None => ok := InsertTable(sub, key);
    }

    /** table_object_lookup */
    method Find(sub: nat, key: string) returns (o: Option<Object>)
      requires Valid() && sub < |tables|
      ensures o == if key in maps[sub] then Some(maps[sub][key]) else None
      ensures o.Some? <==> paths[sub] + [key] in bindings
      ensures o.Some? ==> match o.value
        case ValueObject(v) => bindings[paths[sub] + [key]] == ValueAt(v)
        case TableObject(id) => id < |tables| && paths[id] == paths[sub] + [key] && bindings[paths[id]].TableAt?
    {
      assert Holds(tables[sub], maps[sub]) && Shows(maps, paths, bindings, sub, key);
      o := tables[sub].HashTableLookup(key);
    }

    /** One part of a key that is not the last: the table it names, made if it is missing. */
    method Enter(sub: nat, key: string, ghost path: Path, ghost d: nat, ghost b: Binding)
      returns (status: Status, next: nat)
      requires Valid() && sub < |tables| && d + 1 < |path| && paths[sub] == path[..d] && path[d] == key
      modifies this, tables[sub], tables[sub].tab
      ensures Valid() && Extends() && old(paths) <= paths
      ensures status == Done ==> next < |tables| && paths[next] == path[..d + 1]
      ensures status == Done ==> PutFrom(old(bindings), path, d, b) == PutFrom(bindings, path, d + 1, b)
      ensures status != Done ==> StatusOf(PutFrom(old(bindings), path, d, b)) == status
    {
      assert path[..d + 1] == paths[sub] + [key];
      status, next := Done, |tables|;
      var tmp := Find(sub, key);
      match tmp {
        case None =>
          var ok := InsertTable(sub, key);
          if !ok {
            status := Aborted;
          }
        case Some(TableObject(id)) =>
          next := id;
        case Some(ValueObject(_)) =>
          status := Overridden;
      }
    }

    /** The tables on the way to the last part of a key, made where they are missing. */
    method Descend(key: Key, env: nat, ghost path: Path, ghost b: Binding)
      returns (status: Status, sub: nat, last: string, ghost d: nat)
      requires Valid() && env < |tables| && key.Key? && path == paths[env] + PathOf(key)
      modifies this, tables, Slots(tables)
      ensures Valid() && Extends() && old(paths) <= paths
      ensures status == Done ==> sub < |tables| && d + 1 == |path| && paths[sub] == path[..d] && last == path[d]
      ensures status == Done ==> PutFrom(old(bindings), path, |old(paths[env])|, b) == PutFrom(bindings, path, d, b)
      ensures status != Done ==> StatusOf(PutFrom(old(bindings), path, |old(paths[env])|, b)) == status
    {
      var k := key;
      sub, last, d, status := env, key.id, |paths[env]|, Done;
      PathParts(paths[env], k, path);
      while k.next.Key?
        invariant k.Key? && Valid() && Extends() && old(paths) <= paths && sub < |tables|
        invariant d + |PathOf(k)| == |path| && paths[sub] == path[..d] && path[d..] == PathOf(k)
        invariant PutFrom(old(bindings), path, |old(paths[env])|, b) == PutFrom(bindings, path, d, b)
        decreases k
      {
        assert path[d..][0] == path[d] && path[d..][1..] == path[d + 1..];
        status, sub := Enter(sub, k.id, path, d, b);
        if status != Done {
          return;
        }
        d, k := d + 1, k.next;
      }
      last := k.id;
      assert path[d..][0] == path[d];
      status := Done;
    }

    /** The last part of a key: its value or a new table, which `created` is. */
    method Finish(sub: nat, last: string, value: Option<Value>, ghost path: Path, ghost d: nat)
      returns (status: Status, created: nat)
      requires Valid() && sub < |tables| && d + 1 == |path| && paths[sub] == path[..d] && path[d] == last
      modifies this, tables[sub], tables[sub].tab
      ensures StatusOf(PutFrom(old(bindings), path, d, BindingOf(value))) == status
      ensures Valid() && Extends() && old(paths) <= paths
      ensures status == Done ==> PutFrom(old(bindings), path, d, BindingOf(value)) == Fine(bindings)
      ensures status == Done && value.None? ==> created < |tables| && paths[created] == path
    {
      assert path[..d + 1] == paths[sub] + [last] == path;
      created := |tables|;
      var tmp := Find(sub, last);
      if tmp.Some? {
        status := Overridden;
      } else {
        var ok := Insert(sub, last, value);
        status := if ok then Done else Aborted;
      }
    }

    /** One entry: the tables on its path, then its value or a new table. */
    method PutEntry(key: Key, env: nat, value: Option<Value>, ghost path: Path) returns (status: Status, created: nat)
      requires Valid() && env < |tables| && key.Key? && path == paths[env] + PathOf(key)
      modifies this, tables, Slots(tables)
      ensures StatusOf(PutFrom(old(bindings), path, |old(paths[env])|, BindingOf(value))) == status
      ensures Valid() && Extends() && old(paths) <= paths
      ensures status == Done ==> PutFrom(old(bindings), path, |old(paths[env])|, BindingOf(value)) == Fine(bindings)
      ensures status == Done && value.None? ==> created < |tables| && paths[created] == path
    {
      var sub, last;
      ghost var d;
      created := 0;
      status, sub, last, d := Descend(key, env, path, BindingOf(value));
      if status == Done {
        status, created := Finish(sub, last, value, path, d);
      }
    }

    /** An entry with a key, the lines before it being `done`; `next` is the current table after it. */
    method PutLine(node: Entry, env: nat, ghost all: seq<Line>, ghost done: seq<Line>)
      returns (status: Status, next: nat, ghost done': seq<Line>)
      requires Valid() && env < |tables| && node.Entry? && node.key.Key? && (node.value.None? ==> paths[env] == [])
      requires Reached(all, done, node, paths[env], bindings)
      modifies this, tables, Slots(tables)
      ensures Valid() && Extends() && old(paths) <= paths
      ensures (forall l <- all :: l.path != []) && (status != Done ==> StatusOf(PutAll(all)) == status)
      ensures status == Done ==> next < |tables| && Reached(all, done', node.next, paths[next], bindings)
    {
      ghost var line, rest := NextLine(all, done, node, paths[env]);
      done' := done + [line];
      PathParts(paths[env], node.key, line.path);
      assert TableIn(bindings, paths[env]);
      SkipTables(bindings, line.path, |paths[env]|, BindingOf(node.value));
      OneMore(done, line, rest, bindings);
      var created;
      status, created := PutEntry(node.key, env, node.value, line.path);
      next := if node.value.None? then created else env;
    }

    /** _ast_node_entry_gen, on a new generator */
    method Generate(e: Entry) returns (status: Status)
      requires Valid() && bindings == map[] && paths == [[]] && Keyed(e)
      modifies this, tables, Slots(tables)
      ensures StatusOf(PutAll(Lines(e, []))) == status
      ensures Valid() && Extends()
      ensures status == Done ==> PutAll(Lines(e, [])) == Fine(bindings)
    {
      var node, env: nat := e, 0;
      ghost var all, done: seq<Line> := Lines(e, []), [];
      assert all == done + Lines(e, []);
      while node.Entry?
        invariant Valid() && Extends() && env < |tables| && Keyed(node)
        invariant Reached(all, done, node, paths[env], bindings)
        decreases node
      {
        if node.key.NoKey? {
          env := 0;
        } else {
          if node.value.None? {
            env := 0;
          }
          status, env, done := PutLine(node, env, all, done);
          if status != Done {
            return;
          }
        }
        node := node.next;
      }
      status := Done;
      assert done + [] == done;
    }

    /** The walk of toml_lookup: the object at a path, or None if there is nothing there or something
        on the path is not a table. */
    method TomlLookup(key: Key) returns (r: Option<Object>)
      requires Valid() && key.Key?
      ensures r.Some? <==> PathOf(key) in bindings
      ensures forall v :: r == Some(ValueObject(v)) <==> PathOf(key) in bindings && bindings[PathOf(key)] == ValueAt(v)
      ensures r.Some? && r.value.TableObject? ==> r.value.id < |tables| && paths[r.value.id] == PathOf(key)
    {
      var k, cur := key, TableObject(0);
      ghost var path, d := PathOf(key), 0;
      while k.Key?
        invariant d + |PathOf(k)| == |path| && path[d..] == PathOf(k)
        invariant d == 0 ==> cur == TableObject(0)
        invariant match cur
          case TableObject(id) => id < |tables| && paths[id] == path[..d]
          case ValueObject(v) => path[..d] in bindings && bindings[path[..d]] == ValueAt(v)
        decreases k
      {
        assert path[..d + 1] == path[..d] + [k.id] && path[d..][1..] == path[d + 1..];
        assert path in bindings ==> TableIn(bindings, path[..d]);
        if cur.ValueObject? {
          return None;
        }
        var next := Find(cur.id, k.id);
        assert path in bindings && d + 1 < |path| ==> TableIn(bindings, path[..d + 1]);
        assert path[..|path|] == path;
        if next.None? {
          return None;
        }
        cur, k, d := next.value, k.next, d + 1;
      }
      assert path[..d] == path;
      assert cur.TableObject? ==> TableIn(bindings, paths[cur.id]);
      r := Some(cur);
    }
  }

  /** The outcome for one more line; once it is an error it stays. */
  lemma {:induction false} OneMore(done: seq<Line>, line: Line, rest: seq<Line>, m: Bindings)
    requires forall l <- done + [line] + rest :: l.path != []
    requires (forall l <- done :: l.path != []) && line.path != [] && PutAll(done) == Fine(m)
    ensures forall l <- done + [line] :: l.path != []
    ensures var o := PutFrom(m, line.path, 0, BindingOf(line.value));
      PutAll(done + [line]) == o && (!o.Fine? ==> PutAll(done + [line] + rest) == o)
  {
    assert (done + [line])[..|done|] == done;
    if !PutAll(done + [line]).Fine? {
      FailureStays(done + [line], rest);
    }
  }

  lemma {:induction false} FailureStays(done: seq<Line>, rest: seq<Line>)
    requires (forall l <- done :: l.path != []) && (forall l <- done + rest :: l.path != []) && !PutAll(done).Fine?
    ensures PutAll(done + rest) == PutAll(done)
    decreases |rest|
  {
    if rest == [] {
      assert done + rest == done;
    } else {
      var n := |rest| - 1;
      assert (done + rest)[..|done + rest| - 1] == done + rest[..n];
      assert forall l <- done + rest[..n] :: l in done + rest;
      FailureStays(done, rest[..n]);
    }
  }

  lemma {:induction false} PathParts(base: Path, key: Key, path: Path)
    requires path == base + PathOf(key)
    ensures path[..|base|] == base && path[|base|..] == PathOf(key)
  {
  }
}
