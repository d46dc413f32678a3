/** What the table generator of toml/ast.c defines, in terms of paths. */
module TomlPaths {
  import opened Options
  import opened TomlParser
  import opened TomlTable

  type Path = seq<string>

  datatype Binding = TableAt | ValueAt(value: Value)

  /** The objects below a root table, by path; the root itself is not listed. */
  type Bindings = map<Path, Binding>

  datatype Outcome = Overriding | TableFull | Fine(m: Bindings)

  // ---------- one path ----------

  /** The entries of the table at `q`. */
  function Children(m: Bindings, q: Path): set<Path>
  {
    set p | p in m && |p| == |q| + 1 && p[..|q|] == q
  }

  predicate Crowded(m: Bindings, q: Path)
  {
    |Children(m, q)| >= TABLE_INIT_BUF
  }

  /** Going down the path from depth `d`: missing tables are made, a value in the way or something
      at the end is an error. */
  function PutFrom(m: Bindings, path: Path, d: nat, b: Binding): Outcome
    requires d < |path|
    decreases |path| - d
  {
    var p := path[..d + 1];
    if d + 1 == |path| then
      if p in m then Overriding else if Crowded(m, path[..d]) then TableFull else Fine(m[p := b])
    else if p !in m then
      if Crowded(m, path[..d]) then TableFull else PutFrom(m[p := TableAt], path, d + 1, b)
    else if m[p].TableAt? then PutFrom(m, path, d + 1, b)
    else Overriding
  }

  /** Everything above a path is a table. */
  predicate Closed(m: Bindings)
  {
    forall p, d | p in m && 0 <= d < |p| :: TableIn(m, p[..d])
  }

  predicate TableIn(m: Bindings, p: Path)
  {
    p == [] || (p in m && m[p].TableAt?)
  }

  predicate NoRoot(m: Bindings)
  {
    [] !in m
  }

  function Prefixes(path: Path): set<Path>
  {
    set d | 0 < d <= |path| :: path[..d]
  }

  /** The path and the tables above it added. */
  function Extend(m: Bindings, path: Path, b: Binding): Bindings
  {
    map p | p in m.Keys + Prefixes(path) :: if p in m then m[p] else if p == path then b else TableAt
  }

  /** The path is defined already, or runs through a value. */
  predicate Clash(m: Bindings, path: Path)
  {
    path in m || exists d :: 0 < d < |path| && path[..d] in m && m[path[..d]].ValueAt?
  }

  /** The table the first missing part of the path belongs to has room for it. */
  predicate Room(m: Bindings, path: Path)
  {
    forall d | 0 <= d < |path| && path[..d + 1] !in m :: TableIn(m, path[..d]) ==> !Crowded(m, path[..d])
  }

  /** Below a missing path there is nothing. */
  lemma {:induction false} NothingBelow(m: Bindings, q: Path)
    requires Closed(m) && q != [] && q !in m
    ensures Children(m, q) == {}
    ensures forall p | p in m :: !(|q| <= |p| && p[..|q|] == q)
  {
    forall p | p in m
      ensures !(|q| <= |p| && p[..|q|] == q)
    {
      assert p[..|p|] == p;
      assert |q| < |p| ==> TableIn(m, p[..|q|]);
    }
  }

  lemma {:induction false} ClosedExtend(m: Bindings, p: Path, b: Binding)
    requires Closed(m) && NoRoot(m) && p != [] && p !in m && TableIn(m, p[..|p| - 1])
    ensures Closed(m[p := b]) && NoRoot(m[p := b])
  {
    NothingBelow(m, p);
    forall q, d | q in m[p := b] && 0 <= d < |q|
      ensures TableIn(m[p := b], q[..d])
    {
      if q == p {
        assert p[..|p| - 1][..d] == p[..d] || d == |p| - 1;
        if d < |p| - 1 && p[..|p| - 1] in m {
          assert TableIn(m, p[..|p| - 1][..d]);
        }
        assert TableIn(m, p[..d]);
      } else {
        assert TableIn(m, q[..d]) && q[..d] != p;
      }
    }
  }

  lemma {:induction false} ExtendStep(m: Bindings, path: Path, d: nat, b: Binding)
    requires d + 1 < |path| && (forall e :: 0 < e <= d ==> path[..e] in m) && path[..d + 1] !in m && path !in m
    ensures Extend(m[path[..d + 1] := TableAt], path, b) == Extend(m, path, b)
  {
    assert path[..d + 1] in Prefixes(path) && path[..d + 1] != path;
  }

  lemma {:induction false} ExtendLast(m: Bindings, path: Path, b: Binding)
    requires path != [] && (forall e :: 0 < e < |path| ==> path[..e] in m) && path !in m
    ensures Extend(m, path, b) == m[path := b]
  {
    assert path[..|path|] == path;
    forall p | p in Prefixes(path)
      ensures p in m || p == path
    {
      var e :| 0 < e <= |path| && path[..e] == p;
    }
    assert path in Prefixes(path);
  }

  /** From the first missing part of a path on, tables are made all the way. */
  lemma {:induction false} PutMissing(m: Bindings, path: Path, d: nat, b: Binding)
    requires Closed(m) && NoRoot(m) && d < |path| && path[..d + 1] !in m && TableIn(m, path[..d])
    requires forall e :: 0 < e <= d ==> path[..e] in m
    ensures PutFrom(m, path, d, b) == if Crowded(m, path[..d]) then TableFull else Fine(Extend(m, path, b))
    decreases |path| - d
  {
    var p := path[..d + 1];
    NothingBelow(m, p);
    assert path[..|path|] == path;
    if d + 1 == |path| {
      ExtendLast(m, path, b);
    } else {
      var m' := m[p := TableAt];
      assert p[..|p| - 1] == path[..d];
      ClosedExtend(m, p, TableAt);
      assert path[..d + 2][..d + 1] == p && path !in m && path[..d + 2] !in m by {
        assert path[..|p|] == p && path[..d + 2][..|p|] == p;
      }
      NoChildren(m', p);
      assert !Crowded(m', p);
      PutMissing(m', path, d + 1, b);
      ExtendStep(m, path, d, b);
    }
  }

  lemma {:induction false} NoChildren(m: Bindings, p: Path)
    requires Closed(m) && p in m && forall q | q in m :: !(|p| < |q| && q[..|p|] == p)
    ensures |Children(m, p)| == 0
  {
    assert Children(m, p) == {};
  }

  /** The outcome for a path: it clashes, or the table it starts to be missing in is full, or the
      path and the tables above it are added. */
  lemma {:induction false} PutFromMeans(m: Bindings, path: Path, d: nat, b: Binding)
    requires Closed(m) && NoRoot(m) && d < |path|
    requires forall e :: 0 < e <= d ==> path[..e] in m && m[path[..e]].TableAt?
    ensures PutFrom(m, path, d, b) ==
            if Clash(m, path) then Overriding else if !Room(m, path) then TableFull else Fine(Extend(m, path, b))
    decreases |path| - d
  {
    var p := path[..d + 1];
    assert path[..|path|] == path;
    if p !in m {
      FirstMissing(m, path, d);
      PutMissing(m, path, d, b);
    } else if d + 1 < |path| && m[p].TableAt? {
      PutFromMeans(m, path, d + 1, b);
    } else {
      assert Clash(m, path);
    }
  }

  lemma {:induction false} FirstMissing(m: Bindings, path: Path, d: nat)
    requires Closed(m) && NoRoot(m) && d < |path| && path[..d + 1] !in m
    requires forall e :: 0 < e <= d ==> path[..e] in m && m[path[..e]].TableAt?
    ensures !Clash(m, path) && TableIn(m, path[..d]) && (Room(m, path) <==> !Crowded(m, path[..d]))
  {
    NothingBelow(m, path[..d + 1]);
    forall e | d < e <= |path|
      ensures path[..e] !in m
    {
      assert path[..e][..d + 1] == path[..d + 1];
    }
    assert path[..|path|] == path;
    forall e | 0 <= e < |path| && path[..e + 1] !in m && TableIn(m, path[..e])
      ensures e == d
    {
    }
  }

  lemma {:induction false} ExtendKeepsClosed(m: Bindings, path: Path, b: Binding)
    requires Closed(m) && NoRoot(m) && path != [] && !Clash(m, path)
    ensures Closed(Extend(m, path, b)) && NoRoot(Extend(m, path, b))
  {
    var m' := Extend(m, path, b);
    forall p, d | p in m' && 0 <= d < |p|
      ensures TableIn(m', p[..d])
    {
      if p in m {
        assert TableIn(m, p[..d]);
      } else {
        var e :| 0 < e <= |path| && path[..e] == p;
        assert p[..d] == path[..d];
        if d > 0 {
          assert path[..d] in Prefixes(path) && path[..d] != path;
        }
      }
    }
  }

  // ---------- all lines ----------

  /** An entry with its full path; without a value it is a table header. */
  datatype Line = Line(path: Path, value: Option<Value>)

  function BindingOf(value: Option<Value>): Binding
  {
    match value
    case None => TableAt
    case Some(v) => ValueAt(v)
  }

  /** Line after line, starting from an empty root table. */
  function PutAll(lines: seq<Line>): Outcome
    requires forall l <- lines :: l.path != []
  {
    if lines == [] then Fine(map[])
    else
      match PutAll(lines[..|lines| - 1])
      case Fine(m) => PutFrom(m, lines[|lines| - 1].path, 0, BindingOf(lines[|lines| - 1].value))
      case other => other
  }

  /** What the lines define: their paths and the tables above them. */
  function Bound(lines: seq<Line>): Bindings
  {
    if lines == [] then map[]
    else Extend(Bound(lines[..|lines| - 1]), lines[|lines| - 1].path, BindingOf(lines[|lines| - 1].value))
  }

  /** Some line is at the path or below it. */
  predicate Defined(lines: seq<Line>, p: Path)
  {
    p != [] && exists i :: 0 <= i < |lines| && p <= lines[i].path
  }

  /** Line `i` neither redefines a path nor runs through a value of an earlier line. */
  predicate Fits(lines: seq<Line>, i: nat)
    requires i < |lines|
  {
    && !Defined(lines[..i], lines[i].path)
    && forall j :: 0 <= j < i && lines[j].value.Some? ==> !(lines[j].path <= lines[i].path)
  }

  predicate Compatible(lines: seq<Line>)
  {
    forall i :: 0 <= i < |lines| ==> Fits(lines, i)
  }

  /** No table has more entries than its slots. */
  ghost predicate Narrow(m: Bindings)
  {
    forall q: Path :: |Children(m, q)| <= TABLE_INIT_BUF
  }

  lemma {:induction false} PrefixesMean(path: Path, p: Path)
    ensures p in Prefixes(path) <==> p != [] && p <= path
  {
    if p != [] && p <= path {
      assert path[..|p|] == p;
    }
  }

  /** The defined paths are those at or above a line. */
  lemma {:induction false} BoundMeans(lines: seq<Line>, p: Path)
    ensures p in Bound(lines) <==> Defined(lines, p)
  {
    if lines != [] {
      var n := |lines| - 1;
      BoundMeans(lines[..n], p);
      PrefixesMean(lines[n].path, p);
      if p != [] && p <= lines[n].path {
        assert Defined(lines, p);
      }
      if Defined(lines[..n], p) {
        var i :| 0 <= i < n && p <= lines[..n][i].path;
        assert p <= lines[i].path;
      }
      if Defined(lines, p) && !(p <= lines[n].path) {
        var i :| 0 <= i < |lines| && p <= lines[i].path;
        assert p <= lines[..n][i].path;
      }
    }
  }

  lemma {:induction false} FrontCompatible(lines: seq<Line>, n: nat)
    requires Compatible(lines) && n <= |lines|
    ensures Compatible(lines[..n])
  {
    forall i | 0 <= i < n
      ensures Fits(lines[..n], i)
    {
      assert Fits(lines, i) && lines[..n][..i] == lines[..i];
    }
  }

  /** A path has a value exactly when a line says so. */
  lemma {:induction false} ValuesMean(lines: seq<Line>, p: Path, v: Value)
    requires Compatible(lines) && forall l <- lines :: l.path != []
    ensures p in Bound(lines) && Bound(lines)[p] == ValueAt(v) <==> Line(p, Some(v)) in lines
  {
    if lines != [] {
      var n := |lines| - 1;
      var front, last := lines[..n], lines[n];
      FrontCompatible(lines, n);
      ValuesMean(front, p, v);
      assert Fits(lines, n);
      PrefixesMean(last.path, p);
      BoundMeans(front, last.path);
      assert lines == front + [last];
      if p in Bound(front) {
        assert Line(p, Some(v)) != last;
      }
    }
  }

  /** Every value is where its entry says, and there is no other. */
  ghost predicate HasValues(bindings: Bindings, lines: seq<Line>)
  {
    forall p, v :: p in bindings && bindings[p] == ValueAt(v) <==> Line(p, Some(v)) in lines
  }

  lemma {:induction false} AllValuesMean(lines: seq<Line>)
    requires Compatible(lines) && forall l <- lines :: l.path != []
    ensures HasValues(Bound(lines), lines)
  {
    forall p, v
      ensures p in Bound(lines) && Bound(lines)[p] == ValueAt(v) <==> Line(p, Some(v)) in lines
    {
      ValuesMean(lines, p, v);
    }
  }

  /** A clash is a redefinition, or an earlier value above the path. */
  lemma {:induction false} ClashMeans(lines: seq<Line>, n: nat)
    requires n < |lines| && Compatible(lines[..n]) && forall l <- lines :: l.path != []
    ensures Clash(Bound(lines[..n]), lines[n].path) <==> !Fits(lines, n)
  {
    var front, path := lines[..n], lines[n].path;
    var m := Bound(front);
    BoundMeans(front, path);
    if Clash(m, path) && path !in m {
      var d :| 0 < d < |path| && path[..d] in m && m[path[..d]].ValueAt?;
      ValuesMean(front, path[..d], m[path[..d]].value);
      var j :| 0 <= j < n && front[j] == Line(path[..d], Some(m[path[..d]].value));
      assert lines[j].path <= path;
    }
    if !Fits(lines, n) && path !in m {
      var j :| 0 <= j < n && lines[j].value.Some? && lines[j].path <= path;
      assert front[j] == lines[j] && lines[j] in lines;
      ValuesMean(front, lines[j].path, lines[j].value.value);
      assert lines[j].path == path[..|lines[j].path|];
    }
  }

  lemma {:induction false} ChildrenExtend(m: Bindings, path: Path, b: Binding, q: Path)
    ensures Children(Extend(m, path, b), q) ==
            Children(m, q) + if |q| < |path| && path[..|q|] == q then {path[..|q| + 1]} else {}
  {
    var m' := Extend(m, path, b);
    forall p
      ensures p in Children(m', q) <==>
              p in Children(m, q) + if |q| < |path| && path[..|q|] == q then {path[..|q| + 1]} else {}
    {
      PrefixesMean(path, p);
      if p != [] && p <= path && |p| == |q| + 1 {
        assert p == path[..|q| + 1] && p[..|q|] == path[..|q|];
      }
      if |q| < |path| && path[..|q|] == q && p == path[..|q| + 1] {
        assert p[..|q|] == q;
      }
    }
  }

  lemma {:induction false} NarrowShrinks(m: Bindings, path: Path, b: Binding)
    requires Narrow(Extend(m, path, b))
    ensures Narrow(m)
  {
    forall q: Path
      ensures |Children(m, q)| <= TABLE_INIT_BUF
    {
      ChildrenExtend(m, path, b, q);
      SubsetSize(Children(m, q), Children(Extend(m, path, b), q));
    }
  }

  lemma {:induction false} RoomNarrow(m: Bindings, path: Path, b: Binding, q: Path)
    requires Closed(m) && Narrow(m) && Room(m, path)
    ensures |Children(Extend(m, path, b), q)| <= TABLE_INIT_BUF
  {
    ChildrenExtend(m, path, b, q);
    if |q| < |path| && path[..|q|] == q {
      var p := path[..|q| + 1];
      assert p[..|q|] == q;
      if p in m {
        assert Children(m, q) + {p} == Children(m, q);
      } else if !TableIn(m, path[..|q|]) && q !in m {
        NothingBelow(m, q);
      } else if !TableIn(m, path[..|q|]) {
        assert forall c | c in m && |c| == |q| + 1 :: TableIn(m, c[..|q|]);
        assert Children(m, q) == {};
      }
    } else {
      assert Children(m, q) + {} == Children(m, q);
    }
  }

  /** There is room for a path exactly when adding it leaves no table with too many entries. */
  lemma {:induction false} RoomMeans(m: Bindings, path: Path, b: Binding)
    requires Closed(m) && Narrow(m)
    ensures Room(m, path) <==> Narrow(Extend(m, path, b))
  {
    if Room(m, path) {
      forall q: Path {
        RoomNarrow(m, path, b, q);
      }
    }
    if Narrow(Extend(m, path, b)) {
      forall d | 0 <= d < |path| && path[..d + 1] !in m && TableIn(m, path[..d])
        ensures !Crowded(m, path[..d])
      {
        ChildrenExtend(m, path, b, path[..d]);
        assert path[..d + 1] !in Children(m, path[..d]);
      }
    }
  }

  lemma {:induction false} NarrowStart(lines: seq<Line>)
    requires lines == []
    ensures Narrow(Bound(lines))
  {
    forall q: Path
      ensures |Children(Bound(lines), q)| <= TABLE_INIT_BUF
    {
      assert Children(Bound(lines), q) == {};
    }
  }

  lemma {:induction false} CompatibleSplit(lines: seq<Line>, n: nat)
    requires |lines| == n + 1
    ensures Compatible(lines) <==> Compatible(lines[..n]) && Fits(lines, n)
  {
    if Compatible(lines) {
      FrontCompatible(lines, n);
    }
    if Compatible(lines[..n]) && Fits(lines, n) {
      forall i | 0 <= i < |lines|
        ensures Fits(lines, i)
      {
        if i < n {
          assert Fits(lines[..n], i) && lines[..n][..i] == lines[..i];
        }
      }
    }
  }

  /** Generation succeeds exactly when no line redefines a path or runs through a value and no table
      gets more entries than it has slots; and then it defines just what the lines say. */
  lemma {:induction false} PutAllExact(lines: seq<Line>)
    requires forall l <- lines :: l.path != []
    ensures PutAll(lines).Fine? <==> Compatible(lines) && Narrow(Bound(lines))
    ensures PutAll(lines).Fine? ==> PutAll(lines).m == Bound(lines)
    ensures Compatible(lines) ==> Closed(Bound(lines)) && NoRoot(Bound(lines))
  {
    if lines == [] {
      NarrowStart(lines);
    } else {
      var n := |lines| - 1;
      var front, last := lines[..n], lines[n];
      var m, b := Bound(front), BindingOf(last.value);
      PutAllExact(front);
      CompatibleSplit(lines, n);
      if Compatible(front) {
        ClashMeans(lines, n);
        if Fits(lines, n) {
          ExtendKeepsClosed(m, last.path, b);
        }
        if Narrow(Bound(lines)) {
          NarrowShrinks(m, last.path, b);
        }
        if Narrow(m) {
          PutFromMeans(m, last.path, 0, b);
          RoomMeans(m, last.path, b);
        }
      }
    }
  }

  /** Line `n` fits the lines before it, which can all be put, but finds a table full. */
  ghost predicate Overfills(lines: seq<Line>, n: nat)
    requires n < |lines|
  {
    Compatible(lines[..n + 1]) && Narrow(Bound(lines[..n])) && !Narrow(Bound(lines[..n + 1]))
  }

  lemma {:induction false} OverfillsLast(lines: seq<Line>, n: nat)
    requires |lines| == n + 1 && Compatible(lines[..n]) && Narrow(Bound(lines[..n]))
    requires forall l <- lines :: l.path != []
    ensures PutAll(lines).TableFull? <==> Overfills(lines, n)
  {
    var front, last := lines[..n], lines[n];
    PutAllExact(front);
    assert lines[..n + 1] == lines;
    CompatibleSplit(lines, n);
    ClashMeans(lines, n);
    PutFromMeans(Bound(front), last.path, 0, BindingOf(last.value));
    RoomMeans(Bound(front), last.path, BindingOf(last.value));
  }

  lemma {:induction false} OverfillsFront(lines: seq<Line>, n: nat, k: nat)
    requires k < n <= |lines|
    ensures Overfills(lines[..n], k) == Overfills(lines, k)
  {
    assert lines[..n][..k + 1] == lines[..k + 1] && lines[..n][..k] == lines[..k];
  }

  /** A line finds a table full before any other goes wrong. */
  ghost predicate Overfilled(lines: seq<Line>)
  {
    exists n :: 0 <= n < |lines| && Overfills(lines, n)
  }

  lemma {:induction false} OverfilledFront(lines: seq<Line>, n: nat)
    requires |lines| == n + 1
    ensures Overfilled(lines) <==> Overfilled(lines[..n]) || Overfills(lines, n)
  {
    if Overfilled(lines) {
      var k :| 0 <= k < |lines| && Overfills(lines, k);
      if k < n {
        OverfillsFront(lines, n, k);
      }
    }
    if Overfilled(lines[..n]) {
      var k :| 0 <= k < n && Overfills(lines[..n], k);
      OverfillsFront(lines, n, k);
    }
  }

  lemma {:induction false} OverfillsNot(lines: seq<Line>, n: nat)
    requires |lines| == n + 1 && !(Compatible(lines[..n]) && Narrow(Bound(lines[..n])))
    ensures !Overfills(lines, n)
  {
    assert lines[..n + 1] == lines;
    CompatibleSplit(lines, n);
  }

  /** Generation meets the assertion exactly when, before any line that redefines a path or runs
      through a value, one finds a table full. */
  lemma {:induction false} PutAllFull(lines: seq<Line>)
    requires forall l <- lines :: l.path != []
    ensures PutAll(lines).TableFull? <==> Overfilled(lines)
    decreases |lines|
  {
    if lines != [] {
      var n := |lines| - 1;
      PutAllFull(lines[..n]);
      PutAllExact(lines[..n]);
      OverfilledFront(lines, n);
      if PutAll(lines[..n]).Fine? {
        OverfillsLast(lines, n);
      } else {
        OverfillsNot(lines, n);
      }
    }
  }

  // ---------- value entries only ----------

  predicate ValuesOnly(lines: seq<Line>)
  {
    forall l <- lines :: l.path != [] && l.value.Some?
  }

  predicate PrefixFree(lines: seq<Line>)
  {
    forall i, j :: 0 <= i < |lines| && 0 <= j < |lines| && i != j ==> !(lines[i].path <= lines[j].path)
  }

  /** With value entries only, lines are compatible when no path is a prefix of another. */
  lemma {:induction false} PrefixFreeExact(lines: seq<Line>)
    requires ValuesOnly(lines)
    ensures Compatible(lines) <==> PrefixFree(lines)
  {
    if PrefixFree(lines) {
      forall i | 0 <= i < |lines|
        ensures Fits(lines, i)
      {
        assert forall j :: 0 <= j < i ==> lines[..i][j] == lines[j];
      }
    }
    if Compatible(lines) {
      forall i, j | 0 <= i < |lines| && 0 <= j < |lines| && i != j
        ensures !(lines[i].path <= lines[j].path)
      {
        if i < j {
          assert Fits(lines, j) && lines[i] in lines;
        } else {
          assert lines[..i][j] == lines[j] && lines[i] in lines;
          assert Fits(lines, i);
        }
      }
    }
  }

  lemma {:induction false} TwiceCounted<T>(s: seq<T>, i: nat, j: nat)
    requires i < j < |s| && s[i] == s[j]
    ensures multiset(s)[s[i]] >= 2
  {
    assert s == s[..j] + s[j..];
    assert s[..j][i] in multiset(s[..j]) && s[j..][0] in multiset(s[j..]);
  }

  lemma {:induction false} TwiceFound<T>(s: seq<T>, x: T) returns (i: nat, j: nat)
    requires multiset(s)[x] >= 2
    ensures i < j < |s| && s[i] == x && s[j] == x
  {
    var n := |s| - 1;
    assert s == s[..n] + [s[n]];
    if s[n] == x {
      j := n;
      assert x in multiset(s[..n]);
      i :| 0 <= i < n && s[..n][i] == x;
    } else {
      i, j := TwiceFound(s[..n], x);
    }
  }

  lemma {:induction false} PrefixFreePermuted(a: seq<Line>, b: seq<Line>)
    requires multiset(a) == multiset(b) && PrefixFree(a)
    ensures PrefixFree(b)
  {
    forall i, j | 0 <= i < |b| && 0 <= j < |b| && i != j
      ensures !(b[i].path <= b[j].path)
    {
      assert b[i] in multiset(b) && b[j] in multiset(b);
      if b[i] == b[j] {
        TwiceCounted(b, if i < j then i else j, if i < j then j else i);
        var k, l := TwiceFound(a, b[i]);
      } else {
        var k :| 0 <= k < |a| && a[k] == b[i];
        var l :| 0 <= l < |a| && a[l] == b[j];
      }
    }
  }

  lemma {:induction false} BoundPermuted(a: seq<Line>, b: seq<Line>)
    requires multiset(a) == multiset(b) && ValuesOnly(a) && ValuesOnly(b) && Compatible(a) && Compatible(b)
    ensures Bound(a) == Bound(b)
  {
    SameElements(a, b);
    forall p: Path {
      SameAt(a, b, p);
    }
  }

  lemma {:induction false} SameAt(a: seq<Line>, b: seq<Line>, p: Path)
    requires (forall x :: x in a <==> x in b) && Compatible(a) && Compatible(b) && ValuesOnly(a) && ValuesOnly(b)
    ensures p in Bound(a) <==> p in Bound(b)
    ensures p in Bound(a) ==> Bound(a)[p] == Bound(b)[p]
  {
    BoundMeans(a, p);
    BoundMeans(b, p);
    SameDefined(a, b, p);
    SameDefined(b, a, p);
    if p in Bound(a) && Bound(a)[p].ValueAt? {
      SameBinding(a, b, p);
    } else if p in Bound(b) && Bound(b)[p].ValueAt? {
      SameBinding(b, a, p);
    }
  }

  lemma {:induction false} SameElements<T>(a: seq<T>, b: seq<T>)
    requires multiset(a) == multiset(b)
    ensures forall x :: x in a <==> x in b
  {
    assert forall x :: x in a <==> x in multiset(a);
    assert forall x :: x in b <==> x in multiset(b);
  }

  lemma {:induction false} SameDefined(a: seq<Line>, b: seq<Line>, p: Path)
    requires forall x :: x in a ==> x in b
    ensures Defined(a, p) ==> Defined(b, p)
  {
    if Defined(a, p) {
      var i :| 0 <= i < |a| && p <= a[i].path;
      assert a[i] in b;
    }
  }

  lemma {:induction false} SameBinding(a: seq<Line>, b: seq<Line>, p: Path)
    requires (forall x :: x in a <==> x in b) && Compatible(a) && Compatible(b) && ValuesOnly(a) && ValuesOnly(b)
    requires p in Bound(a) && p in Bound(b) && Bound(a)[p].ValueAt?
    ensures Bound(b)[p] == Bound(a)[p]
  {
    ValuesMean(a, p, Bound(a)[p].value);
    ValuesMean(b, p, Bound(a)[p].value);
  }

  /** With value entries only, success and the resulting tables do not depend on the order of the
      lines; success is: no path is a prefix of another, and no table has more entries than slots. */
  lemma {:induction false} OrderIrrelevant(a: seq<Line>, b: seq<Line>)
    requires multiset(a) == multiset(b) && ValuesOnly(a)
    ensures ValuesOnly(b)
    ensures PutAll(a).Fine? <==> PrefixFree(a) && Narrow(Bound(a))
    ensures PutAll(a).Fine? <==> PutAll(b).Fine?
    ensures PutAll(a).Fine? ==> PutAll(b) == PutAll(a)
  {
    SameElements(a, b);
    assert forall l <- b :: l in a;
    PutAllExact(a);
    PutAllExact(b);
    PrefixFreeExact(a);
    PrefixFreeExact(b);
    if PrefixFree(a) {
      PrefixFreePermuted(a, b);
    }
    if PrefixFree(b) {
      PrefixFreePermuted(b, a);
    }
    if Compatible(a) && Compatible(b) {
      BoundPermuted(a, b);
    }
  }
}
