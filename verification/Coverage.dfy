/** Block coverage of files (internal/golang/coverage.go): position queries, merging, lookup; and its
    way through a checkpoint (internal/assure/baseline.go, internal/checkpoint/checkpoint.go). */
module Coverage {
  import opened Wrappers
  import opened Ordering

  datatype Block = Block(startLine: int, startColumn: int, endLine: int, endColumn: int)

  datatype FileCoverage = FileCoverage(path: string, blocks: seq<Block>)

  predicate Before(line: int, column: int, otherLine: int, otherColumn: int)
  {
    line < otherLine || (line == otherLine && column < otherColumn)
  }

  /** The block holds the position: a half-open interval of positions, compared as the program does. */
  predicate Holds(b: Block, line: int, column: int): (held: bool)
    ensures held <==> !Before(line, column, b.startLine, b.startColumn) && Before(line, column, b.endLine, b.endColumn)
  {
    if line < b.startLine || line > b.endLine then false
    else if line == b.startLine && column < b.startColumn then false
    else if line == b.endLine && column >= b.endColumn then false
    else true
  }

  predicate Contains(f: FileCoverage, line: int, column: int)
  {
    exists i :: 0 <= i < |f.blocks| && Holds(f.blocks[i], line, column)
  }

  /** Some block starts inside the span, both ends counting in. */
  predicate StartsWithin(f: FileCoverage, span: Block)
  {
    exists i :: 0 <= i < |f.blocks| &&
      !Before(f.blocks[i].startLine, f.blocks[i].startColumn, span.startLine, span.startColumn) &&
      !Before(span.endLine, span.endColumn, f.blocks[i].startLine, f.blocks[i].startColumn)
  }

  predicate BlockLe(a: Block, b: Block)
  {
    || Before(a.startLine, a.startColumn, b.startLine, b.startColumn)
    || (a.startLine == b.startLine && a.startColumn == b.startColumn &&
        !Before(b.endLine, b.endColumn, a.endLine, a.endColumn))
  }

  predicate PathLe(a: FileCoverage, b: FileCoverage)
  {
    TextLe(a.path, b.path)
  }

  lemma OrdersAreTotal()
    ensures TotalPreorder(BlockLe) && TotalPreorder(PathLe)
  {
    forall a: FileCoverage, b: FileCoverage ensures PathLe(a, b) || PathLe(b, a) {
      TextLeTotal(a.path, b.path);
    }
    forall a: FileCoverage, b: FileCoverage, c: FileCoverage | PathLe(a, b) && PathLe(b, c) ensures PathLe(a, c) {
      TextLeTransitive(a.path, b.path, c.path);
    }
  }

  // ---- coverage as sets

  /** The blocks recorded under each path; a path without blocks is not recorded. */
  function ToSets(files: seq<FileCoverage>): map<string, set<Block>>
  {
    if files == [] then map[] else Recorded(ToSets(files[..|files| - 1]), files[|files| - 1])
  }

  function BlockSet(blocks: seq<Block>): set<Block>
  {
    set i | 0 <= i < |blocks| :: blocks[i]
  }

  function Found(m: map<string, set<Block>>, path: string): set<Block>
  {
    if path in m then m[path] else {}
  }

  function Recorded(m: map<string, set<Block>>, f: FileCoverage): map<string, set<Block>>
  {
    if f.blocks == [] then m else m[f.path := Found(m, f.path) + BlockSet(f.blocks)]
  }

  function Combined(a: map<string, set<Block>>, b: map<string, set<Block>>): map<string, set<Block>>
  {
    map p | p in a.Keys + b.Keys :: Found(a, p) + Found(b, p)
  }

  /** Files in path order, each once, with its blocks in order, each once. */
  ghost predicate Canonical(files: seq<FileCoverage>)
  {
    && (forall i, j :: 0 <= i < j < |files| ==> TextLe(files[i].path, files[j].path) && files[i].path != files[j].path)
    && (forall i :: 0 <= i < |files| ==>
         files[i].blocks != [] && Sorted(files[i].blocks, BlockLe) && Distinct(files[i].blocks))
  }

  lemma {:induction false} ToSetsFound(files: seq<FileCoverage>, p: string)
    ensures p in ToSets(files) <==> exists i :: 0 <= i < |files| && files[i].path == p && files[i].blocks != []
    ensures forall b :: b in Found(ToSets(files), p) <==>
      exists i :: 0 <= i < |files| && files[i].path == p && b in files[i].blocks
  {
    if files != [] {
      var front, last := files[..|files| - 1], files[|files| - 1];
      ToSetsFound(front, p);
      forall i | 0 <= i < |front| ensures front[i] == files[i] {
      }
      if last.path == p && last.blocks != [] {
        assert files[|files| - 1].path == p;
        forall b | b in last.blocks ensures b in BlockSet(last.blocks) {
          var i :| 0 <= i < |last.blocks| && last.blocks[i] == b;
        }
      }
      SplitLast(files, p);
    }
  }

  lemma SplitLast(files: seq<FileCoverage>, p: string)
    requires files != []
    ensures
      var front, last := files[..|files| - 1], files[|files| - 1];
      && ((exists i :: 0 <= i < |files| && files[i].path == p && files[i].blocks != []) <==>
           (last.path == p && last.blocks != []) || exists i :: 0 <= i < |front| && front[i].path == p && front[i].blocks != [])
      && (forall b :: (exists i :: 0 <= i < |files| && files[i].path == p && b in files[i].blocks) <==>
           (last.path == p && b in last.blocks) || exists i :: 0 <= i < |front| && front[i].path == p && b in front[i].blocks)
  {
    var front, last := files[..|files| - 1], files[|files| - 1];
    assert forall i :: 0 <= i < |front| ==> front[i] == files[i];
    assert files[|files| - 1] == last;
  }

  /** Two canonical lists with the same blocks under the same paths are the same. */
  lemma CanonicalUnique(a: seq<FileCoverage>, b: seq<FileCoverage>)
    requires Canonical(a) && Canonical(b) && ToSets(a) == ToSets(b)
    ensures a == b
  {
    SamePaths(a, b);
    forall i | 0 <= i < |a| ensures a[i] == b[i] {
      SameBlocksAt(a, b, i);
    }
  }

  function Paths(files: seq<FileCoverage>): (paths: seq<string>)
    ensures |paths| == |files| && forall i :: 0 <= i < |files| ==> paths[i] == files[i].path
  {
    seq(|files|, i requires 0 <= i < |files| => files[i].path)
  }

  lemma SamePaths(a: seq<FileCoverage>, b: seq<FileCoverage>)
    requires Canonical(a) && Canonical(b) && ToSets(a) == ToSets(b)
    ensures Paths(a) == Paths(b)
  {
    CanonicalPaths(a);
    CanonicalPaths(b);
    TextLeIsTotalPreorder();
    TextsAntisymmetric(Paths(a));
    ListedOnce(Paths(a), Paths(b), ToSets(a).Keys, TextLe);
  }

  lemma CanonicalPaths(a: seq<FileCoverage>)
    requires Canonical(a)
    ensures Lists(Paths(a), ToSets(a).Keys, TextLe)
  {
    forall p ensures p in Paths(a) <==> p in ToSets(a).Keys {
      ToSetsFound(a, p);
      if p in Paths(a) {
        var i :| 0 <= i < |a| && Paths(a)[i] == p;
        assert a[i].path == p && a[i].blocks != [];
      }
      if p in ToSets(a) {
        var i :| 0 <= i < |a| && a[i].path == p;
        assert Paths(a)[i] == p;
      }
    }
  }

  lemma CanonicalAt(a: seq<FileCoverage>, i: nat)
    requires Canonical(a) && i < |a|
    ensures Lists(a[i].blocks, Found(ToSets(a), a[i].path), BlockLe)
  {
    ToSetsFound(a, a[i].path);
    forall b ensures b in a[i].blocks <==> b in Found(ToSets(a), a[i].path) {
      if b in Found(ToSets(a), a[i].path) {
        var j :| 0 <= j < |a| && a[j].path == a[i].path && b in a[j].blocks;
        assert i == j;
      }
    }
  }

  lemma SameBlocksAt(a: seq<FileCoverage>, b: seq<FileCoverage>, i: nat)
    requires Canonical(a) && Canonical(b) && ToSets(a) == ToSets(b) && Paths(a) == Paths(b) && i < |a|
    ensures i < |b| && a[i] == b[i]
  {
    assert |a| == |Paths(a)| == |b|;
    assert a[i].path == Paths(a)[i] == b[i].path;
    CanonicalAt(a, i);
    CanonicalAt(b, i);
    OrdersAreTotal();
    ListedOnce(a[i].blocks, b[i].blocks, Found(ToSets(a), a[i].path), BlockLe);
  }

  // ---- merging

  /** The canonical list of these blocks. */
  method SortedFileCoverage(blocks: map<string, set<Block>>) returns (files: seq<FileCoverage>)
    requires forall p :: p in blocks ==> blocks[p] != {}
    ensures Canonical(files) && ToSets(files) == blocks
  {
    hide Canonical, Lists, Sorted, Distinct, BlockLe, PathLe, TextLe;
    OrdersAreTotal();
    var paths := Enumerate(blocks.Keys);
    TextLeIsTotalPreorder();
    SortedLists(paths, blocks.Keys, TextLe);
    paths := Sort(paths, TextLe);
    ListedPaths(paths, blocks);
    files := [];
    for i := 0 to |paths|
      invariant |files| == i
      invariant forall j :: 0 <= j < i ==> files[j].path == paths[j] && Lists(files[j].blocks, blocks[paths[j]], BlockLe)
    {
      var unique := Enumerate(blocks[paths[i]]);
      SortedLists(unique, blocks[paths[i]], BlockLe);
      files := files + [FileCoverage(paths[i], Sort(unique, BlockLe))];
    }
    ListedIsCanonical(files, paths, blocks);
  }

  lemma ListedPaths(paths: seq<string>, blocks: map<string, set<Block>>)
    requires Lists(paths, blocks.Keys, TextLe)
    ensures forall i :: 0 <= i < |paths| ==> paths[i] in blocks
  {
    assert forall i :: 0 <= i < |paths| ==> paths[i] in paths;
  }

  lemma ListedIsCanonical(files: seq<FileCoverage>, paths: seq<string>, blocks: map<string, set<Block>>)
    requires Lists(paths, blocks.Keys, TextLe) && |files| == |paths|
    requires forall p :: p in blocks ==> blocks[p] != {}
    requires forall i :: 0 <= i < |paths| ==> paths[i] in blocks
    requires forall j :: 0 <= j < |files| ==> files[j].path == paths[j] && Lists(files[j].blocks, blocks[paths[j]], BlockLe)
    ensures Canonical(files) && ToSets(files) == blocks
  {
    hide *;
    ListedFiles(files, paths, blocks);
    forall p ensures (p in ToSets(files) <==> p in blocks) && Found(ToSets(files), p) == Found(blocks, p) {
      ListedAt(files, paths, blocks, p);
    }
    SameSets(ToSets(files), blocks);
  }

  lemma ListedAt(files: seq<FileCoverage>, paths: seq<string>, blocks: map<string, set<Block>>, p: string)
    requires Canonical(files) && Lists(paths, blocks.Keys, TextLe) && |files| == |paths|
    requires forall i :: 0 <= i < |paths| ==> paths[i] in blocks
    requires forall j :: 0 <= j < |files| ==> files[j].path == paths[j] && Lists(files[j].blocks, blocks[paths[j]], BlockLe)
    ensures (p in ToSets(files) <==> p in blocks) && Found(ToSets(files), p) == Found(blocks, p)
  {
    hide Canonical, ToSets, TextLe, BlockLe, Sorted, Distinct;
    CanonicalPaths(files);
    assert Paths(files) == paths;
    if p in blocks {
      assert p in paths;
      var i :| 0 <= i < |paths| && paths[i] == p;
      CanonicalAt(files, i);
    }
  }

  lemma ListedFiles(files: seq<FileCoverage>, paths: seq<string>, blocks: map<string, set<Block>>)
    requires Lists(paths, blocks.Keys, TextLe) && |files| == |paths|
    requires forall p :: p in blocks ==> blocks[p] != {}
    requires forall i :: 0 <= i < |paths| ==> paths[i] in blocks
    requires forall j :: 0 <= j < |files| ==> files[j].path == paths[j] && Lists(files[j].blocks, blocks[paths[j]], BlockLe)
    ensures Canonical(files)
  {
    forall i | 0 <= i < |files| ensures files[i].blocks != [] {
      var kept := blocks[paths[i]];
      var b :| b in kept;
      assert b in files[i].blocks;
    }
    forall i, j | 0 <= i < j < |files| ensures TextLe(files[i].path, files[j].path) && files[i].path != files[j].path {
      assert TextLe(paths[i], paths[j]) && paths[i] != paths[j];
    }
  }

  method MergeFileCoverage(first: seq<FileCoverage>, second: seq<FileCoverage>) returns (merged: seq<FileCoverage>)
    ensures merged == Merged(first, second)
  {
    hide Canonical;
    var blocks: map<string, set<Block>> := map[];
    var inputs := [first, second];
    ghost var all := first + second;
    var done := 0;
    for k := 0 to 2
      invariant done == if k == 0 then 0 else if k == 1 then |first| else |all|
      invariant blocks == ToSets(all[..done])
    {
      var files := inputs[k];
      for i := 0 to |files|
        invariant done == i + (if k == 0 then 0 else |first|)
        invariant blocks == ToSets(all[..done])
      {
        assert files[i] == all[done] && all[..done + 1][..done] == all[..done];
        blocks := Remember(blocks, files[i]);
        done := done + 1;
      }
    }
    assert all[..|all|] == all;
    ToSetsAppend(first, second);
    NoEmptySets(all);
    merged := SortedFileCoverage(blocks);
    MergedIs(first, second, merged);
  }

  method Remember(blocks: map<string, set<Block>>, f: FileCoverage) returns (after: map<string, set<Block>>)
    ensures after == Recorded(blocks, f)
  {
    after := blocks;
    for i := 0 to |f.blocks|
      invariant after == if i == 0 then blocks else blocks[f.path := Found(blocks, f.path) + BlockSet(f.blocks[..i])]
    {
      assert BlockSet(f.blocks[..i + 1]) == BlockSet(f.blocks[..i]) + {f.blocks[i]};
      assert BlockSet(f.blocks[..0]) == {};
      assert Found(after, f.path) + {f.blocks[i]} == Found(blocks, f.path) + BlockSet(f.blocks[..i + 1]);
      after := after[f.path := Found(after, f.path) + {f.blocks[i]}];
    }
    assert f.blocks[..|f.blocks|] == f.blocks;
  }

  lemma {:induction false} ToSetsAppend(a: seq<FileCoverage>, b: seq<FileCoverage>)
    ensures ToSets(a + b) == Combined(ToSets(a), ToSets(b))
  {
    if b == [] {
      assert a + b == a;
      CombinedWithNone(ToSets(a));
    } else {
      var front, last := b[..|b| - 1], b[|b| - 1];
      ToSetsAppend(a, front);
      assert (a + b)[..|a + b| - 1] == a + front && (a + b)[|a + b| - 1] == last;
      RecordedCombined(ToSets(a), ToSets(front), last);
    }
  }

  lemma CombinedWithNone(m: map<string, set<Block>>)
    ensures Combined(m, map[]) == m
  {
    forall p ensures Found(Combined(m, map[]), p) == Found(m, p) {
      FoundCombined(m, map[], p);
    }
    SameSets(Combined(m, map[]), m);
  }

  lemma RecordedCombined(a: map<string, set<Block>>, b: map<string, set<Block>>, f: FileCoverage)
    ensures Recorded(Combined(a, b), f) == Combined(a, Recorded(b, f))
  {
    var x, y := Recorded(Combined(a, b), f), Combined(a, Recorded(b, f));
    forall p ensures (p in x <==> p in y) && Found(x, p) == Found(y, p) {
      FoundCombined(a, b, p);
      FoundCombined(a, Recorded(b, f), p);
    }
    SameSets(x, y);
  }

  lemma SameSets(a: map<string, set<Block>>, b: map<string, set<Block>>)
    requires forall p :: (p in a <==> p in b) && Found(a, p) == Found(b, p)
    ensures a == b
  {
    forall p | p in a ensures p in b && a[p] == b[p] {
      assert Found(a, p) == Found(b, p);
    }
  }

  lemma FoundCombined(a: map<string, set<Block>>, b: map<string, set<Block>>, p: string)
    ensures p in Combined(a, b) <==> p in a || p in b
    ensures Found(Combined(a, b), p) == Found(a, p) + Found(b, p)
  {
  }

  lemma {:induction false} NoEmptySets(files: seq<FileCoverage>)
    ensures forall p :: p in ToSets(files) ==> ToSets(files)[p] != {}
  {
    if files != [] {
      NoEmptySets(files[..|files| - 1]);
      var f := files[|files| - 1];
      if f.blocks != [] {
        assert f.blocks[0] in BlockSet(f.blocks);
      }
    }
  }

  lemma CanonicalExists(m: map<string, set<Block>>)
    requires forall p :: p in m ==> m[p] != {}
    ensures exists files :: Canonical(files) && ToSets(files) == m
  {
    OrdersAreTotal();
    TextLeIsTotalPreorder();
    var paths := Arranged(m.Keys, TextLe);
    ListedPaths(paths, m);
    var files := seq(|paths|, i requires 0 <= i < |paths| => FileCoverage(paths[i], Arranged(m[paths[i]], BlockLe)));
    ListedIsCanonical(files, paths, m);
  }

  /** The merge of two coverages: the canonical list of the blocks of both. */
  ghost function Merged(a: seq<FileCoverage>, b: seq<FileCoverage>): (r: seq<FileCoverage>)
    ensures Canonical(r) && ToSets(r) == Combined(ToSets(a), ToSets(b))
  {
    NoEmptySets(a);
    NoEmptySets(b);
    NoEmptyCombined(ToSets(a), ToSets(b));
    CanonicalExists(Combined(ToSets(a), ToSets(b)));
    var r :| Canonical(r) && ToSets(r) == Combined(ToSets(a), ToSets(b));
    r
  }

  lemma NoEmptyCombined(a: map<string, set<Block>>, b: map<string, set<Block>>)
    requires (forall p :: p in a ==> a[p] != {}) && forall p :: p in b ==> b[p] != {}
    ensures forall p :: p in Combined(a, b) ==> Combined(a, b)[p] != {}
  {
    forall p | p in Combined(a, b) ensures Combined(a, b)[p] != {} {
      if p in a {
        var x :| x in a[p];
        assert x in Combined(a, b)[p];
      } else {
        var x :| x in b[p];
        assert x in Combined(a, b)[p];
      }
    }
  }

  lemma MergedIs(a: seq<FileCoverage>, b: seq<FileCoverage>, r: seq<FileCoverage>)
    requires Canonical(r) && ToSets(r) == Combined(ToSets(a), ToSets(b))
    ensures r == Merged(a, b)
  {
    CanonicalUnique(r, Merged(a, b));
  }

  lemma MergeCommutes(a: seq<FileCoverage>, b: seq<FileCoverage>)
    ensures Merged(a, b) == Merged(b, a)
  {
    forall p ensures Found(Combined(ToSets(a), ToSets(b)), p) == Found(Combined(ToSets(b), ToSets(a)), p) {
      FoundCombined(ToSets(a), ToSets(b), p);
      FoundCombined(ToSets(b), ToSets(a), p);
    }
    SameSets(Combined(ToSets(a), ToSets(b)), Combined(ToSets(b), ToSets(a)));
    CanonicalUnique(Merged(a, b), Merged(b, a));
  }

  lemma MergeAssociates(a: seq<FileCoverage>, b: seq<FileCoverage>, c: seq<FileCoverage>)
    ensures Merged(Merged(a, b), c) == Merged(a, Merged(b, c))
  {
    CombinedAssociates(ToSets(a), ToSets(b), ToSets(c));
    CanonicalUnique(Merged(Merged(a, b), c), Merged(a, Merged(b, c)));
  }

  lemma CombinedAssociates(a: map<string, set<Block>>, b: map<string, set<Block>>, c: map<string, set<Block>>)
    ensures Combined(Combined(a, b), c) == Combined(a, Combined(b, c))
  {
    hide Combined, Found;
    var x, y := Combined(Combined(a, b), c), Combined(a, Combined(b, c));
    forall p ensures (p in x <==> p in y) && Found(x, p) == Found(y, p) {
      FoundCombined(a, b, p);
      FoundCombined(b, c, p);
      FoundCombined(Combined(a, b), c, p);
      FoundCombined(a, Combined(b, c), p);
    }
    SameSets(x, y);
  }

  /** Merging with itself, or with nothing, is the identity exactly on canonical coverage. */
  lemma MergeIsIdempotent(a: seq<FileCoverage>)
    ensures Merged(a, a) == Merged([], a)
    ensures Merged(a, a) == a <==> Canonical(a)
  {
    CombinedIsIdempotent(ToSets(a));
    CanonicalUnique(Merged(a, a), Merged([], a));
    if Canonical(a) {
      CanonicalUnique(Merged(a, a), a);
    }
  }

  lemma CombinedIsIdempotent(m: map<string, set<Block>>)
    ensures Combined(m, m) == m && Combined(map[], m) == m
  {
    forall p ensures Found(Combined(m, m), p) == Found(m, p) && Found(Combined(map[], m), p) == Found(m, p) {
      FoundCombined(m, m, p);
      FoundCombined(map[], m, p);
    }
    SameSets(Combined(m, m), m);
    SameSets(Combined(map[], m), m);
  }

  // ---- positions and lookup

  /** Some file of this path holds the position. */
  ghost predicate Covers(files: seq<FileCoverage>, path: string, line: int, column: int)
  {
    exists i :: 0 <= i < |files| && files[i].path == path && Contains(files[i], line, column)
  }

  lemma CoversBySet(files: seq<FileCoverage>, path: string, line: int, column: int)
    ensures Covers(files, path, line, column) <==> exists b :: b in Found(ToSets(files), path) && Holds(b, line, column)
  {
    ToSetsFound(files, path);
    if Covers(files, path, line, column) {
      var i :| 0 <= i < |files| && files[i].path == path && Contains(files[i], line, column);
      var j :| 0 <= j < |files[i].blocks| && Holds(files[i].blocks[j], line, column);
      assert files[i].blocks[j] in Found(ToSets(files), path);
    }
    if b :| b in Found(ToSets(files), path) && Holds(b, line, column) {
      var i :| 0 <= i < |files| && files[i].path == path && b in files[i].blocks;
      var j :| 0 <= j < |files[i].blocks| && files[i].blocks[j] == b;
      assert Contains(files[i], line, column);
    }
  }

  /** A position is covered by the merge exactly when either side covers it. */
  lemma MergeCoversUnion(a: seq<FileCoverage>, b: seq<FileCoverage>, path: string, line: int, column: int)
    ensures Covers(Merged(a, b), path, line, column) <==> Covers(a, path, line, column) || Covers(b, path, line, column)
  {
    CoversBySet(a, path, line, column);
    CoversBySet(b, path, line, column);
    CoversBySet(Merged(a, b), path, line, column);
    assert Found(ToSets(Merged(a, b)), path) == Found(ToSets(a), path) + Found(ToSets(b), path);
  }

  /** The first file of this path; an empty coverage, not found, when there is none. */
  function Find(files: seq<FileCoverage>, path: string): (FileCoverage, bool)
  {
    if files == [] then (FileCoverage("", []), false)
    else if files[0].path == path then (files[0], true)
    else Find(files[1..], path)
  }

  lemma {:induction false} FindIs(files: seq<FileCoverage>, path: string)
    ensures Find(files, path).1 <==> exists i :: 0 <= i < |files| && files[i].path == path
    ensures forall i :: 0 <= i < |files| && files[i].path == path && (forall j :: 0 <= j < i ==> files[j].path != path) ==>
      Find(files, path) == (files[i], true)
    ensures !Find(files, path).1 ==> Find(files, path).0.blocks == []
    ensures Find(files, path).1 ==> Find(files, path).0.path == path
  {
    if files != [] {
      FindIs(files[1..], path);
      if i :| 0 <= i < |files| && files[i].path == path && files[0].path != path {
        assert files[1..][i - 1].path == path;
      }
      if Find(files[1..], path).1 {
        var i :| 0 <= i < |files[1..]| && files[1..][i].path == path;
        assert files[i + 1].path == path;
      }
      forall i | 0 < i < |files| && files[i].path == path && (forall j :: 0 <= j < i ==> files[j].path != path)
        ensures Find(files, path) == (files[i], true)
      {
        assert files[1..][i - 1] == files[i];
        assert forall j :: 0 <= j < i - 1 ==> files[1..][j] == files[j + 1];
      }
    }
  }

  ghost predicate OnePerPath(files: seq<FileCoverage>)
  {
    forall i, j :: 0 <= i < j < |files| ==> files[i].path != files[j].path
  }

  /** What the search demands of its list. */
  ghost predicate InPathOrder(files: seq<FileCoverage>)
  {
    forall i, j :: 0 <= i < j < |files| ==> TextLe(files[i].path, files[j].path)
  }

  /** The binary search finds the first file of the path exactly when there is one. */
  method FindFileCoverage(files: seq<FileCoverage>, path: string) returns (file: FileCoverage, found: bool)
    requires InPathOrder(files)
    ensures (file, found) == Find(files, path)
    ensures OnePerPath(files) ==> forall line, column :: Contains(file, line, column) <==> Covers(files, path, line, column)
  {
    hide InPathOrder, Contains, Covers, OnePerPath;
    FindIs(files, path);
    if OnePerPath(files) {
      forall line, column ensures Contains(Find(files, path).0, line, column) <==> Covers(files, path, line, column) {
        FindCovers(files, path, line, column);
      }
    }
    var low, high := 0, |files|;
    while low < high
      invariant 0 <= low <= high <= |files|
      invariant forall i :: 0 <= i < low ==> files[i].path != path && TextLe(files[i].path, path)
      invariant forall i :: high <= i < |files| ==> TextLe(path, files[i].path)
    {
      var middle := (low + high) / 2;
      SearchStep(files, path, middle);
      if TextLe(files[middle].path, path) && files[middle].path != path {
        low := middle + 1;
      } else {
        high := middle;
      }
    }
    if low == |files| || files[low].path != path {
      SearchMisses(files, path, low);
      return FileCoverage("", []), false;
    }
    return files[low], true;
  }

  lemma SearchStep(files: seq<FileCoverage>, path: string, middle: nat)
    requires InPathOrder(files) && middle < |files|
    ensures TextLe(files[middle].path, path) && files[middle].path != path ==>
      forall i :: 0 <= i <= middle ==> files[i].path != path && TextLe(files[i].path, path)
    ensures !(TextLe(files[middle].path, path) && files[middle].path != path) ==>
      forall i :: middle <= i < |files| ==> TextLe(path, files[i].path)
  {
    TextLeTotal(path, files[middle].path);
    forall i | 0 <= i < middle && TextLe(files[middle].path, path) && files[middle].path != path
      ensures files[i].path != path && TextLe(files[i].path, path)
    {
      TextLeTransitive(files[i].path, files[middle].path, path);
      if files[i].path == path {
        TextLeAntisymmetric(files[middle].path, path);
      }
    }
    forall i | middle < i < |files| && TextLe(path, files[middle].path) ensures TextLe(path, files[i].path) {
      TextLeTransitive(path, files[middle].path, files[i].path);
    }
  }

  lemma SearchMisses(files: seq<FileCoverage>, path: string, low: nat)
    requires InPathOrder(files) && low <= |files|
    requires forall i :: 0 <= i < low ==> files[i].path != path
    requires forall i :: low <= i < |files| ==> TextLe(path, files[i].path)
    requires low == |files| || files[low].path != path
    ensures Find(files, path) == (FileCoverage("", []), false)
  {
    forall i | low < i < |files| ensures files[i].path != path {
      if files[i].path == path {
        TextLeAntisymmetric(files[low].path, files[i].path);
      }
    }
    FindNone(files, path);
  }

  lemma {:induction false} FindNone(files: seq<FileCoverage>, path: string)
    requires forall i :: 0 <= i < |files| ==> files[i].path != path
    ensures Find(files, path) == (FileCoverage("", []), false)
  {
    if files != [] {
      FindNone(files[1..], path);
    }
  }

  /** With one file for each path, the file found holds all that is recorded under its path. */
  lemma FindBlocks(files: seq<FileCoverage>, path: string)
    requires OnePerPath(files)
    ensures forall b :: b in Find(files, path).0.blocks <==> b in Found(ToSets(files), path)
  {
    FindIs(files, path);
    ToSetsFound(files, path);
    if i :| 0 <= i < |files| && files[i].path == path {
      assert forall j :: 0 <= j < i ==> files[j].path != path;
      assert forall j :: 0 <= j < |files| && files[j].path == path ==> j == i;
    }
  }

  lemma FindCovers(files: seq<FileCoverage>, path: string, line: int, column: int)
    requires OnePerPath(files)
    ensures Contains(Find(files, path).0, line, column) <==> Covers(files, path, line, column)
  {
    FindBlocks(files, path);
    CoversBySet(files, path, line, column);
    var f := Find(files, path).0;
    if Contains(f, line, column) {
      var i :| 0 <= i < |f.blocks| && Holds(f.blocks[i], line, column);
      assert f.blocks[i] in f.blocks;
    }
    if b :| b in Found(ToSets(files), path) && Holds(b, line, column) {
      var i :| 0 <= i < |f.blocks| && f.blocks[i] == b;
    }
  }

  /** Position queries depend on the blocks alone, not on their order. */
  lemma SameBlocksAnswerSame(f: FileCoverage, g: FileCoverage, line: int, column: int, span: Block)
    requires forall b :: b in f.blocks <==> b in g.blocks
    ensures Contains(f, line, column) ==> Contains(g, line, column)
    ensures StartsWithin(f, span) ==> StartsWithin(g, span)
  {
    forall i | 0 <= i < |f.blocks| ensures exists j :: 0 <= j < |g.blocks| && g.blocks[j] == f.blocks[i] {
      assert f.blocks[i] in g.blocks;
    }
  }

  // ---- through a checkpoint

  /** Coverage that was not measured is None; the checkpoint writes it as empty. */
  function CheckpointValue(covered: Option<seq<FileCoverage>>): seq<FileCoverage>
  {
    if covered.Some? then covered.value else []
  }

  /** Remove neighbours that are equal. */
  function Compacted(blocks: seq<Block>): seq<Block>
  {
    if |blocks| < 2 then blocks
    else if blocks[0] == blocks[1] then Compacted(blocks[1..])
    else [blocks[0]] + Compacted(blocks[1..])
  }

  function CanonicalFile(f: FileCoverage): FileCoverage
  {
    f.(blocks := Compacted(Sort(f.blocks, BlockLe)))
  }

  function CanonicalFiles(files: seq<FileCoverage>): (r: seq<FileCoverage>)
    ensures |r| == |files| && forall i :: 0 <= i < |files| ==> r[i] == CanonicalFile(files[i])
  {
    seq(|files|, i requires 0 <= i < |files| => CanonicalFile(files[i]))
  }

  /** The checkpoint's own form: blocks sorted and compacted, then files sorted. */
  method CanonicalCoverage(input: seq<FileCoverage>) returns (files: seq<FileCoverage>)
    ensures files == Sort(CanonicalFiles(input), PathLe)
  {
    files := input;
    for i := 0 to |files|
      invariant |files| == |input|
      invariant forall j :: 0 <= j < i ==> files[j] == CanonicalFile(input[j])
      invariant forall j :: i <= j < |files| ==> files[j] == input[j]
    {
      files := files[i := files[i].(blocks := Compacted(Sort(files[i].blocks, BlockLe)))];
    }
    assert files == CanonicalFiles(input);
    files := Sort(files, PathLe);
  }

  lemma {:induction false} CompactedKeeps(blocks: seq<Block>)
    ensures BlockSet(Compacted(blocks)) == BlockSet(blocks)
    ensures Compacted(blocks) == [] <==> blocks == []
  {
    if |blocks| >= 2 {
      CompactedKeeps(blocks[1..]);
      assert blocks == [blocks[0]] + blocks[1..];
      BlockSetCons(blocks[0], blocks[1..]);
      if blocks[0] == blocks[1] {
        assert blocks[1..][0] in BlockSet(blocks[1..]);
      } else {
        BlockSetCons(blocks[0], Compacted(blocks[1..]));
      }
    }
  }

  lemma BlockSetCons(b: Block, rest: seq<Block>)
    ensures BlockSet([b] + rest) == {b} + BlockSet(rest)
  {
    var all := [b] + rest;
    assert all[0] == b;
    assert forall i :: 0 <= i < |rest| ==> all[i + 1] == rest[i];
  }

  lemma CanonicalFileKeeps(f: FileCoverage)
    ensures BlockSet(CanonicalFile(f).blocks) == BlockSet(f.blocks)
    ensures CanonicalFile(f).blocks == [] <==> f.blocks == []
  {
    CompactedKeeps(Sort(f.blocks, BlockLe));
    SortMembers(f.blocks, BlockLe);
    SortPermutes(f.blocks, BlockLe);
    forall b ensures b in BlockSet(Sort(f.blocks, BlockLe)) <==> b in BlockSet(f.blocks) {
      assert b in f.blocks <==> b in BlockSet(f.blocks);
      assert b in Sort(f.blocks, BlockLe) <==> b in BlockSet(Sort(f.blocks, BlockLe));
    }
  }

  /** The order of the files does not matter to what is recorded. */
  lemma ToSetsOfMembers(a: seq<FileCoverage>, b: seq<FileCoverage>)
    requires forall f :: f in a <==> f in b
    ensures ToSets(a) == ToSets(b)
  {
    forall p ensures (p in ToSets(a) <==> p in ToSets(b)) && Found(ToSets(a), p) == Found(ToSets(b), p) {
      ToSetsFound(a, p);
      ToSetsFound(b, p);
      SameFound(a, b, p);
      SameFound(b, a, p);
    }
  }

  lemma SameFound(a: seq<FileCoverage>, b: seq<FileCoverage>, p: string)
    requires forall f :: f in a <==> f in b
    ensures p in ToSets(a) ==> p in ToSets(b)
    ensures Found(ToSets(a), p) <= Found(ToSets(b), p)
  {
    ToSetsFound(a, p);
    ToSetsFound(b, p);
    if p in ToSets(a) {
      var i :| 0 <= i < |a| && a[i].path == p && a[i].blocks != [];
      assert a[i] in b;
    }
    forall x | x in Found(ToSets(a), p) ensures x in Found(ToSets(b), p) {
      var i :| 0 <= i < |a| && a[i].path == p && x in a[i].blocks;
      assert a[i] in b;
    }
  }

  lemma {:induction false} CanonicalFilesKeep(files: seq<FileCoverage>)
    ensures ToSets(CanonicalFiles(files)) == ToSets(files)
  {
    if files != [] {
      var n := |files| - 1;
      assert CanonicalFiles(files)[..n] == CanonicalFiles(files[..n]);
      CanonicalFilesKeep(files[..n]);
      CanonicalFileKeeps(files[n]);
    }
  }

  /** What a resumed run reads back: the merge of nothing and what the checkpoint holds. */
  ghost function Restored(covered: Option<seq<FileCoverage>>): seq<FileCoverage>
  {
    Merged([], Sort(CanonicalFiles(CheckpointValue(covered)), PathLe))
  }

  /** Through the checkpoint and back, coverage becomes canonical with the same blocks; it comes back
      as it was exactly when it was measured and canonical. */
  lemma CheckpointRoundTrip(covered: Option<seq<FileCoverage>>)
    ensures Restored(covered) == Merged([], CheckpointValue(covered))
    ensures Some(Restored(covered)) == covered <==> covered.Some? && Canonical(covered.value)
  {
    var files := CheckpointValue(covered);
    var stored := Sort(CanonicalFiles(files), PathLe);
    SortMembers(CanonicalFiles(files), PathLe);
    ToSetsOfMembers(stored, CanonicalFiles(files));
    CanonicalFilesKeep(files);
    CanonicalUnique(Merged([], stored), Merged([], files));
    MergeIsIdempotent(files);
  }

  /** Coverage that was not measured has no files. */
  function Lookup(covered: Option<seq<FileCoverage>>, path: string): FileCoverage
  {
    if covered.None? then FileCoverage("", []) else Find(covered.value, path).0
  }

  /** A lookup in what a resumed run reads back finds the same blocks. */
  lemma RestoredFinds(covered: Option<seq<FileCoverage>>, path: string)
    requires covered.Some? ==> OnePerPath(covered.value)
    ensures forall b :: b in Find(Restored(covered), path).0.blocks <==> b in Lookup(covered, path).blocks
  {
    var files, restored := CheckpointValue(covered), Restored(covered);
    CheckpointRoundTrip(covered);
    FindBlocks(restored, path);
    FindBlocks(files, path);
    CombinedIsIdempotent(ToSets(files));
    assert Find([], path).0.blocks == [];
  }

  /** So it answers every position query as before. */
  lemma RestoredAnswers(covered: Option<seq<FileCoverage>>, path: string, line: int, column: int, span: Block)
    requires covered.Some? ==> OnePerPath(covered.value)
    ensures Contains(Find(Restored(covered), path).0, line, column) <==> Contains(Lookup(covered, path), line, column)
    ensures StartsWithin(Find(Restored(covered), path).0, span) <==> StartsWithin(Lookup(covered, path), span)
  {
    RestoredFinds(covered, path);
    SameBlocksAnswerSame(Find(Restored(covered), path).0, Lookup(covered, path), line, column, span);
    SameBlocksAnswerSame(Lookup(covered, path), Find(Restored(covered), path).0, line, column, span);
  }
}
