/** The query that gives every folder the size of its subtree: it joins folders whose path array contains
    that of another one, and adds up the sizes of the files directly in them. */
module FolderSizes {
  import opened Bytes
  import opened FolderTree

  /** folder_hierarchy: every folder that is reachable from a root, with its path array. */
  function Hierarchy(t: Table): set<seq<Id>> {
    Recursive(Folders(t), Starts(Roots(Folders(t))), |Folders(t)|)
  }

  /** The rows directly in a folder that are not folders. */
  function FilesIn(t: Table, folder: Id): set<Id> {
    set c | c in t && !t[c].isFolder && t[c].parent == Some(folder)
  }

  ghost function SumSizes(t: Table, s: set<Id>): int
    requires s <= t.Keys
  {
    if s == {} then 0 else
      var c :| c in s;
      t[c].size + SumSizes(t, s - {c})
  }

  /** folder_sizes: what lies directly in a folder. */
  ghost function DirectSize(t: Table, folder: Id): int {
    SumSizes(t, FilesIn(t, folder))
  }

  ghost function SumDirect(t: Table, s: set<seq<Id>>): int
    requires [] !in s
  {
    if s == {} then 0 else
      var q :| q in s;
      DirectSize(t, Last(q)) + SumDirect(t, s - {q})
  }

  /** Array containment: every element of `p` occurs in `q`. */
  predicate Contains(q: seq<Id>, p: seq<Id>) {
    forall i | 0 <= i < |p| :: p[i] in q
  }

  /** The join of cumulative_sizes: the folders whose path contains the path `p`. */
  function Joined(t: Table, p: seq<Id>): set<seq<Id>> {
    set q | q in Hierarchy(t) && q != [] && Contains(q, p)
  }

  ghost function TotalSize(t: Table, p: seq<Id>): int {
    SumDirect(t, Joined(t, p))
  }

  /** The update: every folder of the hierarchy gets its total, all else stays. */
  ghost function UpdateSize(t: Table): Table {
    map id | id in t ::
      if exists p :: IsPathTo(t, p, id) then
        var p :| IsPathTo(t, p, id);
        t[id].(size := TotalSize(t, p))
      else t[id]
  }

  predicate IsPathTo(t: Table, p: seq<Id>, id: Id) {
    p in Hierarchy(t) && p != [] && Last(p) == id
  }

  /** The subtree of a folder: the files in it, and in the folders below it. */
  ghost predicate Below(t: Table, folder: Id, c: Id) {
    c in t && !t[c].isFolder && t[c].parent.Some? && exists d :: Down(t, folder, d, t[c].parent.value)
  }

  /** `d` leads from one folder down to another one, or stays where it is. */
  predicate Down(t: Table, from: Id, d: seq<Id>, to: Id) {
    IsPath(Folders(t), d) && d[0] == from && Last(d) == to
  }

  ghost function FilesBelow(t: Table, folder: Id): set<Id> {
    set c | c in t && Below(t, folder, c)
  }

  lemma {:induction false} SumSizesRemove(t: Table, s: set<Id>, c: Id)
    requires s <= t.Keys && c in s
    ensures SumSizes(t, s) == t[c].size + SumSizes(t, s - {c})
  {
    var x :| x in s && SumSizes(t, s) == t[x].size + SumSizes(t, s - {x});
    if x != c {
      SumSizesRemove(t, s - {x}, c);
      SumSizesRemove(t, s - {c}, x);
      assert s - {x} - {c} == s - {c} - {x};
    }
  }

  lemma {:induction false} SumSizesUnion(t: Table, a: set<Id>, b: set<Id>)
    requires a <= t.Keys && b <= t.Keys && a !! b
    ensures SumSizes(t, a + b) == SumSizes(t, a) + SumSizes(t, b)
  {
    if a == {} {
      assert a + b == b;
    } else {
      var c :| c in a;
      SumSizesUnion(t, a - {c}, b);
      SumSizesRemove(t, a, c);
      SumSizesRemove(t, a + b, c);
      assert a + b - {c} == (a - {c}) + b;
    }
  }

  /** The files in any of the given folders. */
  function FilesOfAll(t: Table, s: set<seq<Id>>): set<Id> {
    set c, q | q in s && q != [] && c in FilesIn(t, Last(q)) :: c
  }

  /** Adding up folder by folder is adding up file by file, when no folder is counted twice. */
  lemma {:induction false} SumDirectIsSumSizes(t: Table, s: set<seq<Id>>)
    requires [] !in s && forall p, q | p in s && q in s && Last(p) == Last(q) :: p == q
    ensures FilesOfAll(t, s) <= t.Keys && SumDirect(t, s) == SumSizes(t, FilesOfAll(t, s))
  {
    if s == {} {
      assert FilesOfAll(t, s) == {};
    } else {
      var q :| q in s && SumDirect(t, s) == DirectSize(t, Last(q)) + SumDirect(t, s - {q});
      var rest := s - {q};
      SumDirectIsSumSizes(t, rest);
      var here, there := FilesIn(t, Last(q)), FilesOfAll(t, rest);
      assert FilesOfAll(t, s) == here + there;
      assert here !! there;
      SumSizesUnion(t, here, there);
      assert SumDirect(t, rest) == SumSizes(t, there);
      assert DirectSize(t, Last(q)) == SumSizes(t, here);
      assert SumDirect(t, s) == DirectSize(t, Last(q)) + SumDirect(t, rest);
    }
  }

  lemma HierarchyIsPaths(t: Table, p: seq<Id>)
    requires Forest(t)
    ensures p in Hierarchy(t) <==> IsPath(Folders(t), p) && Folders(t)[p[0]].parent.None?
  {
    SubForest(t, Folders(t));
    QueryFindsPaths(Folders(t), Roots(Folders(t)), p);
  }

  /** The folders that the join selects for a path are those at and below its end. */
  lemma JoinedIsBelow(t: Table, p: seq<Id>, q: seq<Id>)
    requires Forest(t) && p in Hierarchy(t)
    ensures p != []
    ensures q in Joined(t, p) ==> q != [] && exists d :: Down(t, Last(p), d, Last(q))
  {
    HierarchyIsPaths(t, p);
    HierarchyIsPaths(t, q);
    if q in Joined(t, p) {
      assert p[|p| - 1] in q;
      var j :| 0 <= j < |q| && q[j] == Last(p);
      PathSuffix(Folders(t), q, j);
      assert Down(t, Last(p), q[j..], Last(q));
    }
  }

  lemma BelowIsJoined(t: Table, p: seq<Id>, d: seq<Id>, to: Id) returns (q: seq<Id>)
    requires Forest(t) && p in Hierarchy(t) && p != [] && Down(t, Last(p), d, to)
    ensures q in Joined(t, p) && q != [] && Last(q) == to
  {
    HierarchyIsPaths(t, p);
    q := p + d[1..];
    PathsJoin(Folders(t), p, d);
    HierarchyIsPaths(t, q);
    assert Contains(q, p);
  }

  lemma PathSuffix(v: Table, q: seq<Id>, j: nat)
    requires IsPath(v, q) && j < |q|
    ensures IsPath(v, q[j..]) && Last(q[j..]) == Last(q)
  {
    if j > 0 {
      assert IsStep(v, q[j - 1], q[j]);
    }
    forall i | 1 <= i < |q[j..]|
      ensures IsStep(v, q[j..][i - 1], q[j..][i])
    {
      assert IsStep(v, q[j + i - 1], q[j + i]);
    }
  }

  lemma PathsJoin(v: Table, p: seq<Id>, d: seq<Id>)
    requires IsPath(v, p) && IsPath(v, d) && Last(p) == d[0]
    ensures IsPath(v, p + d[1..]) && Last(p + d[1..]) == Last(d) && (p + d[1..])[0] == p[0]
  {
    var q := p + d[1..];
    forall i | 1 <= i < |q|
      ensures IsStep(v, q[i - 1], q[i])
    {
      if i < |p| {
        assert IsStep(v, p[i - 1], p[i]);
      } else {
        assert IsStep(v, d[i - |p|], d[i - |p| + 1]);
      }
    }
  }

  /** The total that the query computes for a folder is the sum of the sizes of all files in its subtree. */
  lemma TotalIsSubtreeSum(t: Table, p: seq<Id>)
    requires Forest(t) && p in Hierarchy(t)
    ensures p != [] && TotalSize(t, p) == SumSizes(t, FilesBelow(t, Last(p)))
  {
    var s := Joined(t, p);
    HierarchyIsPaths(t, p);
    forall q, q' | q in s && q' in s && Last(q) == Last(q')
      ensures q == q'
    {
      HierarchyIsPaths(t, q);
      HierarchyIsPaths(t, q');
      PathIsUnique(Folders(t), q, q');
    }
    SumDirectIsSumSizes(t, s);
    forall c
      ensures c in FilesOfAll(t, s) <==> c in FilesBelow(t, Last(p))
    {
      SameFiles(t, p, c);
    }
    assert FilesOfAll(t, s) == FilesBelow(t, Last(p));
  }

  lemma SameFiles(t: Table, p: seq<Id>, c: Id)
    requires Forest(t) && p in Hierarchy(t) && p != []
    ensures c in FilesOfAll(t, Joined(t, p)) <==> c in FilesBelow(t, Last(p))
  {
    if c in FilesOfAll(t, Joined(t, p)) {
      var q :| q in Joined(t, p) && q != [] && c in FilesIn(t, Last(q));
      JoinedIsBelow(t, p, q);
    }
    if c in FilesBelow(t, Last(p)) {
      var d :| Down(t, Last(p), d, t[c].parent.value);
      var q := BelowIsJoined(t, p, d, t[c].parent.value);
      assert c in FilesIn(t, Last(q));
    }
  }

  function Subfolders(t: Table, folder: Id): set<Id> {
    set f | f in t && t[f].isFolder && t[f].parent == Some(folder)
  }

  /** The sizes of the subtrees of several folders, added up. */
  ghost function SumBelow(t: Table, folders: set<Id>): int {
    if folders == {} then 0 else
      var f :| f in folders;
      SumSizes(t, FilesBelow(t, f)) + SumBelow(t, folders - {f})
  }

  ghost function FilesBelowAll(t: Table, folders: set<Id>): set<Id> {
    set c | c in t && exists f :: f in folders && Below(t, f, c)
  }

  /** On a forest two ways down to the same folder share their end. */
  lemma {:induction false} SameEnd(v: Table, p: seq<Id>, q: seq<Id>)
    requires IsPath(v, p) && IsPath(v, q) && Last(p) == Last(q) && |p| <= |q|
    ensures p == q[|q| - |p|..]
    decreases |p|
  {
    LastStep(v, p);
    LastStep(v, q);
    if |p| > 1 {
      var m, n := |p| - 1, |q| - 1;
      SameEnd(v, p[..m], q[..n]);
      assert p == p[..m] + [p[m]] && q[|q| - |p|..] == q[..n][n - m..] + [q[n]];
    }
  }

  /** No file lies below two different subfolders of a folder. */
  lemma SiblingsAreDisjoint(t: Table, folder: Id, f: Id, g: Id, c: Id)
    requires Forest(t) && f in Subfolders(t, folder) && g in Subfolders(t, folder) && Below(t, f, c) && Below(t, g, c)
    ensures f == g
  {
    var d :| Down(t, f, d, t[c].parent.value);
    var e :| Down(t, g, e, t[c].parent.value);
    if |d| <= |e| {
      OneStart(t, folder, d, e);
    } else {
      OneStart(t, folder, e, d);
    }
  }

  lemma OneStart(t: Table, folder: Id, d: seq<Id>, e: seq<Id>)
    requires Forest(t) && IsPath(Folders(t), d) && IsPath(Folders(t), e) && Last(d) == Last(e) && |d| <= |e|
    requires t[d[0]].parent == Some(folder) && t[e[0]].parent == Some(folder)
    ensures d[0] == e[0]
  {
    var v := Folders(t);
    SameEnd(v, d, e);
    var j := |e| - |d|;
    assert e[j] == d[0];
    if j > 0 {
      SubForest(t, v);
      var rank :| Ranked(v, rank);
      assert IsStep(v, e[j - 1], e[j]);
      if j > 1 {
        RankGrows(v, rank, e, 0, j - 1);
      }
    }
  }

  lemma {:induction false} SumBelowIsSumSizes(t: Table, folder: Id, folders: set<Id>)
    requires Forest(t) && folders <= Subfolders(t, folder)
    ensures SumBelow(t, folders) == SumSizes(t, FilesBelowAll(t, folders))
  {
    if folders == {} {
      assert FilesBelowAll(t, folders) == {};
    } else {
      var f :| f in folders && SumBelow(t, folders) == SumSizes(t, FilesBelow(t, f)) + SumBelow(t, folders - {f});
      var rest := folders - {f};
      SumBelowIsSumSizes(t, folder, rest);
      forall c | c in FilesBelow(t, f) && c in FilesBelowAll(t, rest)
        ensures false
      {
        var g :| g in rest && Below(t, g, c);
        SiblingsAreDisjoint(t, folder, f, g, c);
      }
      assert FilesBelowAll(t, folders) == FilesBelow(t, f) + FilesBelowAll(t, rest);
      SumSizesUnion(t, FilesBelow(t, f), FilesBelowAll(t, rest));
    }
  }

  /** A file below a folder is in it, or below one of its subfolders, and not both. */
  lemma BelowSplits(t: Table, folder: Id, c: Id)
    requires Forest(t) && folder in t && t[folder].isFolder
    ensures c in FilesBelow(t, folder) <==> c in FilesIn(t, folder) || c in FilesBelowAll(t, Subfolders(t, folder))
    ensures !(c in FilesIn(t, folder) && c in FilesBelowAll(t, Subfolders(t, folder)))
  {
    var v := Folders(t);
    if c in FilesIn(t, folder) {
      assert Down(t, folder, [folder], folder);
    }
    if c in FilesBelow(t, folder) && c !in FilesIn(t, folder) {
      var d :| Down(t, folder, d, t[c].parent.value);
      assert IsStep(v, d[0], d[1]);
      PathSuffix(v, d, 1);
      assert Down(t, d[1], d[1..], t[c].parent.value) && Below(t, d[1], c) && d[1] in Subfolders(t, folder);
    }
    if c in FilesBelowAll(t, Subfolders(t, folder)) {
      var f :| f in Subfolders(t, folder) && Below(t, f, c);
      var d :| Down(t, f, d, t[c].parent.value);
      assert IsPath(v, [folder]) && IsStep(v, folder, f);
      PathExtends(v, [folder], f);
      PathsJoin(v, [folder] + [f], d);
      var e := [folder] + [f] + d[1..];
      assert Down(t, folder, e, t[c].parent.value);
      if c in FilesIn(t, folder) {
        SubForest(t, v);
        var rank :| Ranked(v, rank);
        RankGrows(v, rank, e, 0, |e| - 1);
        assert false;
      }
    }
  }

  /** The totals satisfy the recursive definition of a folder's size: what lies directly in it plus the
      totals of its subfolders. */
  lemma TotalIsRecursive(t: Table, p: seq<Id>)
    requires Forest(t) && p in Hierarchy(t)
    ensures p != []
    ensures TotalSize(t, p) == DirectSize(t, Last(p)) + SumBelow(t, Subfolders(t, Last(p)))
    ensures forall f | f in Subfolders(t, Last(p)) ::
              p + [f] in Hierarchy(t) && TotalSize(t, p + [f]) == SumSizes(t, FilesBelow(t, f))
  {
    HierarchyIsPaths(t, p);
    var v, folder := Folders(t), Last(p);
    TotalIsSubtreeSum(t, p);
    LastStep(v, p);
    SumBelowIsSumSizes(t, folder, Subfolders(t, folder));
    forall c
      ensures c in FilesBelow(t, folder) <==> c in FilesIn(t, folder) + FilesBelowAll(t, Subfolders(t, folder))
      ensures !(c in FilesIn(t, folder) && c in FilesBelowAll(t, Subfolders(t, folder)))
    {
      BelowSplits(t, folder, c);
    }
    assert FilesBelow(t, folder) == FilesIn(t, folder) + FilesBelowAll(t, Subfolders(t, folder));
    SumSizesUnion(t, FilesIn(t, folder), FilesBelowAll(t, Subfolders(t, folder)));
    forall f | f in Subfolders(t, folder)
      ensures p + [f] in Hierarchy(t) && TotalSize(t, p + [f]) == SumSizes(t, FilesBelow(t, f))
    {
      PathExtends(v, p, f);
      HierarchyIsPaths(t, p + [f]);
      TotalIsSubtreeSum(t, p + [f]);
    }
  }

  /** update_size: a folder that has a root above it gets the sum over its subtree, all other rows and all
      other columns stay as they are. */
  lemma UpdateSizeIsRight(t: Table, id: Id)
    requires Forest(t) && id in t
    ensures id in UpdateSize(t)
    ensures var reachable := exists p :: IsPath(Folders(t), p) && Folders(t)[p[0]].parent.None? && Last(p) == id;
            UpdateSize(t)[id] == if reachable then t[id].(size := SumSizes(t, FilesBelow(t, id))) else t[id]
    ensures !t[id].isFolder ==> UpdateSize(t)[id] == t[id]
  {
    if exists p :: IsPathTo(t, p, id) {
      var p :| IsPathTo(t, p, id) && UpdateSize(t)[id] == t[id].(size := TotalSize(t, p));
      HierarchyIsPaths(t, p);
      TotalIsSubtreeSum(t, p);
      LastStep(Folders(t), p);
    } else {
      forall p | IsPath(Folders(t), p) && Folders(t)[p[0]].parent.None? && Last(p) == id
        ensures false
      {
        HierarchyIsPaths(t, p);
        assert IsPathTo(t, p, id);
      }
      if t[id].parent.None? && t[id].isFolder {
        assert IsPath(Folders(t), [id]);
      }
    }
  }

  /** The same tree of rows; only the sizes of folders may differ. */
  ghost predicate SameTree(t: Table, t': Table) {
    t.Keys == t'.Keys && forall id | id in t :: t'[id] == t[id].(size := t'[id].size) && (!t[id].isFolder ==> t'[id] == t[id])
  }

  lemma SameTreeSamePaths(t: Table, t': Table, p: seq<Id>)
    requires SameTree(t, t')
    ensures IsPath(Folders(t), p) <==> IsPath(Folders(t'), p)
    ensures IsPath(Folders(t), p) ==> Folders(t)[p[0]].parent == Folders(t')[p[0]].parent
  {
    assert forall a, b :: IsStep(Folders(t), a, b) <==> IsStep(Folders(t'), a, b);
  }

  lemma SameTreeSameFiles(t: Table, t': Table, folder: Id, c: Id)
    requires SameTree(t, t')
    ensures c in FilesBelow(t, folder) <==> c in FilesBelow(t', folder)
  {
    if c in FilesBelow(t, folder) {
      var d :| Down(t, folder, d, t[c].parent.value);
      SameTreeSamePaths(t, t', d);
      assert Down(t', folder, d, t'[c].parent.value);
    }
    if c in FilesBelow(t', folder) {
      var d :| Down(t', folder, d, t'[c].parent.value);
      SameTreeSamePaths(t, t', d);
      assert Down(t, folder, d, t[c].parent.value);
    }
  }

  lemma {:induction false} SameSizesSameSum(t: Table, t': Table, s: set<Id>)
    requires s <= t.Keys && s <= t'.Keys && forall c | c in s :: t[c].size == t'[c].size
    ensures SumSizes(t, s) == SumSizes(t', s)
  {
    if s != {} {
      var c :| c in s;
      SumSizesRemove(t, s, c);
      SumSizesRemove(t', s, c);
      SameSizesSameSum(t, t', s - {c});
    }
  }

  /** The sizes that folders had before do not matter: updating twice is updating once. */
  lemma UpdateTwice(t: Table)
    requires Forest(t)
    ensures UpdateSize(UpdateSize(t)) == UpdateSize(t)
  {
    var t' := UpdateSize(t);
    forall id | id in t
      ensures t'[id] == t[id].(size := t'[id].size) && (!t[id].isFolder ==> t'[id] == t[id])
    {
      UpdateSizeIsRight(t, id);
    }
    assert SameTree(t, t');
    var rank :| Ranked(t, rank);
    assert Ranked(t', rank);
    forall id | id in t'
      ensures UpdateSize(t')[id] == t'[id]
    {
      UpdateSizeIsRight(t, id);
      UpdateSizeIsRight(t', id);
      forall p
        ensures (IsPath(Folders(t), p) && Folders(t)[p[0]].parent.None?) <==> (IsPath(Folders(t'), p) && Folders(t')[p[0]].parent.None?)
      {
        SameTreeSamePaths(t, t', p);
      }
      forall c
        ensures c in FilesBelow(t, id) <==> c in FilesBelow(t', id)
      {
        SameTreeSameFiles(t, t', id, c);
      }
      assert FilesBelow(t, id) == FilesBelow(t', id);
      SameSizesSameSum(t, t', FilesBelow(t, id));
    }
  }
}
