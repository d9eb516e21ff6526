/** Paths of folders: computing the path of a row, looking a path up, creating the folders of a path. */
module FolderPaths {
  import opened Bytes
  import opened FolderTree

  const UNIQUE_VIOLATION := Failure(5)

  /** path_hierarchy: from a row up to its root, putting the parents' names in front. No root, no result. */
  function Climb(t: Table, id: Id, segment: string, rounds: nat): Option<string>
    requires id in t
    decreases rounds
  {
    match t[id].parent
    case None => Some(segment)
    case Some(p) => if p !in t || rounds == 0 then None else Climb(t, p, t[p].name + "/" + segment, rounds - 1)
  }

  /** The position of the first slash, or the length when there is none. */
  function FirstSlash(s: string): (i: nat)
    ensures i <= |s|
    ensures '/' !in s[..i] && (i < |s| ==> s[i] == '/')
  {
    if s == "" || s[0] == '/' then 0 else 1 + FirstSlash(s[1..])
  }

  function Trimmed(full: string): string {
    var i := FirstSlash(full);
    if i < |full| then full[i + 1..] else full
  }

  /** get_path_from_file_id */
  function GetPath(t: Table, id: Id): Option<string> {
    if id !in t then None else
      match Climb(t, id, t[id].name, |t|)
      case None => None
      case Some(full) => Some("/" + Trimmed(full))
  }

  function Name(v: Table, id: Id): string {
    if id in v then v[id].name else ""
  }

  /** The path string that dir_hierarchy builds along a path: empty for a root. */
  function DirPath(v: Table, p: seq<Id>): string {
    if |p| <= 1 then "" else DirPath(v, p[..|p| - 1]) + "/" + Name(v, Last(p))
  }

  /** dir_hierarchy: the folders of a user below that user's roots. */
  function UserFolders(t: Table, user: User): set<seq<Id>> {
    var v := FoldersOf(t, user);
    Recursive(v, Starts(Roots(v)), |v|)
  }

  /** get_file_from_path: of the folders with that path, one of the deepest. */
  ghost predicate Finds(t: Table, user: User, fullPath: string, r: Option<Id>) {
    var path := if fullPath == "/" then "" else fullPath;
    match r
    case None => forall p :: !HasPath(t, user, p, path)
    case Some(id) => exists p :: HasPath(t, user, p, path) && Last(p) == id && forall q | HasPath(t, user, q, path) :: |q| <= |p|
  }

  predicate HasPath(t: Table, user: User, p: seq<Id>, path: string) {
    var v := FoldersOf(t, user);
    p in UserFolders(t, user) && p != [] && DirPath(v, p) == path
  }

  /** Folders form a forest, the user has at most one root, siblings differ in name, no name has a slash. */
  ghost predicate WellFormed(t: Table, user: User) {
    var v := FoldersOf(t, user);
    && Forest(t)
    && (forall r, s | r in Roots(v) && s in Roots(v) :: r == s)
    && (forall a, b | a in v && b in v && v[a].parent == v[b].parent && v[a].name == v[b].name :: a == b)
    && (forall a | a in v :: '/' !in v[a].name)
  }

  lemma UserFoldersArePaths(t: Table, user: User, p: seq<Id>)
    requires Forest(t)
    ensures p in UserFolders(t, user) <==> IsPath(FoldersOf(t, user), p) && FoldersOf(t, user)[p[0]].parent.None?
    ensures p in UserFolders(t, user) ==> forall i | 0 <= i < |p| :: p[i] in FoldersOf(t, user)
  {
    var v := FoldersOf(t, user);
    SubForest(t, v);
    QueryFindsPaths(v, Roots(v), p);
    if p in UserFolders(t, user) {
      var rank :| Ranked(v, rank);
      PathIsDistinct(v, rank, p);
    }
  }

  lemma ShorterHasSlash(a: string, x: string, b: string, y: string)
    requires a + "/" + x == b + "/" + y
    ensures |x| < |y| ==> '/' in y
  {
    if |x| < |y| {
      assert (a + "/" + x)[|a|] == '/' && (b + "/" + y)[|a|] == y[|a| - |b| - 1];
    }
  }

  /** Everything behind the last slash, and everything in front of it. */
  lemma LastSlashSplits(a: string, x: string, b: string, y: string)
    requires a + "/" + x == b + "/" + y && '/' !in x && '/' !in y
    ensures a == b && x == y
  {
    ShorterHasSlash(a, x, b, y);
    ShorterHasSlash(b, y, a, x);
    var s := a + "/" + x;
    assert a == s[..|a|] && b == (b + "/" + y)[..|b|];
    assert x == s[|a| + 1..] && y == (b + "/" + y)[|b| + 1..];
  }

  /** Different folders of a user have different paths. */
  lemma {:induction false} PathsDiffer(t: Table, user: User, p: seq<Id>, q: seq<Id>, path: string)
    requires WellFormed(t, user) && HasPath(t, user, p, path) && HasPath(t, user, q, path)
    ensures p == q
    decreases |p|
  {
    var v := FoldersOf(t, user);
    UserFoldersArePaths(t, user, p);
    UserFoldersArePaths(t, user, q);
    if |p| == 1 || |q| == 1 {
      assert p == [p[0]] && q == [q[0]];
      assert p[0] in Roots(v) && q[0] in Roots(v);
    } else {
      var m, n := |p| - 1, |q| - 1;
      LastSlashSplits(DirPath(v, p[..m]), v[p[m]].name, DirPath(v, q[..n]), v[q[n]].name);
      ParentPath(t, user, p);
      ParentPath(t, user, q);
      PathsDiffer(t, user, p[..m], q[..n], DirPath(v, p[..m]));
      assert p[m - 1] == Last(p[..m]) == Last(q[..n]) == q[n - 1];
      assert p == p[..m] + [p[m]] && q == q[..n] + [q[n]];
    }
  }

  lemma ParentPath(t: Table, user: User, p: seq<Id>)
    requires Forest(t) && p in UserFolders(t, user) && |p| > 1
    ensures forall i | 0 <= i < |p| :: p[i] in FoldersOf(t, user)
    ensures var parent := p[..|p| - 1];
            && HasPath(t, user, parent, DirPath(FoldersOf(t, user), parent))
            && FoldersOf(t, user)[Last(p)].parent == Some(Last(parent))
  {
    UserFoldersArePaths(t, user, p);
    UserFoldersArePaths(t, user, p[..|p| - 1]);
    LastStep(FoldersOf(t, user), p);
  }

  /** A lookup has one answer. */
  lemma LookupIsUnique(t: Table, user: User, path: string, r: Option<Id>, s: Option<Id>)
    requires WellFormed(t, user) && Finds(t, user, path, r) && Finds(t, user, path, s)
    ensures r == s
  {
    var wanted := if path == "/" then "" else path;
    if r.Some? && s.Some? {
      var p :| HasPath(t, user, p, wanted) && Last(p) == r.value;
      var q :| HasPath(t, user, q, wanted) && Last(q) == s.value;
      PathsDiffer(t, user, p, q, wanted);
    }
  }

  lemma HasPathIsFound(t: Table, user: User, p: seq<Id>, path: string)
    requires WellFormed(t, user) && HasPath(t, user, p, path) && path != "/"
    ensures Finds(t, user, path, Some(Last(p)))
  {
    forall q | HasPath(t, user, q, path)
      ensures |q| <= |p|
    {
      PathsDiffer(t, user, p, q, path);
    }
  }

  /** The root's name, followed by the path. */
  function FullPath(v: Table, p: seq<Id>): string
    requires p != []
  {
    Name(v, p[0]) + DirPath(v, p)
  }

  /** What is left to climb adds to the segment. */
  lemma SegmentGrows(v: Table, q: seq<Id>, segment: string)
    requires q != []
    ensures (if |q| == 1 then "" else FullPath(v, q[..|q| - 1]) + "/") + (Name(v, Last(q)) + "/" + segment)
            == FullPath(v, q) + "/" + segment
  {
    if |q| == 1 {
      assert FullPath(v, q) == Name(v, q[0]) + "" == Name(v, q[0]);
      assert "" + (Name(v, Last(q)) + "/" + segment) == Name(v, Last(q)) + "/" + segment;
    } else {
      FullPathEnds(v, q);
      hide *;
      var front, name := FullPath(v, q[..|q| - 1]), Name(v, Last(q));
      assert (front + "/") + (name + "/" + segment) == (front + "/" + name) + "/" + segment;
    }
  }

  /** Climbing from the end of a path puts the names above in front of the segment. */
  lemma {:induction false} ClimbCollects(t: Table, user: User, p: seq<Id>, segment: string, rounds: nat)
    requires Forest(t) && p in UserFolders(t, user) && rounds + 1 >= |p|
    ensures p != [] && Last(p) in t
    ensures var above := if |p| == 1 then "" else FullPath(FoldersOf(t, user), p[..|p| - 1]) + "/";
            Climb(t, Last(p), segment, rounds) == Some(above + segment)
    decreases |p|
  {
    var v := FoldersOf(t, user);
    UserFoldersArePaths(t, user, p);
    LastStep(v, p);
    if |p| == 1 {
      assert "" + segment == segment;
    } else {
      var q := p[..|p| - 1];
      ParentPath(t, user, p);
      assert t[Last(q)].name == Name(v, Last(q));
      ClimbCollects(t, user, q, t[Last(q)].name + "/" + segment, rounds - 1);
      SegmentGrows(v, q, segment);
    }
  }

  lemma {:induction false} FirstSlashBehind(root: string, rest: string)
    requires '/' !in root && (rest == "" || rest[0] == '/')
    ensures FirstSlash(root + rest) == |root|
  {
    if root == "" {
      assert root + rest == rest;
    } else {
      assert (root + rest)[1..] == root[1..] + rest;
      FirstSlashBehind(root[1..], rest);
    }
  }

  lemma TrimmedAfterRoot(root: string, rest: string)
    requires '/' !in root && (rest == "" || rest[0] == '/')
    ensures "/" + Trimmed(root + rest) == if rest == "" then "/" + root else rest
  {
    var full := root + rest;
    FirstSlashBehind(root, rest);
    if rest == "" {
      assert full == root;
    } else {
      assert full[|root| + 1..] == rest[1..];
    }
  }

  lemma {:induction false} DirPathStartsWithSlash(v: Table, p: seq<Id>)
    ensures if |p| <= 1 then DirPath(v, p) == "" else DirPath(v, p) != "" && DirPath(v, p)[0] == '/'
  {
    if |p| > 1 {
      DirPathStartsWithSlash(v, p[..|p| - 1]);
    }
  }

  /** The path computed for a folder is the one that the lookup builds for it; a root is given its own name. */
  lemma GetPathIsDirPath(t: Table, user: User, p: seq<Id>)
    requires WellFormed(t, user) && p in UserFolders(t, user)
    ensures p != [] && forall i | 0 <= i < |p| :: p[i] in FoldersOf(t, user)
    ensures GetPath(t, Last(p)) == Some(if |p| == 1 then "/" + t[p[0]].name else DirPath(FoldersOf(t, user), p))
  {
    var v := FoldersOf(t, user);
    UserFoldersArePaths(t, user, p);
    RoundsSuffice(t, user, p);
    LastStep(v, p);
    assert t[Last(p)].name == Name(v, Last(p)) && '/' !in Name(v, p[0]) && t[p[0]].name == Name(v, p[0]);
    ClimbCollects(t, user, p, t[Last(p)].name, |t|);
    DirPathStartsWithSlash(v, p);
    FullPathEnds(v, p);
    hide *;
    TrimmedAfterRoot(Name(v, p[0]), DirPath(v, p));
    FullPathIs(v, p);
    ClimbsTo(t, Last(p), FullPath(v, p));
  }

  /** The path computed for anything in a folder, a file or a folder, is the path of that folder and its own name. */
  lemma GetPathInFolder(t: Table, user: User, p: seq<Id>, c: Id)
    requires WellFormed(t, user) && p in UserFolders(t, user) && p != [] && c in t && t[c].parent == Some(Last(p))
    ensures GetPath(t, c) == Some(DirPath(FoldersOf(t, user), p) + "/" + t[c].name)
  {
    var v, name := FoldersOf(t, user), t[c].name;
    UserFoldersArePaths(t, user, p);
    RoundsSuffice(t, user, p);
    LastStep(v, p);
    assert Last(p) in t && t[Last(p)].name == Name(v, Last(p)) && '/' !in Name(v, p[0]);
    ClimbCollects(t, user, p, t[Last(p)].name + "/" + name, |t| - 1);
    ClimbOnce(t, c, Last(p));
    SegmentGrows(v, p, name);
    DirPathStartsWithSlash(v, p);
    hide *;
    var rest := DirPath(v, p) + "/" + name;
    SlashFirst(DirPath(v, p), name);
    TrimmedAfterRoot(Name(v, p[0]), rest);
    FullPathIs(v, p);
    Reassociate(Name(v, p[0]), DirPath(v, p), name);
    ClimbsTo(t, c, Name(v, p[0]) + rest);
  }

  lemma ClimbOnce(t: Table, c: Id, parent: Id)
    requires c in t && parent in t && t[c].parent == Some(parent) && |t| > 0
    ensures Climb(t, c, t[c].name, |t|) == Climb(t, parent, t[parent].name + "/" + t[c].name, |t| - 1)
  {
  }

  lemma SlashFirst(a: string, b: string)
    requires a == "" || a[0] == '/'
    ensures a + "/" + b != "" && (a + "/" + b)[0] == '/'
  {
  }

  lemma {:induction false} ClimbEnds(t: Table, id: Id, segment: string, rounds: nat)
    requires id in t
    ensures Climb(t, id, segment, rounds).Some? ==> exists q :: IsPath(t, q) && t[q[0]].parent.None? && Last(q) == id
    decreases rounds
  {
    if Climb(t, id, segment, rounds).Some? {
      match t[id].parent
      case None =>
        assert IsPath(t, [id]) && Last([id]) == id;
      case Some(p) =>
        ClimbEnds(t, p, t[p].name + "/" + segment, rounds - 1);
        var q :| IsPath(t, q) && t[q[0]].parent.None? && Last(q) == p;
        PathExtends(t, q, id);
        assert (q + [id])[0] == q[0];
    }
  }

  lemma {:induction false} PathIsClimbed(t: Table, q: seq<Id>, segment: string, rounds: nat)
    requires IsPath(t, q) && t[q[0]].parent.None? && |q| <= rounds + 1
    ensures Last(q) in t && Climb(t, Last(q), segment, rounds).Some?
    decreases |q|
  {
    LastStep(t, q);
    if |q| > 1 {
      var front := q[..|q| - 1];
      LastStep(t, front);
      PathIsClimbed(t, front, t[Last(front)].name + "/" + segment, rounds - 1);
    }
  }

  /** A path is computed exactly for the rows below a root, through rows of any kind. */
  lemma HasPathIfRooted(t: Table, id: Id)
    requires Forest(t)
    ensures GetPath(t, id).Some? <==> exists q :: IsPath(t, q) && t[q[0]].parent.None? && Last(q) == id
  {
    if id in t {
      ClimbEnds(t, id, t[id].name, |t|);
    }
    if q :| IsPath(t, q) && t[q[0]].parent.None? && Last(q) == id {
      PathsAreShort(t, q);
      LastStep(t, q);
      PathIsClimbed(t, q, t[id].name, |t|);
    }
  }

  lemma ClimbsTo(t: Table, id: Id, full: string)
    requires id in t && Climb(t, id, t[id].name, |t|) == Some(full)
    ensures GetPath(t, id) == Some("/" + Trimmed(full))
  {
  }

  lemma FullPathIs(v: Table, p: seq<Id>)
    requires p != []
    ensures FullPath(v, p) == Name(v, p[0]) + DirPath(v, p) && (|p| == 1 ==> DirPath(v, p) == "")
  {
  }

  lemma FullPathEnds(v: Table, p: seq<Id>)
    requires p != []
    ensures FullPath(v, p) == (if |p| == 1 then "" else FullPath(v, p[..|p| - 1]) + "/") + Name(v, Last(p))
  {
    if |p| == 1 {
      assert Name(v, p[0]) + "" == "" + Name(v, p[0]);
    } else {
      DirPathEnds(v, p);
      FullPathIs(v, p[..|p| - 1]);
      FullPathIs(v, p);
      hide *;
      Reassociate(Name(v, p[0]), DirPath(v, p[..|p| - 1]), Name(v, Last(p)));
    }
  }

  lemma DirPathEnds(v: Table, p: seq<Id>)
    requires |p| > 1
    ensures DirPath(v, p) == DirPath(v, p[..|p| - 1]) + "/" + Name(v, Last(p))
  {
  }

  lemma Reassociate(a: string, b: string, c: string)
    ensures a + (b + "/" + c) == a + b + "/" + c
  {
  }

  lemma RoundsSuffice(t: Table, user: User, p: seq<Id>)
    requires Forest(t) && IsPath(FoldersOf(t, user), p)
    ensures |p| <= |t|
  {
    var v := FoldersOf(t, user);
    SubForest(t, v);
    PathsAreShort(v, p);
    SubTableIsSmaller(t, v);
  }

  lemma SubTableIsSmaller(t: Table, v: Table)
    requires v.Keys <= t.Keys
    ensures |v| <= |t|
  {
    SubsetIsSmaller(v.Keys, t.Keys);
  }

  lemma {:induction false} SubsetIsSmaller(a: set<Id>, b: set<Id>)
    requires a <= b
    ensures |a| <= |b|
  {
    if a != {} {
      var x :| x in a;
      SubsetIsSmaller(a - {x}, b - {x});
    }
  }

  /** The folders whose path leads back to them: all but roots with a name, and nameless folders directly in a root. */
  predicate CanRoundTrip(t: Table, id: Id)
    requires id in t
  {
    match t[id].parent
    case None => t[id].name == ""
    case Some(p) => t[id].name != "" || (p in t && t[p].parent.Some?)
  }

  /** Looking up the path computed for a folder finds that folder, exactly for the folders that can round-trip. */
  lemma PathRoundTrip(t: Table, user: User, p: seq<Id>)
    requires WellFormed(t, user) && p in UserFolders(t, user)
    ensures p != [] && Last(p) in t && GetPath(t, Last(p)).Some?
    ensures Finds(t, user, GetPath(t, Last(p)).value, Some(Last(p))) <==> CanRoundTrip(t, Last(p))
  {
    var v := FoldersOf(t, user);
    UserFoldersArePaths(t, user, p);
    GetPathIsDirPath(t, user, p);
    LastStep(v, p);
    var path := GetPath(t, Last(p)).value;
    var wanted := if path == "/" then "" else path;
    DirPathStartsWithSlash(v, p);
    if |p| == 1 {
      if t[p[0]].name == "" {
        RootIsFound(t, user, p);
      } else {
        assert path != "/" by {
          assert |path| == 1 + |t[p[0]].name|;
        }
        NotFoundElsewhere(t, user, p, wanted);
      }
    } else {
      DirPathStartsWithSlash(v, p[..|p| - 1]);
      ParentPath(t, user, p);
      SlashOnly(DirPath(v, p[..|p| - 1]), v[Last(p)].name);
      UserFoldersArePaths(t, user, p[..|p| - 1]);
      if path == "/" {
        NotFoundElsewhere(t, user, p, "");
      } else {
        HasPathIsFound(t, user, p, path);
      }
      LastStep(v, p[..|p| - 1]);
    }
  }

  lemma SlashOnly(a: string, x: string)
    ensures a + "/" + x == "/" <==> a == "" && x == ""
  {
    assert |a + "/" + x| == |a| + 1 + |x|;
  }

  lemma RootIsFound(t: Table, user: User, p: seq<Id>)
    requires WellFormed(t, user) && p in UserFolders(t, user) && |p| == 1
    ensures Finds(t, user, "/", Some(p[0]))
  {
    UserFoldersArePaths(t, user, p);
    assert HasPath(t, user, p, "");
    forall q | HasPath(t, user, q, "")
      ensures |q| <= |p|
    {
      PathsDiffer(t, user, p, q, "");
    }
  }

  /** A lookup of another path does not find the folder. */
  lemma NotFoundElsewhere(t: Table, user: User, p: seq<Id>, path: string)
    requires WellFormed(t, user) && p in UserFolders(t, user) && p != []
    requires DirPath(FoldersOf(t, user), p) != path
    ensures forall q | HasPath(t, user, q, path) :: Last(q) != Last(p)
  {
    forall q | HasPath(t, user, q, path)
      ensures Last(q) != Last(p)
    {
      if Last(q) == Last(p) {
        UserFoldersArePaths(t, user, p);
        UserFoldersArePaths(t, user, q);
        PathIsUnique(FoldersOf(t, user), p, q);
        assert false;
      }
    }
  }

  const ONE_ROOT: Table := map[0 := Row("root", true, None, 1, 0, false)]

  lemma OneRootIsWellFormed()
    ensures WellFormed(ONE_ROOT, 1) && FoldersOf(ONE_ROOT, 1) == ONE_ROOT && [0] in UserFolders(ONE_ROOT, 1)
  {
    hide UserFolders, Recursive;
    assert Ranked(ONE_ROOT, map[0 := 0]);
    assert FoldersOf(ONE_ROOT, 1) == ONE_ROOT && '/' !in "root";
    hide FoldersOf;
    UserFoldersArePaths(ONE_ROOT, 1, [0]);
  }

  lemma OneRootHasOnePath(p: seq<Id>)
    ensures !HasPath(ONE_ROOT, 1, p, "/root")
  {
    OneRootIsWellFormed();
    UserFoldersArePaths(ONE_ROOT, 1, p);
    if p in UserFolders(ONE_ROOT, 1) {
      hide WellFormed, Forest, UserFolders;
      LastStep(ONE_ROOT, p);
      assert ONE_ROOT[Last(p)].parent.None?;
    }
  }

  /** A table with one root, named "root": its computed path is "/root", which no lookup finds; "/" finds it. */
  lemma NamedRootIsNotFound()
    ensures WellFormed(ONE_ROOT, 1) && GetPath(ONE_ROOT, 0) == Some("/root")
    ensures Finds(ONE_ROOT, 1, "/root", None) && Finds(ONE_ROOT, 1, "/", Some(0))
  {
    OneRootIsWellFormed();
    hide WellFormed, Forest, UserFolders, GetPath, HasPath;
    GetPathIsDirPath(ONE_ROOT, 1, [0]);
    assert "/" + "root" == "/root";
    RootIsFound(ONE_ROOT, 1, [0]);
    forall p
      ensures !HasPath(ONE_ROOT, 1, p, "/root")
    {
      OneRootHasOnePath(p);
    }
  }
}
