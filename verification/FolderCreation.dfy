/** create_directories: walks down a path and inserts the folders that are missing. */
module FolderCreation {
  import opened Bytes
  import opened FolderTree
  import opened FolderPaths

  /** Leading slashes do not count. */
  function Stripped(s: string): string {
    if s != "" && s[0] == '/' then Stripped(s[1..]) else s
  }

  /** The pieces between slashes; pieces may be empty. */
  function Pieces(s: string): seq<string>
    decreases |s|
  {
    var i := FirstSlash(s);
    if i == |s| then [s] else [s[..i]] + Pieces(s[i + 1..])
  }

  /** string_to_array gives no pieces at all for the empty string. */
  function PathParts(longPath: string): seq<string> {
    var s := Stripped(longPath);
    if s == "" then [] else Pieces(s)
  }

  function Joined(parts: seq<string>): string {
    if parts == [] then "" else Joined(parts[..|parts| - 1]) + "/" + parts[|parts| - 1]
  }

  lemma {:induction false} JoinedFront(first: string, parts: seq<string>)
    ensures Joined([first] + parts) == "/" + first + Joined(parts)
    decreases |parts|
  {
    var all := [first] + parts;
    if parts == [] {
      assert all[..0] == [];
      assert "" + "/" + first == "/" + first + "";
    } else {
      var n := |parts| - 1;
      assert all[..|all| - 1] == [first] + parts[..n];
      JoinedFront(first, parts[..n]);
      Reassociate("/" + first, Joined(parts[..n]), parts[n]);
    }
  }

  /** Joining the pieces gives the string back. */
  lemma {:induction false} PiecesJoin(s: string)
    ensures Joined(Pieces(s)) == "/" + s && Pieces(s) != []
    decreases |s|
  {
    var i := FirstSlash(s);
    if i == |s| {
      JoinedFront(s, []);
      assert Pieces(s) == [s] + [];
      assert "/" + s + "" == "/" + s;
    } else {
      var first, rest := s[..i], s[i + 1..];
      assert s == first + "/" + rest;
      PiecesJoin(rest);
      assert Pieces(s) == [first] + Pieces(rest);
      hide *;
      JoinedFront(first, Pieces(rest));
      SlashInFront(first, rest);
    }
  }

  predicate NoSlashes(parts: seq<string>) {
    forall k | 0 <= k < |parts| :: '/' !in parts[k]
  }

  lemma {:induction false} PiecesHaveNoSlash(s: string)
    ensures NoSlashes(Pieces(s))
    decreases |s|
  {
    hide FirstSlash;
    var i := FirstSlash(s);
    if i == |s| {
      assert s[..i] == s;
    } else {
      var first, rest := s[..i], Pieces(s[i + 1..]);
      PiecesHaveNoSlash(s[i + 1..]);
      assert Pieces(s) == [first] + rest;
      hide Pieces;
      assert NoSlashes([first] + rest);
    }
  }

  lemma SlashInFront(a: string, b: string)
    ensures "/" + a + ("/" + b) == "/" + (a + "/" + b)
  {
  }

  /** The parts of a path spell it with exactly one slash in front; the path is never a slash alone. */
  lemma PartsSpellPath(longPath: string)
    ensures Joined(PathParts(longPath)) == if Stripped(longPath) == "" then "" else "/" + Stripped(longPath)
    ensures Joined(PathParts(longPath)) != "/"
    ensures NoSlashes(PathParts(longPath))
  {
    var s := Stripped(longPath);
    PiecesJoin(s);
    PiecesHaveNoSlash(s);
    assert |"/" + s| == 1 + |s|;
  }

  lemma {:induction false} StripsAllSlashes(n: nat, rest: string)
    requires rest == "" || rest[0] != '/'
    ensures Stripped(seq(n, _ => '/') + rest) == rest
  {
    var s := seq(n, _ => '/') + rest;
    if n == 0 {
      assert s == rest;
    } else {
      assert s[1..] == seq(n - 1, _ => '/') + rest;
      StripsAllSlashes(n - 1, rest);
    }
  }

  /** However many slashes a path begins with, its parts spell it with one. */
  lemma LeadingSlashes(n: nat, rest: string)
    requires rest == "" || rest[0] != '/'
    ensures Joined(PathParts(seq(n, _ => '/') + rest)) == if rest == "" then "" else "/" + rest
  {
    StripsAllSlashes(n, rest);
    hide Stripped;
    PartsSpellPath(seq(n, _ => '/') + rest);
  }

  /** The rows among which the walk looks for the next folder: it does not ask for the type. */
  function Candidates(t: Table, user: User, parent: Option<Id>, name: string): set<Id> {
    if parent.None? then {} else set c | c in t && t[c].parent == parent && t[c].name == name && t[c].user == user
  }

  /** The unique index: active rows of a user in one place differ in name. */
  predicate Clashes(t: Table, user: User, parent: Option<Id>, name: string) {
    exists c :: c in t && !t[c].pending && t[c].parent == parent && t[c].name == name && t[c].user == user
  }

  method Insert(t: Table, user: User, parent: Option<Id>, name: string) returns (r: Result<(Table, Id)>)
    ensures r.Err? <==> Clashes(t, user, parent, name)
    ensures r.Err? ==> r.error == UNIQUE_VIOLATION
    ensures r.Ok? ==>
      && r.value.1 !in t && r.value.0 == t[r.value.1 := Row(name, true, parent, user, 0, false)]
      && IsUnused(t, r.value.1)
  {
    if Clashes(t, user, parent, name) {
      return Err(UNIQUE_VIOLATION);
    }
    var id: nat := NewId(t);
    r := Ok((t[id := Row(name, true, parent, user, 0, false)], id));
  }

  /** No row has this id, and none refers to it. */
  predicate IsUnused(t: Table, id: Id) {
    id !in t && forall c | c in t :: t[c].parent != Some(id)
  }

  method NewId(t: Table) returns (id: Id)
    ensures IsUnused(t, id)
  {
    id := 0;
    var rest := t.Keys;
    while rest != {}
      invariant rest <= t.Keys
      invariant forall c | c in t && c !in rest :: c < id && (t[c].parent.Some? ==> t[c].parent.value < id)
      decreases |rest|
    {
      var c :| c in rest;
      rest := rest - {c};
      id := Max(id, Max(c + 1, if t[c].parent.Some? then t[c].parent.value + 1 else 0));
    }
  }

  /** `t'` has the rows of `t`, and new folders of the user. */
  predicate Grows(t: Table, t': Table, user: User) {
    && (forall id | id in t :: id in t' && t'[id] == t[id])
    && (forall id | id in t' && id !in t :: t'[id].isFolder && t'[id].user == user && !t'[id].pending)
  }

  /** No row that is not a folder sits where the path needs a folder. */
  ghost predicate Unobstructed(t: Table, user: User, parts: seq<string>) {
    forall c, p, i: nat :: !Blocks(t, user, parts, c, p, i)
  }

  /** Row `c` is none: it sits behind the folders `p`, where part `i` of the path belongs. */
  ghost predicate Blocks(t: Table, user: User, parts: seq<string>, c: Id, p: seq<Id>, i: nat) {
    && i < |parts| && c in t && !t[c].isFolder && t[c].user == user && HasPath(t, user, p, Joined(parts[..i]))
    && t[c].parent == Some(Last(p)) && t[c].name == parts[i]
  }

  /** A folder with this path, or one of the folders above it. */
  ghost predicate LiesOn(t: Table, user: User, path: string, id: Id) {
    exists p :: HasPath(t, user, p, path) && id in p
  }

  /** A folder reached so far, and its child of the next name: the walk is one part further. */
  lemma WalkStep(t: Table, user: User, p: seq<Id>, parts: seq<string>, i: nat, c: Id)
    requires WellFormed(t, user) && i < |parts| && HasPath(t, user, p, Joined(parts[..i]))
    requires c in Candidates(t, user, Some(Last(p)), parts[i]) && t[c].isFolder
    ensures HasPath(t, user, p + [c], Joined(parts[..i + 1])) && Last(p + [c]) == c
  {
    var v, q := FoldersOf(t, user), p + [c];
    UserFoldersArePaths(t, user, p);
    assert IsStep(v, Last(p), c);
    PathExtends(v, p, c);
    UserFoldersArePaths(t, user, q);
    assert q[..|q| - 1] == p;
    assert parts[..i + 1][..i] == parts[..i];
  }

  /** Paths stay valid when rows are added. */
  lemma {:induction false} PathsStay(t: Table, t': Table, user: User, p: seq<Id>, path: string)
    requires Forest(t) && Forest(t') && Grows(t, t', user) && HasPath(t, user, p, path)
    ensures HasPath(t', user, p, path)
  {
    var v, v' := FoldersOf(t, user), FoldersOf(t', user);
    UserFoldersArePaths(t, user, p);
    forall i | 1 <= i < |p|
      ensures IsStep(v', p[i - 1], p[i])
    {
      assert IsStep(v, p[i - 1], p[i]);
    }
    UserFoldersArePaths(t', user, p);
    SamePath(v, v', p);
  }

  lemma {:induction false} SamePath(v: Table, v': Table, p: seq<Id>)
    requires forall i | 0 <= i < |p| :: Name(v, p[i]) == Name(v', p[i])
    ensures DirPath(v, p) == DirPath(v', p)
  {
    if |p| > 1 {
      SamePath(v, v', p[..|p| - 1]);
    }
  }

  /** A new folder under a reached one, where nothing of that name was, keeps everything in order. */
  lemma InsertKeepsForest(t: Table, parent: Id, id: Id, row: Row)
    requires Forest(t) && parent in t && IsUnused(t, id) && row.parent == Some(parent)
    ensures Forest(t[id := row])
  {
    var rank :| Ranked(t, rank);
    assert Ranked(t[id := row], rank[id := rank[parent] + 1]);
  }

  lemma InsertKeepsOrder(t: Table, user: User, parent: Id, name: string, id: Id)
    requires WellFormed(t, user) && parent in FoldersOf(t, user) && IsUnused(t, id) && '/' !in name
    requires Candidates(t, user, Some(parent), name) == {}
    ensures WellFormed(t[id := Row(name, true, Some(parent), user, 0, false)], user)
  {
    var row := Row(name, true, Some(parent), user, 0, false);
    var t' := t[id := row];
    var v, v' := FoldersOf(t, user), FoldersOf(t', user);
    InsertKeepsForest(t, parent, id, row);
    assert v' == v[id := row];
    assert Roots(v') == Roots(v);
    ChildrenAreCandidates(t, user, parent, name);
  }

  lemma ChildrenAreCandidates(t: Table, user: User, parent: Id, name: string)
    ensures forall a | a in FoldersOf(t, user) && t[a].parent == Some(parent) && t[a].name == name ::
              a in Candidates(t, user, Some(parent), name)
  {
  }

  /** A path in the grown table ends in the new folder, or it was there before. */
  lemma OldPath(t: Table, t': Table, user: User, id: Id, row: Row, p: seq<Id>, path: string)
    requires Forest(t) && Forest(t') && IsUnused(t, id) && t' == t[id := row] && HasPath(t', user, p, path) && Last(p) != id
    ensures HasPath(t, user, p, path)
  {
    var v, v' := FoldersOf(t, user), FoldersOf(t', user);
    UserFoldersArePaths(t', user, p);
    forall i | 0 <= i < |p|
      ensures p[i] in v && v[p[i]] == v'[p[i]]
    {
      if i < |p| - 1 {
        assert IsStep(v', p[i], p[i + 1]);
        NewIsLeaf(t, user, id, row, p[i], p[i + 1]);
      }
    }
    forall i | 1 <= i < |p|
      ensures IsStep(v, p[i - 1], p[i])
    {
      assert IsStep(v', p[i - 1], p[i]);
    }
    UserFoldersArePaths(t, user, p);
    SamePath(v, v', p);
  }

  lemma NewIsLeaf(t: Table, user: User, id: Id, row: Row, parent: Id, child: Id)
    requires Forest(t[id := row]) && IsUnused(t, id) && IsStep(FoldersOf(t[id := row], user), parent, child)
    ensures parent != id
  {
    var rank :| Ranked(t[id := row], rank);
  }

  lemma InsertKeepsUnobstructed(t: Table, user: User, parts: seq<string>, id: Id, row: Row)
    requires Forest(t) && Forest(t[id := row]) && Unobstructed(t, user, parts) && IsUnused(t, id) && row.isFolder
    ensures Unobstructed(t[id := row], user, parts)
  {
    var t' := t[id := row];
    forall c, p, i: nat
      ensures !Blocks(t', user, parts, c, p, i)
    {
      if c in t && i < |parts| && HasPath(t', user, p, Joined(parts[..i])) && Last(p) != id {
        OldPath(t, t', user, id, row, p, Joined(parts[..i]));
        assert !Blocks(t, user, parts, c, p, i);
      }
    }
  }

  /** The folders along a found path are those that the walk passes. */
  lemma {:induction false} PrefixPaths(t: Table, user: User, q: seq<Id>, parts: seq<string>, k: nat)
    requires WellFormed(t, user) && HasPath(t, user, q, Joined(parts)) && k <= |parts|
    requires NoSlashes(parts)
    ensures |q| == |parts| + 1 && HasPath(t, user, q[..k + 1], Joined(parts[..k]))
    decreases |parts|
  {
    var v := FoldersOf(t, user);
    UserFoldersArePaths(t, user, q);
    DirPathStartsWithSlash(v, q);
    assert parts[..|parts|] == parts;
    if parts != [] {
      var m, n := |q| - 1, |parts| - 1;
      assert |Joined(parts)| > 0;
      ParentPath(t, user, q);
      LastSlashSplits(DirPath(v, q[..m]), v[Last(q)].name, Joined(parts[..n]), parts[n]);
      assert HasPath(t, user, q[..m], Joined(parts[..n])) && NoSlashes(parts[..n]);
      hide *;
      if k <= n {
        PrefixPaths(t, user, q[..m], parts[..n], k);
        assert parts[..n][..k] == parts[..k] && q[..m][..k + 1] == q[..k + 1];
      } else {
        PrefixPaths(t, user, q[..m], parts[..n], 0);
        assert q[..k + 1] == q;
      }
    } else {
      assert q[..1] == q;
    }
  }

  /** The last name of a path is its last part. */
  lemma LastName(v: Table, q: seq<Id>, parts: seq<string>)
    requires |q| > 1 && parts != [] && DirPath(v, q) == Joined(parts)
    requires '/' !in Name(v, Last(q)) && '/' !in parts[|parts| - 1]
    ensures Name(v, Last(q)) == parts[|parts| - 1]
  {
    DirPathEnds(v, q);
    assert Joined(parts) == Joined(parts[..|parts| - 1]) + "/" + parts[|parts| - 1];
    hide *;
    LastSlashSplits(DirPath(v, q[..|q| - 1]), Name(v, Last(q)), Joined(parts[..|parts| - 1]), parts[|parts| - 1]);
  }

  /** If the whole path is there already, so is the next folder of the walk. */
  lemma NextIsThere(t: Table, user: User, p: seq<Id>, q: seq<Id>, parts: seq<string>, i: nat)
    requires WellFormed(t, user) && i < |parts| && NoSlashes(parts)
    requires HasPath(t, user, p, Joined(parts[..i])) && HasPath(t, user, q, Joined(parts))
    ensures Candidates(t, user, Some(Last(p)), parts[i]) != {}
  {
    PrefixPaths(t, user, q, parts, i);
    PrefixPaths(t, user, q, parts, i + 1);
    var v, next := FoldersOf(t, user), q[..i + 2];
    PathsDiffer(t, user, p, q[..i + 1], Joined(parts[..i]));
    UserFoldersArePaths(t, user, next);
    LastStep(v, next);
    assert next[i] == Last(p) && '/' !in Name(v, Last(next));
    hide HasPath, UserFolders, WellFormed, DirPath, Joined;
    LastName(v, next, parts[..i + 1]);
    assert Last(next) in Candidates(t, user, Some(Last(p)), parts[i]);
  }

  /** The rows of the user in one place differ in name, files included. */
  predicate UniqueNames(t: Table, user: User) {
    forall a, b | a in t && b in t && t[a].user == user && t[b].user == user && t[a].parent.Some?
                  && t[a].parent == t[b].parent && t[a].name == t[b].name :: a == b
  }

  /** Row `x` is no folder below the user's root. */
  ghost predicate OffTree(t: Table, user: User, x: Id) {
    forall q | q in UserFolders(t, user) && q != [] :: Last(q) != x
  }

  lemma ChildOffTree(t: Table, user: User, x: Id, c: Id)
    requires Forest(t) && OffTree(t, user, x) && c in t && t[c].parent == Some(x)
    ensures OffTree(t, user, c)
  {
    forall q | q in UserFolders(t, user) && q != []
      ensures Last(q) != c
    {
      UserFoldersArePaths(t, user, q);
      if |q| > 1 {
        ParentPath(t, user, q);
      }
    }
  }

  lemma InsertOffTree(t: Table, user: User, x: Id, id: Id, row: Row)
    requires Forest(t) && OffTree(t, user, x) && x in t && IsUnused(t, id) && row.parent == Some(x)
    ensures Forest(t[id := row]) && OffTree(t[id := row], user, id)
  {
    var t' := t[id := row];
    InsertKeepsForest(t, x, id, row);
    forall q | q in UserFolders(t', user) && q != []
      ensures Last(q) != x
    {
      if Last(q) != id {
        OldPath(t, t', user, id, row, q, DirPath(FoldersOf(t', user), q));
      }
    }
    ChildOffTree(t', user, x, id);
  }

  /** The walk up to the obstruction, and off the tree from there on. */
  ghost predicate Astray(t: Table, t': Table, user: User, parts: seq<string>, c: Id, p: seq<Id>, k: nat, i: nat, current: Option<Id>) {
    && WellFormed(t, user) && UniqueNames(t, user) && NoSlashes(parts) && Blocks(t, user, parts, c, p, k) && |p| == k + 1
    && current.Some?
    && if i <= k then t' == t && current.value == p[i]
       else current.value in t' && Forest(t') && OffTree(t', user, current.value)
  }

  lemma AstrayBegins(t: Table, user: User, parts: seq<string>, root: Id) returns (c: Id, p: seq<Id>, k: nat)
    requires WellFormed(t, user) && UniqueNames(t, user) && NoSlashes(parts) && !Unobstructed(t, user, parts)
    requires root in Roots(FoldersOf(t, user))
    ensures Astray(t, t, user, parts, c, p, k, 0, Some(root))
  {
    c, p, k :| Blocks(t, user, parts, c, p, k);
    assert NoSlashes(parts[..k]) && parts[..k][..k] == parts[..k];
    PrefixPaths(t, user, p, parts[..k], k);
    UserFoldersArePaths(t, user, p);
    assert p[0] in Roots(FoldersOf(t, user));
  }

  lemma AstrayGoesOn(t: Table, t': Table, user: User, parts: seq<string>, c: Id, p: seq<Id>, k: nat, i: nat, current: Id,
                     next: Id)
    requires i < |parts| && Astray(t, t', user, parts, c, p, k, i, Some(current))
    requires next in Candidates(t', user, Some(current), parts[i])
    ensures Astray(t, t', user, parts, c, p, k, i + 1, Some(next))
  {
    if i < k {
      OnTheWay(t, user, parts, p, k, i);
    } else if i == k {
      assert next == c;
      forall q | q in UserFolders(t, user) && q != []
        ensures Last(q) != c
      {
        UserFoldersArePaths(t, user, q);
      }
    } else {
      ChildOffTree(t', user, current, next);
    }
  }

  /** The folders on the way to the obstruction are candidates. */
  lemma OnTheWay(t: Table, user: User, parts: seq<string>, p: seq<Id>, k: nat, i: nat)
    requires WellFormed(t, user) && NoSlashes(parts) && i < k < |parts| && HasPath(t, user, p, Joined(parts[..k]))
    ensures |p| == k + 1 && p[i + 1] in Candidates(t, user, Some(p[i]), parts[i])
  {
    var front, v := parts[..k], FoldersOf(t, user);
    PrefixPaths(t, user, p, front, i + 1);
    var next := p[..i + 2];
    assert front[..i + 1] == parts[..i + 1];
    UserFoldersArePaths(t, user, next);
    LastStep(v, next);
    assert next[i] == p[i] && '/' !in Name(v, Last(next));
    hide HasPath, UserFolders, WellFormed, DirPath, Joined;
    HasPathIs(t, user, next, Joined(parts[..i + 1]));
    LastName(v, next, parts[..i + 1]);
  }

  lemma HasPathIs(t: Table, user: User, p: seq<Id>, path: string)
    requires HasPath(t, user, p, path)
    ensures DirPath(FoldersOf(t, user), p) == path
  {
  }

  lemma BlockerIsCandidate(t: Table, user: User, parts: seq<string>, c: Id, p: seq<Id>, k: nat)
    requires Blocks(t, user, parts, c, p, k)
    ensures c in Candidates(t, user, Some(Last(p)), parts[k])
  {
  }

  lemma AstrayInserts(t: Table, t': Table, user: User, parts: seq<string>, c: Id, p: seq<Id>, k: nat, i: nat, current: Id,
                      id: Id)
    requires i < |parts| && Astray(t, t', user, parts, c, p, k, i, Some(current)) && IsUnused(t', id)
    requires Candidates(t', user, Some(current), parts[i]) == {}
    ensures Astray(t, t'[id := Row(parts[i], true, Some(current), user, 0, false)], user, parts, c, p, k, i + 1, Some(id))
  {
    if i < k {
      OnTheWay(t, user, parts, p, k, i);
    } else if i == k {
      BlockerIsCandidate(t, user, parts, c, p, k);
    } else {
      InsertOffTree(t', user, current, id, Row(parts[i], true, Some(current), user, 0, false));
    }
  }

  lemma AstrayEnds(t: Table, t': Table, user: User, parts: seq<string>, c: Id, p: seq<Id>, k: nat, current: Option<Id>, path: string)
    requires Astray(t, t', user, parts, c, p, k, |parts|, current)
    ensures current.Some? && !Finds(t', user, path, current)
  {
  }

  /** Whatever the table: rows that were there stay as they are, new ones are folders of the user. In order
      and unobstructed, the walk ends in the folder that a lookup of the path then finds, and it inserts
      nothing if the lookup has found that folder before. With an obstruction it goes on behind the row that is no
      folder, and no lookup finds where it ends. */
  method CreateDirectories(t: Table, user: User, longPath: string) returns (t': Table, r: Result<Option<Id>>)
    ensures Grows(t, t', user) && (r.Err? ==> t' == t && r.error == UNIQUE_VIOLATION)
    ensures WellFormed(t, user) && Roots(FoldersOf(t, user)) != {} && Unobstructed(t, user, PathParts(longPath)) ==>
      && WellFormed(t', user) && Roots(FoldersOf(t', user)) != {} && Unobstructed(t', user, PathParts(longPath))
      && r.Ok? && r.value.Some? && Finds(t', user, Joined(PathParts(longPath)), r.value)
      && (forall id: Id :: Finds(t, user, Joined(PathParts(longPath)), Some(id)) ==> t' == t && r.value == Some(id))
      && (forall id | id in t' && id !in t :: LiesOn(t', user, Joined(PathParts(longPath)), id))
    ensures WellFormed(t, user) && Roots(FoldersOf(t, user)) != {} && UniqueNames(t, user) ==>
      && r.Ok? && r.value.Some?
      && (Finds(t', user, Joined(PathParts(longPath)), r.value) <==> Unobstructed(t, user, PathParts(longPath)))
  {
    hide WellFormed, Forest, UserFolders, HasPath, Unobstructed, Candidates, Joined, Finds, IsUnused, LiesOn;
    hide UniqueNames, Astray, Blocks;
    var parts := PathParts(longPath);
    PartsSpellPath(longPath);
    ghost var inOrder := WellFormed(t, user) && Roots(FoldersOf(t, user)) != {} && Unobstructed(t, user, parts);
    var roots := Roots(FoldersOf(t, user));
    ghost var blocked := WellFormed(t, user) && roots != {} && UniqueNames(t, user) && !Unobstructed(t, user, parts);
    ghost var c, way, k: nat := 0, [], 0;
    var current: Option<Id> := None;
    ghost var p: seq<Id> := [];
    t' := t;
    if roots != {} {
      var root :| root in roots;
      current, p := Some(root), [root];
      if inOrder {
        RootHasPath(t, user, root);
      }
      if blocked {
        c, way, k := AstrayBegins(t, user, parts, root);
      }
    }
    for i := 0 to |parts|
      invariant Grows(t, t', user)
      invariant inOrder ==> Walking(t, t', user, parts, i, p, current)
      invariant blocked ==> current.Some? && Astray(t, t', user, parts, c, way, k, i, current)
    {
      var found := Candidates(t', user, current, parts[i]);
      if found == {} {
        var inserted := Insert(t', user, current, parts[i]);
        if inserted.Err? {
          if inOrder || blocked {
            ClashIsCandidate(t', user, current.value, parts[i]);
            assert false;
          }
          return t, Err(inserted.error);
        }
        if inOrder {
          WalkInserts(t, t', user, parts, i, p, inserted.value.1);
        }
        if blocked {
          AstrayInserts(t, t', user, parts, c, way, k, i, current.value, inserted.value.1);
        }
        t', current, p := inserted.value.0, Some(inserted.value.1), p + [inserted.value.1];
      } else {
        var next :| next in found;
        if inOrder {
          WalkGoesOn(t, t', user, parts, i, p, next);
        }
        if blocked {
          AstrayGoesOn(t, t', user, parts, c, way, k, i, current.value, next);
        }
        current, p := Some(next), p + [next];
      }
    }
    r := Ok(current);
    if inOrder {
      WalkEnds(t, t', user, parts, p, current);
    }
    if blocked {
      AstrayEnds(t, t', user, parts, c, way, k, current, Joined(parts));
    }
  }

  /** The walk stands at the end of path `p`, which spells the parts so far; if the table already had
      all the folders, it has not changed. */
  ghost predicate Walking(t: Table, t': Table, user: User, parts: seq<string>, i: nat, p: seq<Id>, current: Option<Id>) {
    && i <= |parts| && WellFormed(t', user) && Unobstructed(t', user, parts) && Roots(FoldersOf(t', user)) != {}
    && p != [] && current == Some(Last(p)) && HasPath(t', user, p, Joined(parts[..i]))
    && (forall q | HasPath(t, user, q, Joined(parts)) :: t' == t)
    && (forall id | id in t' && id !in t :: id in p)
  }

  lemma RootHasPath(t: Table, user: User, root: Id)
    requires WellFormed(t, user) && root in Roots(FoldersOf(t, user))
    ensures HasPath(t, user, [root], Joined([]))
  {
    UserFoldersArePaths(t, user, [root]);
  }

  lemma ClashIsCandidate(t: Table, user: User, parent: Id, name: string)
    ensures Clashes(t, user, Some(parent), name) ==> Candidates(t, user, Some(parent), name) != {}
  {
    if Clashes(t, user, Some(parent), name) {
      var c :| c in t && !t[c].pending && t[c].parent == Some(parent) && t[c].name == name && t[c].user == user;
      assert c in Candidates(t, user, Some(parent), name);
    }
  }

  lemma PathIsMissing(t: Table, user: User, p: seq<Id>, parts: seq<string>, i: nat)
    requires WellFormed(t, user) && i < |parts| && NoSlashes(parts)
    requires HasPath(t, user, p, Joined(parts[..i])) && Candidates(t, user, Some(Last(p)), parts[i]) == {}
    ensures forall q :: !HasPath(t, user, q, Joined(parts))
  {
    forall q
      ensures !HasPath(t, user, q, Joined(parts))
    {
      if HasPath(t, user, q, Joined(parts)) {
        NextIsThere(t, user, p, q, parts, i);
        assert false;
      }
    }
  }

  /** Inserting the next folder of the walk keeps everything in order, and is one step of the walk. */
  lemma InsertOnWalk(t: Table, user: User, parts: seq<string>, i: nat, p: seq<Id>, id: Id, row: Row)
    requires p != [] && i < |parts| && NoSlashes(parts) && IsUnused(t, id)
    requires WellFormed(t, user) && Unobstructed(t, user, parts) && HasPath(t, user, p, Joined(parts[..i]))
    requires Candidates(t, user, Some(Last(p)), parts[i]) == {} && row == Row(parts[i], true, Some(Last(p)), user, 0, false)
    ensures WellFormed(t[id := row], user) && Unobstructed(t[id := row], user, parts)
    ensures HasPath(t[id := row], user, p + [id], Joined(parts[..i + 1]))
  {
    var t' := t[id := row];
    UserFoldersArePaths(t, user, p);
    InsertKeepsOrder(t, user, Last(p), parts[i], id);
    assert Forest(t) && Forest(t');
    hide WellFormed, Forest, UserFolders, HasPath, Unobstructed, Joined;
    InsertKeepsUnobstructed(t, user, parts, id, row);
    PathsStay(t, t', user, p, Joined(parts[..i]));
    assert id in Candidates(t', user, Some(Last(p)), parts[i]);
    WalkStep(t', user, p, parts, i, id);
  }

  lemma WalkInserts(t: Table, t': Table, user: User, parts: seq<string>, i: nat, p: seq<Id>, id: Id)
    requires p != [] && i < |parts| && Walking(t, t', user, parts, i, p, Some(Last(p))) && IsUnused(t', id)
    requires Candidates(t', user, Some(Last(p)), parts[i]) == {} && NoSlashes(parts)
    ensures Walking(t, t'[id := Row(parts[i], true, Some(Last(p)), user, 0, false)], user, parts, i + 1, p + [id], Some(id))
  {
    hide WellFormed, Forest, UserFolders, HasPath, Unobstructed, Joined, Candidates;
    var row := Row(parts[i], true, Some(Last(p)), user, 0, false);
    InsertOnWalk(t', user, parts, i, p, id, row);
    PathIsMissing(t', user, p, parts, i);
    assert Roots(FoldersOf(t', user)) <= Roots(FoldersOf(t'[id := row], user));
  }

  lemma WalkGoesOn(t: Table, t': Table, user: User, parts: seq<string>, i: nat, p: seq<Id>, next: Id)
    requires p != [] && i < |parts| && Walking(t, t', user, parts, i, p, Some(Last(p)))
    requires next in Candidates(t', user, Some(Last(p)), parts[i])
    ensures Walking(t, t', user, parts, i + 1, p + [next], Some(next))
  {
    assert !Blocks(t', user, parts, next, p, i);
    WalkStep(t', user, p, parts, i, next);
  }

  lemma WalkEnds(t: Table, t': Table, user: User, parts: seq<string>, p: seq<Id>, current: Option<Id>)
    requires Walking(t, t', user, parts, |parts|, p, current) && Joined(parts) != "/"
    ensures WellFormed(t', user) && Unobstructed(t', user, parts) && Roots(FoldersOf(t', user)) != {}
    ensures current.Some? && Finds(t', user, Joined(parts), current)
    ensures forall id: Id :: Finds(t, user, Joined(parts), Some(id)) ==> t' == t && current == Some(id)
    ensures forall id | id in t' && id !in t :: LiesOn(t', user, Joined(parts), id)
  {
    assert parts[..|parts|] == parts;
    hide WellFormed, Finds, HasPath, Unobstructed, Joined;
    HasPathIsFound(t', user, p, Joined(parts));
    forall id: Id | Finds(t, user, Joined(parts), Some(id))
      ensures t' == t && current == Some(id)
    {
      var q := FoundHasPath(t, user, Joined(parts), id);
      LookupIsUnique(t', user, Joined(parts), current, Some(id));
    }
  }

  lemma FoundHasPath(t: Table, user: User, path: string, id: Id) returns (q: seq<Id>)
    requires Finds(t, user, path, Some(id)) && path != "/"
    ensures HasPath(t, user, q, path)
  {
    q :| HasPath(t, user, q, path);
  }

  /** Creating the same folders twice is creating them once. */
  method CreateTwice(t: Table, user: User, longPath: string)
    returns (once: Table, first: Result<Option<Id>>, twice: Table, second: Result<Option<Id>>)
    requires WellFormed(t, user) && Roots(FoldersOf(t, user)) != {} && Unobstructed(t, user, PathParts(longPath))
    ensures twice == once && second == first
  {
    hide *;
    once, first := CreateDirectories(t, user, longPath);
    twice, second := CreateDirectories(once, user, longPath);
  }

  /** A nameless root with a file "a" in it. */
  const WITH_FILE: Table := map[0 := Row("", true, None, 1, 0, false), 1 := Row("a", false, Some(0), 1, 5, false)]

  lemma FileIsInOrder()
    ensures WellFormed(WITH_FILE, 1) && UniqueNames(WITH_FILE, 1) && 0 in Roots(FoldersOf(WITH_FILE, 1))
  {
    assert Forest(WITH_FILE) by {
      assert Ranked(WITH_FILE, map[0 := 0, 1 := 1]);
    }
    hide Forest;
    assert FoldersOf(WITH_FILE, 1) == map[0 := WITH_FILE[0]];
    hide FoldersOf;
  }

  lemma FileBlocks()
    ensures Blocks(WITH_FILE, 1, ["a"], 1, [0], 0)
  {
    FileIsInOrder();
    hide WellFormed, UniqueNames, FoldersOf, Roots, HasPath, Joined;
    RootHasPath(WITH_FILE, 1, 0);
    assert ["a"][..0] == [];
  }

  lemma PartsOfA()
    ensures PathParts("/a") == ["a"] && Joined(["a"]) == "/a"
  {
    assert "/a"[1..] == "a" && Stripped("/a") == Stripped("a") == "a";
    assert FirstSlash("a") == 1;
    assert Joined(["a"]) == Joined([]) + "/" + "a" == "/a";
  }

  /** Creating the folder /a beside a file of that name returns no folder that can be looked up. */
  method FileInTheWay() returns (t': Table, r: Result<Option<Id>>)
    ensures r.Ok? && r.value.Some? && !Finds(t', 1, "/a", r.value)
  {
    FileIsInOrder();
    FileBlocks();
    PartsOfA();
    hide Finds, WellFormed, UniqueNames, Blocks, Joined, PathParts;
    t', r := CreateDirectories(WITH_FILE, 1, "/a");
  }
}
