/** delete_files_bulk: removes folders with everything below them; files only become marked for deletion. */
module FolderDeletion {
  import opened FolderTree

  /** folder_tree: the user's folders among the given rows, and those below them. */
  function FolderTreeOf(t: Table, user: User, ids: set<Id>): set<seq<Id>> {
    var v := FoldersOf(t, user);
    Recursive(v, Starts(v.Keys * ids), |v|)
  }

  function FolderIds(t: Table, user: User, ids: set<Id>): set<Id> {
    set q | q in FolderTreeOf(t, user, ids) && q != [] :: Last(q)
  }

  predicate ToMark(t: Table, user: User, ids: set<Id>, folders: set<Id>, c: Id)
    requires c in t
  {
    (c in ids || (t[c].parent.Some? && t[c].parent.value in folders)) && !t[c].isFolder && t[c].user == user
  }

  /** The two statements: the update of the files, then the removal of the folders. */
  function DeleteBulk(t: Table, user: User, ids: set<Id>): Table {
    var folders := FolderIds(t, user, ids);
    var marked := map c | c in t :: if ToMark(t, user, ids, folders, c) then t[c].(pending := true) else t[c];
    map c | c in marked && !(c in folders && marked[c].user == user) :: marked[c]
  }

  /** Every row belongs to the owner of the folder that it is in. */
  ghost predicate OwnerConsistent(t: Table) {
    forall c | c in t && t[c].parent.Some? && t[c].parent.value in t :: t[c].user == t[t[c].parent.value].user
  }

  /** Folder `a` is folder `c` itself, or folders lead from it down to `c`. */
  ghost predicate AtOrAbove(t: Table, a: Id, c: Id) {
    exists p :: LeadsTo(Folders(t), a, p, c)
  }

  predicate LeadsTo(v: Table, a: Id, p: seq<Id>, c: Id) {
    IsPath(v, p) && p[0] == a && Last(p) == c
  }

  /** Following the parents from a row, one comes to a root. */
  ghost predicate ReachesRoot(t: Table, c: Id) {
    exists p :: IsRootPath(t, p, c)
  }

  /** A path of folders from a root to row `c`; `c` itself may be a file. */
  predicate IsRootPath(t: Table, p: seq<Id>, c: Id) {
    IsPath(t, p) && t[p[0]].parent.None? && Last(p) == c && forall i | 0 <= i < |p| - 1 :: p[i] in t && t[p[i]].isFolder
  }

  /** All folders along a path have the same owner. */
  lemma {:induction false} SameOwner(t: Table, p: seq<Id>, i: nat)
    requires OwnerConsistent(t) && IsPath(Folders(t), p) && i < |p|
    ensures p[i] in t && p[0] in t && t[p[i]].isFolder && t[p[i]].user == t[p[0]].user
  {
    if i > 0 {
      SameOwner(t, p, i - 1);
      assert IsStep(Folders(t), p[i - 1], p[i]);
    }
  }

  lemma OwnersPath(t: Table, user: User, p: seq<Id>)
    requires OwnerConsistent(t) && IsPath(Folders(t), p) && t[p[0]].user == user
    ensures IsPath(FoldersOf(t, user), p)
  {
    SameOwner(t, p, 0);
    forall i | 1 <= i < |p|
      ensures IsStep(FoldersOf(t, user), p[i - 1], p[i])
    {
      SameOwner(t, p, i);
      assert IsStep(Folders(t), p[i - 1], p[i]);
    }
  }

  lemma FolderPath(t: Table, user: User, p: seq<Id>)
    requires IsPath(FoldersOf(t, user), p)
    ensures IsPath(Folders(t), p)
  {
    forall i | 1 <= i < |p|
      ensures IsStep(Folders(t), p[i - 1], p[i])
    {
      assert IsStep(FoldersOf(t, user), p[i - 1], p[i]);
    }
  }

  /** The recursive query finds exactly the user's folders at or below a listed folder. */
  lemma FolderIdsAreReachable(t: Table, user: User, ids: set<Id>, c: Id)
    requires Forest(t) && OwnerConsistent(t)
    ensures c in FolderIds(t, user, ids) <==>
            c in t && t[c].isFolder && t[c].user == user && exists a :: a in ids && AtOrAbove(t, a, c)
  {
    var v := FoldersOf(t, user);
    SubForest(t, v);
    if c in FolderIds(t, user, ids) {
      var q :| q in FolderTreeOf(t, user, ids) && q != [] && Last(q) == c;
      QueryFindsPaths(v, v.Keys * ids, q);
      FolderPath(t, user, q);
      LastStep(v, q);
      assert LeadsTo(Folders(t), q[0], q, c);
      assert q[0] in ids && AtOrAbove(t, q[0], c);
    }
    if c in t && t[c].isFolder && t[c].user == user && exists a :: a in ids && AtOrAbove(t, a, c) {
      var a :| a in ids && AtOrAbove(t, a, c);
      var p :| LeadsTo(Folders(t), a, p, c);
      SameOwner(t, p, |p| - 1);
      OwnersPath(t, user, p);
      QueryFindsPaths(v, v.Keys * ids, p);
    }
  }

  /** Bulk deletion removes exactly the user's folders at or below a listed folder, marks exactly the user's
      files that are listed or lie in a removed folder, and leaves every other row as it is. */
  lemma DeleteBulkIsExact(t: Table, user: User, ids: set<Id>, c: Id)
    requires Forest(t) && OwnerConsistent(t) && c in t
    ensures DeleteBulk(t, user, ids).Keys <= t.Keys
    ensures c !in DeleteBulk(t, user, ids) <==>
            t[c].isFolder && t[c].user == user && exists a :: a in ids && AtOrAbove(t, a, c)
    ensures c in DeleteBulk(t, user, ids) ==>
      var parentGone := t[c].parent.Some? && t[c].parent.value in t && t[c].parent.value !in DeleteBulk(t, user, ids);
      DeleteBulk(t, user, ids)[c]
      == if !t[c].isFolder && t[c].user == user && (c in ids || parentGone) then t[c].(pending := true) else t[c]
  {
    FolderIdsAreReachable(t, user, ids, c);
    if t[c].parent.Some? {
      FolderIdsAreReachable(t, user, ids, t[c].parent.value);
    }
  }

  /** What is below a removed folder is removed, or marked. */
  lemma GoneBelow(t: Table, user: User, ids: set<Id>, c: Id)
    requires Forest(t) && OwnerConsistent(t) && c in t && t[c].parent.Some?
    requires t[c].parent.value in FolderIds(t, user, ids)
    ensures c !in DeleteBulk(t, user, ids) || DeleteBulk(t, user, ids)[c].pending
    ensures t[c].isFolder ==> c in FolderIds(t, user, ids)
  {
    var parent := t[c].parent.value;
    FolderIdsAreReachable(t, user, ids, parent);
    FolderIdsAreReachable(t, user, ids, c);
    if t[c].isFolder {
      var a :| a in ids && AtOrAbove(t, a, parent);
      var p :| LeadsTo(Folders(t), a, p, parent);
      PathExtends(Folders(t), p, c);
      assert LeadsTo(Folders(t), a, p + [c], c);
    }
  }

  lemma {:induction false} GoneAllTheWay(t: Table, user: User, ids: set<Id>, p: seq<Id>, c: Id, i: nat)
    requires Forest(t) && OwnerConsistent(t) && IsRootPath(t, p, c) && i < |p|
    requires p[i] in FolderIds(t, user, ids)
    ensures c in t && (c !in DeleteBulk(t, user, ids) || DeleteBulk(t, user, ids)[c].pending)
    decreases |p| - i
  {
    if i < |p| - 1 {
      assert IsStep(t, p[i], p[i + 1]);
      GoneBelow(t, user, ids, p[i + 1]);
      if i + 1 < |p| - 1 {
        GoneAllTheWay(t, user, ids, p, c, i + 1);
      }
    } else {
      FolderIdsAreReachable(t, user, ids, c);
    }
  }

  /** Every active row that is left still reaches its root. */
  lemma ActiveRowsReachRoot(t: Table, user: User, ids: set<Id>, c: Id)
    requires Forest(t) && OwnerConsistent(t) && ReachesRoot(t, c)
    requires c in DeleteBulk(t, user, ids) && !DeleteBulk(t, user, ids)[c].pending
    ensures ReachesRoot(DeleteBulk(t, user, ids), c)
  {
    var t' := DeleteBulk(t, user, ids);
    var p :| IsRootPath(t, p, c);
    forall i | 0 <= i < |p|
      ensures p[i] in t && p[i] in t' && t'[p[i]].parent == t[p[i]].parent && t'[p[i]].isFolder == t[p[i]].isFolder
    {
      if i > 0 {
        assert IsStep(t, p[i - 1], p[i]);
      }
      Stays(t, user, ids, p, c, i);
    }
    forall i | 1 <= i < |p|
      ensures IsStep(t', p[i - 1], p[i])
    {
      assert IsStep(t, p[i - 1], p[i]);
    }
    assert IsRootPath(t', p, c);
  }

  lemma Stays(t: Table, user: User, ids: set<Id>, p: seq<Id>, c: Id, i: nat)
    requires Forest(t) && OwnerConsistent(t) && IsRootPath(t, p, c) && i < |p| && p[i] in t
    requires c in DeleteBulk(t, user, ids) && !DeleteBulk(t, user, ids)[c].pending
    ensures p[i] !in FolderIds(t, user, ids)
  {
    if p[i] in FolderIds(t, user, ids) {
      GoneAllTheWay(t, user, ids, p, c, i);
    }
  }
}
