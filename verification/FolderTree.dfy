/** The table of files and folders, and the recursive queries over it. A query is evaluated the way a database
    does: round after round, each taking the children of the rows that the round before has found. */
module FolderTree {
  import opened Bytes

  type Id = nat
  type User = nat

  datatype Row = Row(name: string, isFolder: bool, parent: Option<Id>, user: User, size: int, pending: bool)

  type Table = map<Id, Row>

  /** The rows that a query looks at: the folders, of everybody or of one user. */
  function Folders(t: Table): Table {
    map id | id in t && t[id].isFolder :: t[id]
  }

  function FoldersOf(t: Table, user: User): Table {
    map id | id in t && t[id].isFolder && t[id].user == user :: t[id]
  }

  /** `rank` orders parents before their children; with it, nothing is below itself. */
  ghost predicate Ranked(t: Table, rank: map<Id, nat>) {
    && t.Keys <= rank.Keys
    && forall id | id in t && t[id].parent.Some? && t[id].parent.value in t :: rank[t[id].parent.value] < rank[id]
  }

  ghost predicate Forest(t: Table) {
    exists rank :: Ranked(t, rank)
  }

  /** Rows from the top down, each the parent of the next one. */
  predicate IsPath(v: Table, p: seq<Id>) {
    && p != [] && p[0] in v
    && forall i | 1 <= i < |p| :: IsStep(v, p[i - 1], p[i])
  }

  predicate IsStep(v: Table, parent: Id, child: Id) {
    child in v && v[child].parent == Some(parent)
  }

  function Last(p: seq<Id>): Id
    requires p != []
  {
    p[|p| - 1]
  }

  /** One round of a recursive query: the result rows found last, each with its path, joined with the table. */
  function Children(v: Table, work: set<seq<Id>>): set<seq<Id>> {
    set p, id | p in work && id in v && p != [] && v[id].parent == Some(Last(p)) :: p + [id]
  }

  /** A recursive query: the first rows, and what up to `rounds` rounds find in total. */
  function Recursive(v: Table, work: set<seq<Id>>, rounds: nat): set<seq<Id>>
    decreases rounds
  {
    if rounds == 0 || work == {} then {} else work + Recursive(v, Children(v, work), rounds - 1)
  }

  /** The paths that start with the given rows. */
  function Starts(ids: set<Id>): set<seq<Id>> {
    set id | id in ids :: [id]
  }

  function Roots(v: Table): set<Id> {
    set id | id in v && v[id].parent.None?
  }

  /** A path of the result extends one of the working table. */
  predicate Extends(v: Table, work: set<seq<Id>>, length: nat, rounds: nat, q: seq<Id>) {
    && 1 <= length <= |q| < length + rounds && q[..length] in work
    && forall i | length <= i < |q| :: IsStep(v, q[i - 1], q[i])
  }

  lemma ChildrenExtend(v: Table, work: set<seq<Id>>, length: nat, q: seq<Id>)
    requires length >= 1 && |q| > length && forall p | p in work :: |p| == length
    ensures q[..length + 1] in Children(v, work) <==> q[..length] in work && IsStep(v, q[length - 1], q[length])
  {
    var p, id := q[..length], q[length];
    assert q[..length + 1] == p + [id] && Last(p) == q[length - 1];
    if q[..length + 1] in Children(v, work) {
      var p', id' :| p' in work && id' in v && p' != [] && v[id'].parent == Some(Last(p')) && p + [id] == p' + [id'];
      assert p == (p + [id])[..length] == p' && id == (p + [id])[length] == id';
    }
  }

  /** One round more: the path is in the working table already, or it extends one of the next. */
  lemma ExtendsStep(v: Table, work: set<seq<Id>>, next: set<seq<Id>>, length: nat, rounds: nat, q: seq<Id>)
    requires length >= 1 && rounds > 0 && forall p | p in work :: |p| == length
    requires |q| > length ==> (q[..length + 1] in next <==> q[..length] in work && IsStep(v, q[length - 1], q[length]))
    ensures Extends(v, work, length, rounds, q) <==> q in work || Extends(v, next, length + 1, rounds - 1, q)
  {
    hide IsStep;
    if |q| == length {
      assert q[..length] == q;
    }
  }

  lemma ChildrenAreLonger(v: Table, work: set<seq<Id>>, length: nat)
    requires forall p | p in work :: |p| == length
    ensures forall p | p in Children(v, work) :: |p| == length + 1
  {
  }

  lemma RecursiveStep(v: Table, work: set<seq<Id>>, rounds: nat)
    requires rounds != 0 && work != {}
    ensures Recursive(v, work, rounds) == work + Recursive(v, Children(v, work), rounds - 1)
  {
  }

  lemma {:induction false} RecursiveExtends(v: Table, work: set<seq<Id>>, length: nat, rounds: nat, q: seq<Id>)
    requires length >= 1 && forall p | p in work :: |p| == length
    ensures q in Recursive(v, work, rounds) <==> Extends(v, work, length, rounds, q)
    decreases rounds
  {
    if rounds != 0 && work != {} {
      var next := Children(v, work);
      ChildrenAreLonger(v, work, length);
      RecursiveStep(v, work, rounds);
      hide Children, Recursive, Extends, IsStep;
      RecursiveExtends(v, next, length + 1, rounds - 1, q);
      if |q| > length {
        ChildrenExtend(v, work, length, q);
      }
      ExtendsStep(v, work, next, length, rounds, q);
    }
  }

  /** On a forest a path is never longer than the table, so that the rounds of a query come to an end. */
  lemma PathsAreShort(v: Table, p: seq<Id>)
    requires Forest(v) && IsPath(v, p)
    ensures |p| <= |v|
  {
    var rank :| Ranked(v, rank);
    PathIsDistinct(v, rank, p);
    DistinctIsShort(p, v.Keys);
  }

  lemma {:induction false} RankGrows(v: Table, rank: map<Id, nat>, p: seq<Id>, i: nat, j: nat)
    requires Ranked(v, rank) && IsPath(v, p) && i < j < |p|
    ensures p[i] in v && p[j] in v && p[i] in rank && p[j] in rank && rank[p[i]] < rank[p[j]]
    decreases j
  {
    assert IsStep(v, p[j - 1], p[j]);
    if i < j - 1 {
      RankGrows(v, rank, p, i, j - 1);
    } else if i > 0 {
      assert IsStep(v, p[i - 1], p[i]);
    }
  }

  lemma PathIsDistinct(v: Table, rank: map<Id, nat>, p: seq<Id>)
    requires Ranked(v, rank) && IsPath(v, p)
    ensures forall i, j | 0 <= i < j < |p| :: p[i] != p[j]
    ensures forall i | 0 <= i < |p| :: p[i] in v
  {
    forall i, j | 0 <= i < j < |p|
      ensures p[i] != p[j]
    {
      RankGrows(v, rank, p, i, j);
    }
    forall i | 0 <= i < |p|
      ensures p[i] in v
    {
      if i > 0 {
        assert IsStep(v, p[i - 1], p[i]);
      }
    }
  }

  lemma {:induction false} DistinctIsShort(p: seq<Id>, s: set<Id>)
    requires forall i, j | 0 <= i < j < |p| :: p[i] != p[j]
    requires forall i | 0 <= i < |p| :: p[i] in s
    ensures |p| <= |s|
  {
    if p != [] {
      var n := |p| - 1;
      DistinctIsShort(p[..n], s - {p[n]});
    }
  }

  /** What a recursive query over a forest finds: all paths that begin with one of its first rows. */
  lemma QueryFindsPaths(v: Table, ids: set<Id>, q: seq<Id>)
    requires Forest(v) && ids <= v.Keys
    ensures q in Recursive(v, Starts(ids), |v|) <==> IsPath(v, q) && q[0] in ids
  {
    RecursiveExtends(v, Starts(ids), 1, |v|, q);
    if IsPath(v, q) && q[0] in ids {
      PathsAreShort(v, q);
      assert q[..1] == [q[0]];
    }
    if Extends(v, Starts(ids), 1, |v|, q) {
      assert q[..1] == [q[0]];
    }
  }

  /** There is one path at most from a root to a row. */
  lemma {:induction false} PathIsUnique(v: Table, p: seq<Id>, q: seq<Id>)
    requires IsPath(v, p) && IsPath(v, q) && v[p[0]].parent.None? && v[q[0]].parent.None? && Last(p) == Last(q)
    ensures p == q
    decreases |p|
  {
    LastStep(v, p);
    LastStep(v, q);
    if |p| > 1 && |q| > 1 {
      var m, n := |p| - 1, |q| - 1;
      PathIsUnique(v, p[..m], q[..n]);
      assert p == p[..m] + [p[m]] && q == q[..n] + [q[n]];
    }
  }

  lemma LastStep(v: Table, p: seq<Id>)
    requires IsPath(v, p)
    ensures Last(p) in v && (|p| > 1 ==> v[Last(p)].parent == Some(p[|p| - 2]))
  {
    if |p| > 1 {
      assert IsStep(v, p[|p| - 2], p[|p| - 1]);
    }
  }

  lemma PathExtends(v: Table, p: seq<Id>, id: Id)
    requires IsPath(v, p) && IsStep(v, Last(p), id)
    ensures IsPath(v, p + [id]) && Last(p + [id]) == id
  {
  }

  /** A sub-table of a forest is a forest. */
  lemma SubForest(t: Table, v: Table)
    requires Forest(t) && forall id | id in v :: id in t && v[id] == t[id]
    ensures Forest(v)
  {
    var rank :| Ranked(t, rank);
    assert Ranked(v, rank);
  }
}
