/** The queries behind every listing: the documents of a collection in
    natural order, filtered, and sorted descending on a timestamp. */
module Listing {
  import opened Common
  import opened UserModel
  import opened ProjectModel
  import opened TaskModel

  /** The field a task listing sorts on, newest first. */
  datatype SortField = ByCreatedAt | ByDate

  function Key(t: Task, f: SortField): Time {
    match f
    case ByCreatedAt => t.createdAt
    case ByDate => t.date
  }

  ghost predicate IdsAscending<V>(es: seq<(Id, V)>) {
    forall i, j :: 0 <= i < j < |es| ==> es[i].0 < es[j].0
  }

  ghost predicate DistinctIds<V>(es: seq<(Id, V)>) {
    forall i, j :: 0 <= i < j < |es| ==> es[i].0 != es[j].0
  }

  ghost predicate SortedDesc(es: seq<(Id, Task)>, f: SortField) {
    forall i, j :: 0 <= i < j < |es| ==> Key(es[i].1, f) >= Key(es[j].1, f)
  }

  predicate IsLeast(m: Id, ids: set<Id>) {
    forall y :: y in ids ==> m <= y
  }

  lemma {:induction false} HasLeast(ids: set<Id>)
    requires ids != {}
    ensures exists m :: m in ids && IsLeast(m, ids)
  {
    var x :| x in ids;
    var rest := ids - {x};
    if rest == {} {
      assert IsLeast(x, ids) by {
        forall y | y in ids ensures x <= y { assert y !in rest; }
      }
    } else {
      HasLeast(rest);
      var m :| m in rest && IsLeast(m, rest);
      var least := if x < m then x else m;
      assert IsLeast(least, ids) by {
        forall y | y in ids ensures least <= y {
          if y != x { assert y in rest; }
        }
      }
    }
  }

  /** The least id of a non-empty set. */
  function Least(ids: set<Id>): (m: Id)
    requires ids != {}
    ensures m in ids && forall y :: y in ids ==> m <= y
  {
    HasLeast(ids);
    var m :| m in ids && IsLeast(m, ids);
    m
  }

  /** The ids of a collection in ascending order. Ids are handed out in
      increasing order, so this is insertion order, the order in which an
      unsorted query returns documents. */
  function Ascending(ids: set<Id>): (r: seq<Id>)
    ensures forall i :: 0 <= i < |r| ==> r[i] in ids
    ensures forall x :: x in ids ==> x in r
    ensures forall i, j :: 0 <= i < j < |r| ==> r[i] < r[j]
    decreases ids
  {
    if ids == {} then []
    else
      var m := Least(ids);
      [m] + Ascending(ids - {m})
  }

  /** The documents of `m` under the ids `ids`, in that order. */
  function Pairs<V>(ids: seq<Id>, m: map<Id, V>): (r: seq<(Id, V)>)
    requires forall i :: 0 <= i < |ids| ==> ids[i] in m
    ensures |r| == |ids|
    ensures forall i :: 0 <= i < |r| ==> r[i] == (ids[i], m[ids[i]])
  {
    if ids == [] then [] else [(ids[0], m[ids[0]])] + Pairs(ids[1..], m)
  }

  /** Every document of a collection, with its id, in natural order. */
  function Entries<V>(m: map<Id, V>): (r: seq<(Id, V)>)
    ensures forall i :: 0 <= i < |r| ==> r[i].0 in m && r[i].1 == m[r[i].0]
    ensures forall id :: id in m ==> (id, m[id]) in r
    ensures IdsAscending(r)
  {
    var ids := Ascending(m.Keys);
    var r := Pairs(ids, m);
    EntriesComplete(m, ids, r);
    r
  }

  /** Pairing an ascending list of ids that covers `m` with their documents
      lists every document of `m` once, in ascending id order. */
  lemma EntriesComplete<V>(m: map<Id, V>, ids: seq<Id>, r: seq<(Id, V)>)
    requires forall x :: x in m ==> x in ids
    requires forall i, j :: 0 <= i < j < |ids| ==> ids[i] < ids[j]
    requires |r| == |ids| && forall i :: 0 <= i < |r| ==> ids[i] in m && r[i] == (ids[i], m[ids[i]])
    ensures forall i :: 0 <= i < |r| ==> r[i].0 in m && r[i].1 == m[r[i].0]
    ensures forall id :: id in m ==> (id, m[id]) in r
    ensures IdsAscending(r)
  {
    forall i | 0 <= i < |r| ensures r[i].0 in m && r[i].1 == m[r[i].0] {
      assert r[i] == (ids[i], m[ids[i]]);
    }
    forall i, j | 0 <= i < j < |r| ensures r[i].0 < r[j].0 {
      assert r[i].0 == ids[i] && r[j].0 == ids[j];
    }
    forall id | id in m ensures (id, m[id]) in r {
      var i :| 0 <= i < |ids| && ids[i] == id;
      assert r[i] == (id, m[id]);
    }
  }

  /** The query filter `find(cond)`: the documents satisfying `keep`, in
      the order the collection yields them. */
  function Filter<V>(es: seq<(Id, V)>, keep: V -> bool): (r: seq<(Id, V)>)
    ensures forall x :: x in r ==> x in es && keep(x.1)
    ensures forall x :: x in es && keep(x.1) ==> x in r
  {
    if es == [] then []
    else
      var rest := Filter(es[1..], keep);
      if keep(es[0].1) then [es[0]] + rest else rest
  }

  /** An entry with an id below every id of an ascending listing keeps it
      ascending. */
  lemma ConsAscending<V>(x: (Id, V), es: seq<(Id, V)>)
    requires IdsAscending(es)
    requires forall y :: y in es ==> x.0 < y.0
    ensures IdsAscending([x] + es)
  {
    var r := [x] + es;
    forall i, j | 0 <= i < j < |r| ensures r[i].0 < r[j].0 {
      assert r[j] == es[j - 1] && r[j] in es;
      if i > 0 { assert r[i] == es[i - 1]; }
    }
  }

  /** Filtering keeps the natural order. */
  lemma {:induction false} FilterKeepsIdsAscending<V>(es: seq<(Id, V)>, keep: V -> bool)
    requires IdsAscending(es)
    ensures IdsAscending(Filter(es, keep))
  {
    if es != [] {
      var rest := Filter(es[1..], keep);
      FilterKeepsIdsAscending(es[1..], keep);
      if keep(es[0].1) {
        forall x | x in rest ensures es[0].0 < x.0 {
          var k :| 0 <= k < |es[1..]| && es[1..][k] == x;
          assert es[k + 1] == x;
        }
        ConsAscending(es[0], rest);
      }
    }
  }

  /** A task no older than the head of a sorted listing may precede it. */
  lemma ConsSorted(x: (Id, Task), es: seq<(Id, Task)>, f: SortField)
    requires SortedDesc(es, f)
    requires es == [] || Key(x.1, f) >= Key(es[0].1, f)
    ensures SortedDesc([x] + es, f)
  {
    var r := [x] + es;
    forall i, j | 0 <= i < j < |r| ensures Key(r[i].1, f) >= Key(r[j].1, f) {
      if i == 0 {
        assert r[j] == es[j - 1];
        if j > 1 { assert Key(es[0].1, f) >= Key(es[j - 1].1, f); }
      } else {
        assert r[i] == es[i - 1] && r[j] == es[j - 1];
      }
    }
  }

  /** Inserts one task into a listing already sorted newest first, ahead of
      the tasks with the same key. */
  function Insert(e: (Id, Task), es: seq<(Id, Task)>, f: SortField): (r: seq<(Id, Task)>)
    requires SortedDesc(es, f)
    ensures SortedDesc(r, f)
    ensures multiset(r) == multiset(es) + multiset{e}
    ensures r[0] == e || (es != [] && r[0] == es[0])
    decreases |es|
  {
    if es == [] || Key(e.1, f) >= Key(es[0].1, f) then
      ConsSorted(e, es, f);
      [e] + es
    else
      var rest := Insert(e, es[1..], f);
      ConsSorted(es[0], rest, f);
      assert es == [es[0]] + es[1..];
      [es[0]] + rest
  }

  /** Every element of a sequence occurs in any sequence with the same
      elements counted with multiplicity. */
  lemma SameMultisetSameElements<T>(a: seq<T>, b: seq<T>)
    requires multiset(a) == multiset(b)
    ensures forall x :: x in a <==> x in b
  {
    forall x ensures x in a <==> x in b {
      assert x in a <==> x in multiset(a);
      assert x in b <==> x in multiset(b);
    }
  }

  /** An entry whose id is new to a listing of distinct ids keeps them distinct. */
  lemma ConsDistinct<V>(x: (Id, V), es: seq<(Id, V)>)
    requires DistinctIds(es)
    requires forall y :: y in es ==> y.0 != x.0
    ensures DistinctIds([x] + es)
  {
    var r := [x] + es;
    forall i, j | 0 <= i < j < |r| ensures r[i].0 != r[j].0 {
      assert r[j] == es[j - 1] && r[j] in es;
      if i > 0 { assert r[i] == es[i - 1]; }
    }
  }

  lemma {:induction false} InsertKeepsIdsDistinct(e: (Id, Task), es: seq<(Id, Task)>, f: SortField)
    requires SortedDesc(es, f) && DistinctIds(es)
    requires forall x :: x in es ==> x.0 != e.0
    ensures DistinctIds(Insert(e, es, f))
    decreases |es|
  {
    if es == [] || Key(e.1, f) >= Key(es[0].1, f) {
      ConsDistinct(e, es);
    } else {
      var rest := Insert(e, es[1..], f);
      InsertKeepsIdsDistinct(e, es[1..], f);
      SameMultisetSameElements(rest, es[1..] + [e]);
      forall x | x in rest ensures x.0 != es[0].0 {
        if x != e {
          var k :| 0 <= k < |es[1..]| && es[1..][k] == x;
          assert es[k + 1] == x;
        }
      }
      ConsDistinct(es[0], rest);
    }
  }

  /** `.sort({ field: -1 })`: a permutation of the tasks, newest first. */
  function SortDesc(es: seq<(Id, Task)>, f: SortField): (r: seq<(Id, Task)>)
    ensures SortedDesc(r, f)
    ensures multiset(r) == multiset(es)
  {
    if es == [] then []
    else
      assert es == [es[0]] + es[1..];
      Insert(es[0], SortDesc(es[1..], f), f)
  }

  lemma {:induction false} SortKeepsIdsDistinct(es: seq<(Id, Task)>, f: SortField)
    requires DistinctIds(es)
    ensures DistinctIds(SortDesc(es, f))
  {
    if es != [] {
      var rest := SortDesc(es[1..], f);
      SortKeepsIdsDistinct(es[1..], f);
      SameMultisetSameElements(rest, es[1..]);
      InsertKeepsIdsDistinct(es[0], rest, f);
    }
  }

  /** The task filter: every task, or the tasks of one project. */
  predicate Matches(t: Task, project: Option<Id>) {
    project.None? || t.project == project.value
  }

  /** `r` lists the matching tasks of the collection `m`, each exactly once
      and as stored. */
  ghost predicate ListsExactly(r: seq<(Id, Task)>, m: map<Id, Task>, project: Option<Id>) {
    && (forall i :: 0 <= i < |r| ==> r[i].0 in m && r[i].1 == m[r[i].0] && Matches(r[i].1, project))
    && (forall id :: id in m && Matches(m[id], project) ==> exists i :: 0 <= i < |r| && r[i].0 == id)
    && DistinctIds(r)
  }

  /** Any arrangement of exactly the matching entries, each once, lists the
      matching tasks exactly. */
  lemma ArrangementListsExactly(m: map<Id, Task>, project: Option<Id>, r: seq<(Id, Task)>)
    requires forall x :: x in r ==> x.0 in m && x.1 == m[x.0] && Matches(x.1, project)
    requires forall id :: id in m && Matches(m[id], project) ==> (id, m[id]) in r
    requires DistinctIds(r)
    ensures ListsExactly(r, m, project)
  {
    forall i | 0 <= i < |r|
      ensures r[i].0 in m && r[i].1 == m[r[i].0] && Matches(r[i].1, project)
    {
      assert r[i] in r;
    }
    forall id | id in m && Matches(m[id], project)
      ensures exists i :: 0 <= i < |r| && r[i].0 == id
    {
      var i :| 0 <= i < |r| && r[i] == (id, m[id]);
    }
  }

  /** The tasks of `m` that match, in natural order. */
  function Found(m: map<Id, Task>, project: Option<Id>): (r: seq<(Id, Task)>)
    ensures forall x :: x in r ==> x.0 in m && x.1 == m[x.0] && Matches(x.1, project)
    ensures forall id :: id in m && Matches(m[id], project) ==> (id, m[id]) in r
    ensures DistinctIds(r)
  {
    var all := Entries(m);
    var r := Filter(all, t => Matches(t, project));
    FilterKeepsIdsAscending(all, t => Matches(t, project));
    assert forall x :: x in r ==> x in all;
    r
  }

  /** `Task.find(project ? { project } : {}).sort({ field: -1 })`. */
  function TaskListing(m: map<Id, Task>, project: Option<Id>, f: SortField): (r: seq<(Id, Task)>)
    ensures ListsExactly(r, m, project)
    ensures SortedDesc(r, f)
  {
    var found := Found(m, project);
    SortListsExactly(m, project, found, f);
    SortDesc(found, f)
  }

  /** Sorting a listing of exactly the matching tasks still lists exactly
      them. */
  lemma SortListsExactly(m: map<Id, Task>, project: Option<Id>, found: seq<(Id, Task)>, f: SortField)
    requires forall x :: x in found ==> x.0 in m && x.1 == m[x.0] && Matches(x.1, project)
    requires forall id :: id in m && Matches(m[id], project) ==> (id, m[id]) in found
    requires DistinctIds(found)
    ensures ListsExactly(SortDesc(found, f), m, project)
  {
    var r := SortDesc(found, f);
    SameMultisetSameElements(r, found);
    SortKeepsIdsDistinct(found, f);
    ArrangementListsExactly(m, project, r);
  }

  /** `Project.find({ engineers: who })` or `Project.find({ supervisors: who })`. */
  function ProjectsOf(m: map<Id, Project>, who: Id, role: Role): (r: seq<(Id, Project)>)
    ensures forall i :: 0 <= i < |r| ==> r[i].0 in m && r[i].1 == m[r[i].0] && who in Members(r[i].1, role)
    ensures forall id :: id in m && who in Members(m[id], role) ==> (id, m[id]) in r
    ensures IdsAscending(r)
  {
    var all := Entries(m);
    var r := Filter(all, p => who in Members(p, role));
    FilterKeepsIdsAscending(all, p => who in Members(p, role));
    assert forall i :: 0 <= i < |r| ==> r[i].0 in m && r[i].1 == m[r[i].0] && who in Members(r[i].1, role) by {
      forall i | 0 <= i < |r|
        ensures r[i].0 in m && r[i].1 == m[r[i].0] && who in Members(r[i].1, role)
      {
        assert r[i] in r;
      }
    }
    r
  }

  /** The listing shape of each user in `es`, in the same order. */
  function Views(es: seq<(Id, User)>): (r: seq<UserView>)
    ensures |r| == |es|
    ensures forall i :: 0 <= i < |r| ==> r[i] == View(es[i].0, es[i].1)
    ensures forall x :: x in es ==> View(x.0, x.1) in r
  {
    if es == [] then [] else [View(es[0].0, es[0].1)] + Views(es[1..])
  }

  /** `User.find().select("-password")`: every user once, without the
      password, in natural order. */
  function UserListing(users: map<Id, User>): (r: seq<UserView>)
    ensures forall i :: 0 <= i < |r| ==> r[i].id in users && r[i] == View(r[i].id, users[r[i].id])
    ensures forall id :: id in users ==> View(id, users[id]) in r
    ensures forall i, j :: 0 <= i < j < |r| ==> r[i].id < r[j].id
  {
    Views(Entries(users))
  }
}
