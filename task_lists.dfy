/**
 * The LINQ and List<T> operations TaskManager.cs applies to its task list:
 * `Any`, `Find`, `Where(...).ToList()`, `Max`, and `Remove` of the first
 * task with a given id. Each works on a sequence of task references in list
 * order; a predicate looks only at a task's property values.
 */
module TaskLists {
  import opened Tasks

  // The lambdas of TaskManager.cs, one per query.

  function IdIs(taskId: int): (p: TaskData -> bool) { (d: TaskData) => d.id == taskId }
  function TitleIs(title: string): (p: TaskData -> bool) { (d: TaskData) => d.title == title }
  function DueOn(date: Tick): (p: TaskData -> bool) { (d: TaskData) => d.dueDate == date }
  function CompletionIs(status: bool): (p: TaskData -> bool) { (d: TaskData) => d.isComplete == status }

  /** `sub` is `s` with some elements left out and the rest in their original order. */
  predicate IsSubsequence<T(==)>(sub: seq<T>, s: seq<T>)
    decreases |s|
  {
    if sub == [] then true
    else if s == [] then false
    else (sub[0] == s[0] && IsSubsequence(sub[1..], s[1..])) || IsSubsequence(sub, s[1..])
  }

  /** The property values of every task, in list order: what the JSON serializer writes. */
  function Snapshot(ts: seq<TaskBase>): (s: seq<TaskData>)
    reads ts
    ensures |s| == |ts|
    ensures forall i :: 0 <= i < |ts| ==> s[i] == ts[i].Data()
  {
    if ts == [] then [] else [ts[0].Data()] + Snapshot(ts[1..])
  }

  /** No element occurs at two positions: each position holds its own object. */
  predicate Distinct<T(==)>(s: seq<T>)
  {
    forall i, j :: 0 <= i < j < |s| ==> s[i] != s[j]
  }

  /** `Any`: some task satisfies p. */
  predicate Any(ts: seq<TaskBase>, p: TaskData -> bool)
    reads ts
    ensures Any(ts, p) <==> exists t :: t in ts && p(t.Data())
  {
    exists i :: 0 <= i < |ts| && p(ts[i].Data())
  }

  /** `FindIndex`: the position of the first task satisfying p, or -1. */
  function FindIndex(ts: seq<TaskBase>, p: TaskData -> bool): (r: int)
    reads ts
    ensures -1 <= r < |ts|
    ensures r >= 0 ==> p(ts[r].Data())
    ensures forall j :: 0 <= j < |ts| && (r == -1 || j < r) ==> !p(ts[j].Data())
  {
    if ts == [] then -1
    else if p(ts[0].Data()) then 0
    else
      var k := FindIndex(ts[1..], p);
      if k < 0 then -1 else k + 1
  }

  /** `Find`: the first task satisfying p, or null; null exactly when no task does. */
  function Find(ts: seq<TaskBase>, p: TaskData -> bool): (r: TaskBase?)
    reads ts
    ensures r == null <==> !Any(ts, p)
    ensures r != null ==> r in ts && p(r.Data())
    ensures r != null ==> exists i :: 0 <= i < |ts| && ts[i] == r && forall j :: 0 <= j < i ==> !p(ts[j].Data())
  {
    var i := FindIndex(ts, p);
    if i < 0 then null
    else
      assert ts[i] in ts;
      ts[i]
  }

  /** `Where(p).ToList()`: exactly the tasks satisfying p, in list order. */
  function Where(ts: seq<TaskBase>, p: TaskData -> bool): (r: seq<TaskBase>)
    reads ts
    ensures IsSubsequence(r, ts)
    ensures forall t :: t in r ==> t in ts && p(t.Data())
    ensures forall t :: t in ts && p(t.Data()) ==> t in r
  {
    if ts == [] then []
    else if p(ts[0].Data()) then [ts[0]] + Where(ts[1..], p)
    else Where(ts[1..], p)
  }

  /** Each task occurs in the result as often as in the list when it satisfies p, and not at all otherwise. */
  lemma {:induction false} WhereCounts(ts: seq<TaskBase>, p: TaskData -> bool)
    ensures forall t :: t in ts ==> multiset(Where(ts, p))[t] == if p(t.Data()) then multiset(ts)[t] else 0
  {
    if ts != [] {
      WhereCounts(ts[1..], p);
      assert ts == [ts[0]] + ts[1..];
      forall t | t in ts
        ensures multiset(Where(ts, p))[t] == if p(t.Data()) then multiset(ts)[t] else 0
      {
        if t !in ts[1..] {
          assert multiset(ts[1..])[t] == 0;
          assert multiset(Where(ts[1..], p))[t] == 0;
        }
      }
    }
  }

  /** Filtering a concatenation filters each part: Where keeps the relative order of the list. */
  lemma {:induction false} WhereAppend(a: seq<TaskBase>, b: seq<TaskBase>, p: TaskData -> bool)
    ensures Where(a + b, p) == Where(a, p) + Where(b, p)
  {
    if a == [] {
      assert a + b == b;
    } else {
      assert (a + b)[0] == a[0];
      assert (a + b)[1..] == a[1..] + b;
      WhereAppend(a[1..], b, p);
    }
  }

  /** A filter and its complement split the list: every task lands in exactly one of the two results. */
  lemma {:induction false} WhereComplement(ts: seq<TaskBase>, p: TaskData -> bool, q: TaskData -> bool)
    requires forall d :: q(d) == !p(d)
    ensures multiset(Where(ts, p)) + multiset(Where(ts, q)) == multiset(ts)
    ensures |Where(ts, p)| + |Where(ts, q)| == |ts|
  {
    if ts != [] {
      WhereComplement(ts[1..], p, q);
      assert ts == [ts[0]] + ts[1..];
    }
  }

  /** When no task satisfies p the result is empty; when every task does it is the whole list. */
  lemma {:induction false} WhereNoneOrAll(ts: seq<TaskBase>, p: TaskData -> bool)
    ensures !Any(ts, p) ==> Where(ts, p) == []
    ensures (forall t :: t in ts ==> p(t.Data())) ==> Where(ts, p) == ts
  {
    if ts != [] {
      WhereNoneOrAll(ts[1..], p);
      if !Any(ts, p) {
        assert !Any(ts[1..], p) by {
          forall t | t in ts[1..] ensures !p(t.Data()) { assert t in ts; }
        }
      }
      if forall t :: t in ts ==> p(t.Data()) {
        assert forall t :: t in ts[1..] ==> t in ts;
        assert [ts[0]] + ts[1..] == ts;
      }
    }
  }

  /** `Max(task => task.TaskId)` of a non-empty list: an id of the list that no id exceeds. */
  function MaxId(ts: seq<TaskBase>): (m: int)
    requires ts != []
    reads ts
    ensures forall t :: t in ts ==> t.taskId <= m
    ensures exists t :: t in ts && t.taskId == m
  {
    if |ts| == 1 then
      assert ts[0] in ts;
      ts[0].taskId
    else
      var rest := MaxId(ts[1..]);
      assert forall t :: t in ts ==> t == ts[0] || t in ts[1..];
      if ts[0].taskId >= rest then ts[0].taskId else rest
  }

  /** No two tasks of the list share an id. */
  predicate UniqueIds(ts: seq<TaskBase>)
    reads ts
  {
    forall i, j :: 0 <= i < j < |ts| ==> ts[i].taskId != ts[j].taskId
  }

  /** `List.IndexOf`: the first position holding this very reference, or -1. */
  function IndexOfRef(ts: seq<TaskBase>, x: TaskBase): (r: int)
    ensures -1 <= r < |ts|
    ensures r >= 0 ==> ts[r] == x
    ensures forall j :: 0 <= j < |ts| && (r == -1 || j < r) ==> ts[j] != x
  {
    if ts == [] then -1
    else if ts[0] == x then 0
    else
      var k := IndexOfRef(ts[1..], x);
      if k < 0 then -1 else k + 1
  }

  /** `Remove(Find(id))`: the list without its first task of that id, or unchanged when there is none. */
  function WithoutFirstId(ts: seq<TaskBase>, taskId: int): (r: seq<TaskBase>)
    reads ts
    ensures Any(ts, IdIs(taskId)) ==> |r| == |ts| - 1
    ensures !Any(ts, IdIs(taskId)) ==> r == ts
    ensures IsSubsequence(r, ts)
    ensures forall t :: t in ts && t.taskId != taskId ==> t in r
    ensures forall t :: t in r ==> t in ts
    ensures Any(ts, IdIs(taskId)) ==>
              r == ts[..FindIndex(ts, IdIs(taskId))] + ts[FindIndex(ts, IdIs(taskId)) + 1..]
  {
    var target := Find(ts, IdIs(taskId));
    if target == null then
      SubsequenceReflexive(ts);
      ts
    else
      var i := IndexOfRef(ts, target);
      FirstReferenceIsFirstMatch(ts, taskId);
      DropIsSubsequence(ts, i);
      assert forall t :: t in ts && t.taskId != taskId ==> t in ts[..i] + ts[i + 1..] by {
        forall t | t in ts && t.taskId != taskId ensures t in ts[..i] + ts[i + 1..] {
          var k :| 0 <= k < |ts| && ts[k] == t;
          if k < i { assert ts[..i][k] == t; } else { assert ts[i + 1..][k - i - 1] == t; }
        }
      }
      ts[..i] + ts[i + 1..]
  }

  /** Removing the first match by reference removes the first task of that id. */
  lemma FirstReferenceIsFirstMatch(ts: seq<TaskBase>, taskId: int)
    requires Any(ts, IdIs(taskId))
    ensures Find(ts, IdIs(taskId)) != null
    ensures IndexOfRef(ts, Find(ts, IdIs(taskId))) == FindIndex(ts, IdIs(taskId))
  {
  }

  lemma {:induction false} DropIsSubsequence<T>(s: seq<T>, i: nat)
    requires i < |s|
    ensures IsSubsequence(s[..i] + s[i + 1..], s)
  {
    if i == 0 {
      assert s[..0] + s[1..] == s[1..];
      SubsequenceReflexive(s[1..]);
    } else {
      assert (s[..i] + s[i + 1..])[0] == s[0];
      assert (s[..i] + s[i + 1..])[1..] == s[1..][..i - 1] + s[1..][i..];
      DropIsSubsequence(s[1..], i - 1);
    }
  }

  lemma {:induction false} SubsequenceReflexive<T>(s: seq<T>)
    ensures IsSubsequence(s, s)
  {
    if s != [] {
      SubsequenceReflexive(s[1..]);
    }
  }

  /** With unique ids, deleting the first task of an id leaves no task with that id. */
  lemma RemovedIdIsGone(ts: seq<TaskBase>, taskId: int)
    requires UniqueIds(ts)
    ensures !Any(WithoutFirstId(ts, taskId), IdIs(taskId))
  {
    if Any(ts, IdIs(taskId)) {
      FirstReferenceIsFirstMatch(ts, taskId);
      var i := FindIndex(ts, IdIs(taskId));
      var r := WithoutFirstId(ts, taskId);
      assert r == ts[..i] + ts[i + 1..];
      forall k | 0 <= k < |r| ensures !IdIs(taskId)(r[k].Data()) {
        var j := if k < i then k else k + 1;
        assert r[k] == ts[j];
        assert ts[i].taskId == taskId;
      }
    }
  }

  /** Deleting keeps ids unique and takes no id above a bound that the list kept. */
  lemma WithoutFirstIdKeepsIds(ts: seq<TaskBase>, taskId: int, bound: int)
    ensures UniqueIds(ts) ==> UniqueIds(WithoutFirstId(ts, taskId))
    ensures (forall t :: t in ts ==> t.taskId <= bound) ==> forall t :: t in WithoutFirstId(ts, taskId) ==> t.taskId <= bound
  {
    if Any(ts, IdIs(taskId)) && UniqueIds(ts) {
      var i := FindIndex(ts, IdIs(taskId));
      DropKeepsUniqueIds(ts, i);
    }
  }

  /** Taking one task out of a list with unique ids leaves unique ids. */
  lemma DropKeepsUniqueIds(ts: seq<TaskBase>, i: nat)
    requires i < |ts| && UniqueIds(ts)
    ensures UniqueIds(ts[..i] + ts[i + 1..])
  {
    var r := ts[..i] + ts[i + 1..];
    forall a, b | 0 <= a < b < |r| ensures r[a].taskId != r[b].taskId {
      var a' := if a < i then a else a + 1;
      var b' := if b < i then b else b + 1;
      assert r[a] == ts[a'] && r[b] == ts[b'];
    }
  }

  /** Appending a task whose id exceeds every id of a list with unique ids keeps them unique. */
  lemma AppendKeepsUniqueIds(ts: seq<TaskBase>, t: TaskBase)
    requires UniqueIds(ts)
    requires forall u :: u in ts ==> u.taskId < t.taskId
    ensures UniqueIds(ts + [t])
  {
    var r := ts + [t];
    forall a, b | 0 <= a < b < |r| ensures r[a].taskId != r[b].taskId {
      assert r[a] in ts;
    }
  }
}
