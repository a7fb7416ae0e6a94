/**
 * The task records the component holds and the list expressions its handlers
 * build the next list with: prepend (`[task, ...tasks]`), remove by id
 * (`tasks.filter(t => t._id !== id)`) and replace by id
 * (`tasks.map(t => t._id === id ? updated : t)`).
 */
module TaskList {

  /** One task as the task service returns it. `id` is the wire key `_id`,
      assigned by the server. */
  datatype Task = Task(id: string, title: string, completed: bool)

  /** The ids present in a list. */
  function Ids(tasks: seq<Task>): set<string> {
    set t | t in tasks :: t.id
  }

  /** No two positions of the list carry the same id. */
  predicate UniqueIds(tasks: seq<Task>) {
    forall i, j :: 0 <= i < j < |tasks| ==> tasks[i].id != tasks[j].id
  }

  /** `a` is `b` with some elements dropped and the rest in the same order. */
  predicate IsSubsequence(a: seq<Task>, b: seq<Task>)
    decreases |b|
  {
    if a == [] then true
    else if b == [] then false
    else (a[0] == b[0] && IsSubsequence(a[1..], b[1..])) || IsSubsequence(a, b[1..])
  }

  /** How many positions of the list carry `id`. */
  function CountId(tasks: seq<Task>, id: string): (n: nat)
    ensures n <= |tasks|
  {
    if tasks == [] then 0
    else (if tasks[0].id == id then 1 else 0) + CountId(tasks[1..], id)
  }

  /** `tasks.filter(t => t._id !== id)`: no kept element carries the id, and
      exactly the matching elements are gone. */
  function RemoveById(tasks: seq<Task>, id: string): (r: seq<Task>)
    ensures |r| == |tasks| - CountId(tasks, id)
    ensures forall i :: 0 <= i < |r| ==> r[i].id != id
  {
    if tasks == [] then []
    else if tasks[0].id != id then [tasks[0]] + RemoveById(tasks[1..], id)
    else RemoveById(tasks[1..], id)
  }

  /** `tasks.map(t => t._id === id ? updated : t)`: same length, `updated`
      at every position holding `id`, every other position untouched. */
  function ReplaceById(tasks: seq<Task>, id: string, updated: Task): (r: seq<Task>)
    ensures |r| == |tasks|
    ensures forall i :: 0 <= i < |tasks| ==>
              r[i] == (if tasks[i].id == id then updated else tasks[i])
  {
    if tasks == [] then []
    else [if tasks[0].id == id then updated else tasks[0]] + ReplaceById(tasks[1..], id, updated)
  }

  /** No position carries the id exactly when the id is absent. */
  lemma {:induction false} CountIdZero(tasks: seq<Task>, id: string)
    ensures CountId(tasks, id) == 0 <==> id !in Ids(tasks)
  {
    if tasks != [] {
      CountIdZero(tasks[1..], id);
      assert Ids(tasks) == {tasks[0].id} + Ids(tasks[1..]) by {
        assert forall t :: t in tasks <==> t == tasks[0] || t in tasks[1..];
      }
    }
  }

  /** The kept elements are exactly the elements whose id differs. */
  lemma {:induction false} RemoveByIdMembers(tasks: seq<Task>, id: string)
    ensures forall t :: t in RemoveById(tasks, id) <==> t in tasks && t.id != id
  {
    if tasks != [] {
      RemoveByIdMembers(tasks[1..], id);
      assert forall t :: t in tasks <==> t == tasks[0] || t in tasks[1..];
    }
  }

  /** A list with unique ids stays so when a task with a fresh id is put in
      front of it, and only then. */
  lemma PrependKeepsUniqueIds(t: Task, tasks: seq<Task>)
    ensures UniqueIds([t] + tasks) <==> t.id !in Ids(tasks) && UniqueIds(tasks)
  {
    var s := [t] + tasks;
    if UniqueIds(s) {
      forall j | 0 <= j < |tasks| ensures tasks[j].id != t.id {
        assert s[0] == t && s[j + 1] == tasks[j];
      }
      forall i, j | 0 <= i < j < |tasks| ensures tasks[i].id != tasks[j].id {
        assert s[i + 1] == tasks[i] && s[j + 1] == tasks[j];
      }
    }
    if t.id !in Ids(tasks) && UniqueIds(tasks) {
      forall i, j | 0 <= i < j < |s| ensures s[i].id != s[j].id {
        assert s[j] == tasks[j - 1];
        if i == 0 {
          assert tasks[j - 1] in tasks;
        } else {
          assert s[i] == tasks[i - 1];
        }
      }
    }
  }

  /** Removing an id the list does not hold changes nothing. */
  lemma {:induction false} RemoveAbsentId(tasks: seq<Task>, id: string)
    requires id !in Ids(tasks)
    ensures RemoveById(tasks, id) == tasks
  {
    if tasks != [] {
      assert tasks[0] in tasks;
      assert Ids(tasks[1..]) <= Ids(tasks);
      RemoveAbsentId(tasks[1..], id);
      assert tasks == [tasks[0]] + tasks[1..];
    }
  }

  /** The kept elements are in their original relative order. */
  lemma {:induction false} RemoveByIdKeepsOrder(tasks: seq<Task>, id: string)
    ensures IsSubsequence(RemoveById(tasks, id), tasks)
  {
    if tasks != [] {
      var rest := RemoveById(tasks[1..], id);
      RemoveByIdKeepsOrder(tasks[1..], id);
      if tasks[0].id != id {
        var r := [tasks[0]] + rest;
        assert r[0] == tasks[0] && r[1..] == rest;
      }
    }
  }

  /** Filtering a concatenation filters each part. */
  lemma {:induction false} RemoveByIdConcat(a: seq<Task>, b: seq<Task>, id: string)
    ensures RemoveById(a + b, id) == RemoveById(a, id) + RemoveById(b, id)
  {
    if a != [] {
      assert (a + b)[0] == a[0] && (a + b)[1..] == a[1..] + b;
      RemoveByIdConcat(a[1..], b, id);
    } else {
      assert a + b == b;
    }
  }

  /** With unique ids, removing the id found at position `k` drops exactly
      that element: the list shrinks by one and the rest keeps its order. */
  lemma RemoveUniqueId(tasks: seq<Task>, k: nat)
    requires UniqueIds(tasks) && k < |tasks|
    ensures RemoveById(tasks, tasks[k].id) == tasks[..k] + tasks[k + 1..]
    ensures |RemoveById(tasks, tasks[k].id)| == |tasks| - 1
  {
    var id, before, after := tasks[k].id, tasks[..k], tasks[k + 1..];
    assert id !in Ids(before) by {
      forall t | t in before ensures t.id != id {
        var i :| 0 <= i < k && before[i] == t;
      }
    }
    assert id !in Ids(after) by {
      forall t | t in after ensures t.id != id {
        var i :| 0 <= i < |after| && after[i] == t;
        assert after[i] == tasks[k + 1 + i];
      }
    }
    assert tasks == before + ([tasks[k]] + after);
    RemoveByIdConcat(before, [tasks[k]] + after, id);
    RemoveByIdConcat([tasks[k]], after, id);
    RemoveAbsentId(before, id);
    RemoveAbsentId(after, id);
    assert RemoveById([tasks[k]], id) == [];
  }

  /** With unique ids, an id the list holds sits at exactly one position. */
  lemma CountUniqueId(tasks: seq<Task>, id: string)
    requires UniqueIds(tasks) && id in Ids(tasks)
    ensures CountId(tasks, id) == 1
  {
    var k :| 0 <= k < |tasks| && tasks[k].id == id;
    RemoveUniqueId(tasks, k);
  }

  /** Removing by id never introduces a duplicate id. */
  lemma {:induction false} RemoveByIdKeepsUniqueIds(tasks: seq<Task>, id: string)
    requires UniqueIds(tasks)
    ensures UniqueIds(RemoveById(tasks, id))
  {
    if tasks != [] {
      PrependKeepsUniqueIds(tasks[0], tasks[1..]);
      assert [tasks[0]] + tasks[1..] == tasks;
      var rest := RemoveById(tasks[1..], id);
      RemoveByIdKeepsUniqueIds(tasks[1..], id);
      if tasks[0].id != id {
        RemoveByIdMembers(tasks[1..], id);
        assert Ids(rest) <= Ids(tasks[1..]);
        PrependKeepsUniqueIds(tasks[0], rest);
      }
    }
  }

  /** Replacing an id the list does not hold changes nothing. */
  lemma ReplaceAbsentId(tasks: seq<Task>, id: string, updated: Task)
    requires id !in Ids(tasks)
    ensures ReplaceById(tasks, id, updated) == tasks
  {
  }

  /** With unique ids, replacing the id found at position `k` is a
      single-position update. */
  lemma ReplaceUniqueId(tasks: seq<Task>, k: nat, updated: Task)
    requires UniqueIds(tasks) && k < |tasks|
    ensures ReplaceById(tasks, tasks[k].id, updated) == tasks[k := updated]
  {
  }

  /** When the replacement keeps the id it replaces, the list keeps the same
      set of ids and stays free of duplicates. */
  lemma ReplaceSameIdKeepsIds(tasks: seq<Task>, id: string, updated: Task)
    requires updated.id == id
    ensures Ids(ReplaceById(tasks, id, updated)) == Ids(tasks)
    ensures UniqueIds(tasks) ==> UniqueIds(ReplaceById(tasks, id, updated))
  {
  }

  /** Marking the task at position `k` with its flag negated, when the ids
      are unique and the server echoes the task with only the flag flipped,
      flips that one flag and leaves every other task where it was. */
  lemma ToggleFlipsOnlyTarget(tasks: seq<Task>, k: nat)
    requires UniqueIds(tasks) && k < |tasks|
    ensures var t := tasks[k];
            var r := ReplaceById(tasks, t.id, t.(completed := !t.completed));
            && |r| == |tasks|
            && r[k].completed == !tasks[k].completed
            && r[k].id == tasks[k].id && r[k].title == tasks[k].title
            && forall i :: 0 <= i < |tasks| && i != k ==> r[i] == tasks[i]
  {
  }
}
