/**
 * The pure computations of the task store: the task record, the status
 * toggle, the normalisation of the list response, and the new-collection
 * computations (append, delete by id, replace by id, filtered view).
 */
module Tasks {
  import opened Wrappers

  /** One to-do record as the server hands it back (`_id` is `id` here). */
  datatype Task = Task(id: string, text: string, status: string, priority: string)

  const Pending := "pending"
  const Completed := "completed"
  const Medium := "medium"
  /** The filter value that lets every task through. */
  const All := "all"

  /** True when some entry of `s` has identity `id`. */
  predicate HasId(s: seq<Task>, id: string) {
    exists i :: 0 <= i < |s| && s[i].id == id
  }

  /** No two entries of `s` share an identity. */
  predicate Distinct(s: seq<Task>) {
    forall i, j :: 0 <= i < j < |s| ==> s[i].id != s[j].id
  }

  // ---------------------------------------------------------------------
  // Requests sent to the server

  /** The body of the create request. */
  datatype NewTask = NewTask(text: string, status: string, priority: string)

  /** A new task is always requested as pending with medium priority. */
  function CreateRequest(text: string): (r: NewTask)
    ensures r.text == text && r.status == Pending && r.priority == Medium
  {
    NewTask(text, Pending, Medium)
  }

  /** The status requested when the user flips a task. */
  function Toggle(current: string): (next: string)
    ensures next == Pending || next == Completed
    ensures next == Completed <==> current == Pending
  {
    if current == Pending then Completed else Pending
  }

  /** On the two statuses a task can have, flipping twice gives the start value. */
  lemma ToggleInvolution(status: string)
    requires status == Pending || status == Completed
    ensures Toggle(status) != status
    ensures Toggle(Toggle(status)) == status
  {
  }

  // ---------------------------------------------------------------------
  // The list response

  /**
   * The parsed body of the list request: a bare array, an object whose
   * `tasks` field is present (Some) or absent or falsy (None), another
   * non-null JSON value (number, string, boolean), or `null`.
   */
  datatype ListBody = Arr(items: seq<Task>) | Obj(tasks: Option<seq<Task>>) | Scalar | Null

  /**
   * The collection a list body yields, or None when reading `tasks` off the
   * body throws (a `null` body).
   */
  function Normalize(body: ListBody): (r: Option<seq<Task>>)
    ensures r.None? <==> body.Null?
    ensures body.Arr? ==> r == Some(body.items)
    ensures body.Obj? && body.tasks.Some? ==> r == Some(body.tasks.value)
    ensures body.Obj? && body.tasks.None? ==> r == Some([])
    ensures body.Scalar? ==> r == Some([])
  {
    match body
    case Arr(items) => Some(items)
    case Obj(field) => Some(field.GetOr([]))
    case Scalar => Some([])
    case Null => None
  }

  // ---------------------------------------------------------------------
  // Add

  /** The collection after a created record is appended. */
  function AppendTask(s: seq<Task>, t: Task): (r: seq<Task>)
    ensures |r| == |s| + 1
    ensures r[..|s|] == s && r[|s|] == t
  {
    s + [t]
  }

  /** Appending keeps identities distinct exactly when the new identity is fresh. */
  lemma AppendDistinct(s: seq<Task>, t: Task)
    requires Distinct(s)
    ensures Distinct(AppendTask(s, t)) <==> !HasId(s, t.id)
  {
    var r := AppendTask(s, t);
    if HasId(s, t.id) {
      var i :| 0 <= i < |s| && s[i].id == t.id;
      assert r[i].id == r[|s|].id;
    }
  }

  // ---------------------------------------------------------------------
  // Delete

  /** The entries of `s` whose identity is not `id`, in their order. */
  function RemoveById(s: seq<Task>, id: string): (r: seq<Task>)
    ensures |r| <= |s|
  {
    if s == [] then []
    else if s[0].id != id then [s[0]] + RemoveById(s[1..], id)
    else RemoveById(s[1..], id)
  }

  /** A delete keeps exactly the entries whose identity differs from `id`. */
  lemma {:induction false} RemoveMembers(s: seq<Task>, id: string)
    ensures forall t :: t in RemoveById(s, id) <==> t in s && t.id != id
  {
    if s != [] {
      RemoveMembers(s[1..], id);
      assert s == [s[0]] + s[1..];
    }
  }

  /** After a delete no entry carries the deleted identity. */
  lemma RemoveLeavesNoMatch(s: seq<Task>, id: string)
    ensures !HasId(RemoveById(s, id), id)
  {
    var r := RemoveById(s, id);
    RemoveMembers(s, id);
    forall i | 0 <= i < |r| ensures r[i].id != id {
      assert r[i] in r;
    }
  }

  /** Deleting distributes over concatenation: relative order is kept. */
  lemma {:induction false} RemoveAppend(a: seq<Task>, b: seq<Task>, id: string)
    ensures RemoveById(a + b, id) == RemoveById(a, id) + RemoveById(b, id)
  {
    if a == [] {
      assert a + b == b;
    } else {
      assert (a + b)[1..] == a[1..] + b;
      RemoveAppend(a[1..], b, id);
    }
  }

  /** Deleting an identity that is not present changes nothing. */
  lemma {:induction false} RemoveAbsent(s: seq<Task>, id: string)
    requires !HasId(s, id)
    ensures RemoveById(s, id) == s
  {
    if s != [] {
      assert s[0].id != id;
      forall i | 0 <= i < |s[1..]| ensures s[1..][i].id != id {
        assert s[1..][i] == s[i + 1];
      }
      RemoveAbsent(s[1..], id);
      assert s == [s[0]] + s[1..];
    }
  }

  /** Deleting twice is deleting once. */
  lemma RemoveIdempotent(s: seq<Task>, id: string)
    ensures RemoveById(RemoveById(s, id), id) == RemoveById(s, id)
  {
    RemoveLeavesNoMatch(s, id);
    RemoveAbsent(RemoveById(s, id), id);
  }

  /** A delete keeps the remaining identities distinct. */
  lemma {:induction false} RemoveKeepsDistinct(s: seq<Task>, id: string)
    requires Distinct(s)
    ensures Distinct(RemoveById(s, id))
  {
    if s != [] {
      var tail := s[1..];
      assert Distinct(tail) by {
        forall i, j | 0 <= i < j < |tail| ensures tail[i].id != tail[j].id {
          assert tail[i] == s[i + 1] && tail[j] == s[j + 1];
        }
      }
      RemoveKeepsDistinct(tail, id);
      RemoveMembers(tail, id);
      if s[0].id != id {
        var rt := RemoveById(tail, id);
        var r := [s[0]] + rt;
        forall k | 0 <= k < |rt| ensures rt[k].id != s[0].id {
          assert rt[k] in rt;
          assert rt[k] in tail;
          var m :| 0 <= m < |tail| && tail[m] == rt[k];
          assert s[m + 1] == rt[k];
        }
        forall i, j | 0 <= i < j < |r| ensures r[i].id != r[j].id {
          if i == 0 {
            assert r[j] == rt[j - 1];
          } else {
            assert r[i] == rt[i - 1] && r[j] == rt[j - 1];
          }
        }
      }
    }
  }

  /**
   * With distinct identities, deleting the identity held at index `k` removes
   * exactly that entry and leaves the rest in place.
   */
  lemma RemoveUnique(s: seq<Task>, id: string, k: nat)
    requires Distinct(s)
    requires k < |s| && s[k].id == id
    ensures RemoveById(s, id) == s[..k] + s[k + 1..]
    ensures |RemoveById(s, id)| == |s| - 1
  {
    OnlyIndexWithId(s, k);
    assert s == s[..k] + [s[k]] + s[k + 1..];
    RemoveSplit(s[..k], s[k], s[k + 1..], id);
  }

  /** Deleting the identity of the only entry that holds it removes just that entry. */
  lemma RemoveSplit(before: seq<Task>, x: Task, after: seq<Task>, id: string)
    requires x.id == id && !HasId(before, id) && !HasId(after, id)
    ensures RemoveById(before + [x] + after, id) == before + after
  {
    RemoveAbsent(before, id);
    RemoveAbsent(after, id);
    RemoveAppend(before + [x], after, id);
    RemoveAppend(before, [x], id);
    assert [x][1..] == [];
  }

  /** With distinct identities the entries before and after index `k` lack its identity. */
  lemma OnlyIndexWithId(s: seq<Task>, k: nat)
    requires Distinct(s)
    requires k < |s|
    ensures !HasId(s[..k], s[k].id) && !HasId(s[k + 1..], s[k].id)
  {
    var before, after := s[..k], s[k + 1..];
    forall i | 0 <= i < |before| ensures before[i].id != s[k].id {
      assert before[i] == s[i];
    }
    forall i | 0 <= i < |after| ensures after[i].id != s[k].id {
      assert after[i] == s[k + 1 + i];
    }
  }

  /** With distinct identities a delete shortens the collection by at most one. */
  lemma RemoveDistinctLength(s: seq<Task>, id: string)
    requires Distinct(s)
    ensures |RemoveById(s, id)| == if HasId(s, id) then |s| - 1 else |s|
  {
    if HasId(s, id) {
      var k :| 0 <= k < |s| && s[k].id == id;
      RemoveUnique(s, id, k);
    } else {
      RemoveAbsent(s, id);
    }
  }

  // ---------------------------------------------------------------------
  // Update (status or priority)

  /**
   * The collection with every entry of identity `id` replaced by `rec`,
   * all other entries untouched at their index.
   */
  function ReplaceById(s: seq<Task>, id: string, rec: Task): (r: seq<Task>)
    ensures |r| == |s|
    ensures forall i :: 0 <= i < |s| ==> r[i] == if s[i].id == id then rec else s[i]
  {
    if s == [] then []
    else [if s[0].id == id then rec else s[0]] + ReplaceById(s[1..], id, rec)
  }

  /** Replacing an identity that is not present changes nothing. */
  lemma ReplaceAbsent(s: seq<Task>, id: string, rec: Task)
    requires !HasId(s, id)
    ensures ReplaceById(s, id, rec) == s
  {
    var r := ReplaceById(s, id, rec);
    forall i | 0 <= i < |s| ensures r[i] == s[i] {
      assert s[i].id != id;
    }
  }

  /** With distinct identities, an update is a single-index sequence update. */
  lemma ReplaceUnique(s: seq<Task>, id: string, rec: Task, k: nat)
    requires Distinct(s)
    requires k < |s| && s[k].id == id
    ensures ReplaceById(s, id, rec) == s[k := rec]
  {
    var r := ReplaceById(s, id, rec);
    forall i | 0 <= i < |s| ensures r[i] == s[k := rec][i] {
      if i != k {
        assert s[i].id != s[k].id;
      }
    }
  }

  /** Replacing twice with the same record is replacing once. */
  lemma ReplaceIdempotent(s: seq<Task>, id: string, rec: Task)
    ensures ReplaceById(ReplaceById(s, id, rec), id, rec) == ReplaceById(s, id, rec)
  {
  }

  /** When the server keeps the identity, an update keeps identities distinct. */
  lemma ReplaceKeepsDistinct(s: seq<Task>, id: string, rec: Task)
    requires Distinct(s) && rec.id == id
    ensures Distinct(ReplaceById(s, id, rec))
  {
    var r := ReplaceById(s, id, rec);
    assert forall i :: 0 <= i < |s| ==> r[i].id == s[i].id;
  }

  // ---------------------------------------------------------------------
  // The filtered view

  /** A task passes the status filter and the priority filter. */
  predicate Matches(t: Task, statusFilter: string, priorityFilter: string) {
    (statusFilter == All || t.status == statusFilter) &&
    (priorityFilter == All || t.priority == priorityFilter)
  }

  /** The tasks that pass both filters, in their order in `s`. */
  function Visible(s: seq<Task>, statusFilter: string, priorityFilter: string): (r: seq<Task>)
    ensures |r| <= |s|
    ensures forall t :: t in r <==> t in s && Matches(t, statusFilter, priorityFilter)
  {
    if s == [] then []
    else if Matches(s[0], statusFilter, priorityFilter)
    then [s[0]] + Visible(s[1..], statusFilter, priorityFilter)
    else Visible(s[1..], statusFilter, priorityFilter)
  }

  /** With both filters at "all" the view is the whole collection. */
  lemma {:induction false} VisibleAllAll(s: seq<Task>)
    ensures Visible(s, All, All) == s
  {
    if s != [] {
      VisibleAllAll(s[1..]);
      assert s == [s[0]] + s[1..];
    }
  }

  /** The view distributes over concatenation: relative order is kept. */
  lemma {:induction false} VisibleAppend(a: seq<Task>, b: seq<Task>, statusFilter: string, priorityFilter: string)
    ensures Visible(a + b, statusFilter, priorityFilter)
         == Visible(a, statusFilter, priorityFilter) + Visible(b, statusFilter, priorityFilter)
  {
    if a == [] {
      assert a + b == b;
    } else {
      assert (a + b)[1..] == a[1..] + b;
      VisibleAppend(a[1..], b, statusFilter, priorityFilter);
    }
  }

  /** A view of one task holds it exactly when it passes the filters. */
  lemma VisibleSingleton(t: Task, statusFilter: string, priorityFilter: string)
    ensures Visible([t], statusFilter, priorityFilter)
         == if Matches(t, statusFilter, priorityFilter) then [t] else []
  {
    assert [t][1..] == [];
  }

  /** Filtering an already filtered view changes nothing. */
  lemma {:induction false} VisibleIdempotent(s: seq<Task>, statusFilter: string, priorityFilter: string)
    ensures Visible(Visible(s, statusFilter, priorityFilter), statusFilter, priorityFilter)
         == Visible(s, statusFilter, priorityFilter)
  {
    if s != [] {
      VisibleIdempotent(s[1..], statusFilter, priorityFilter);
      if Matches(s[0], statusFilter, priorityFilter) {
        var r := [s[0]] + Visible(s[1..], statusFilter, priorityFilter);
        assert r[1..] == Visible(s[1..], statusFilter, priorityFilter);
      }
    }
  }
}
