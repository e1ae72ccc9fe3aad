/** The per-user task lists of the progress and time services: `global_task_list` with the add,
    remove and list functions of progress_tasks/src/progress_based_task.cpp and
    time_tasks/src/time_based_watch.cpp.
 */
module Registry {
  import opened Options
  import opened Sequences
  import opened Tasks
  import opened Wire

  datatype Kind = Progress | Timed

  // What a watcher wrapper holds: the task of its `m_impl`, if there still is one.
  datatype Handle = Handle(impl: Option<Task>)

  const EMPTY_TASK := Task("", "", [], TRADE_TYPE_TOTAL, EXCHANGE_TOTAL, None, None, 0, 0)

  // `task_data()`
  function TaskData(h: Handle): Task {
    match h.impl
    case Some(t) => t
    case None => EMPTY_TASK
  }

  // The lists, and what every wrapper stopped so far held until then.
  datatype Registered = Registered(lists: map<string, seq<Handle>>, stopped: seq<Handle>)

  function ListOf(r: Registered, user: string): seq<Handle> {
    if user in r.lists then r.lists[user] else []
  }

  function Matches(user: string, taskId: string): Handle -> bool {
    (h: Handle) => TaskData(h).userId == user && TaskData(h).taskId == taskId
  }

  function Added(r: Registered, t: Task): Registered {
    r.(lists := r.lists[t.userId := ListOf(r, t.userId) + [Handle(Some(t))]])
  }

  // All matching handles out, each stopped once, in list order.
  function Removed(r: Registered, user: string, taskId: string): Registered {
    Registered(r.lists[user := Filter(ListOf(r, user), Not(Matches(user, taskId)))],
               r.stopped + Filter(ListOf(r, user), Matches(user, taskId)))
  }

  // A wrapper of another task, or an empty one.
  function Other(user: string, taskId: string): Handle -> bool {
    (h: Handle) => TaskData(h).userId != user || TaskData(h).taskId != taskId
  }

  lemma MatchesIsSame(user: string, taskId: string)
    ensures forall h :: Matches(user, taskId)(h) <==> !Other(user, taskId)(h)
  {
  }

  ghost predicate Holds(r: Registered, user: string, taskId: string) {
    exists u, i :: u in r.lists && 0 <= i < |r.lists[u]| && !Other(user, taskId)(r.lists[u][i])
  }

  // What the wire conversion of the service asks of a task.
  predicate HasProp(kind: Kind, t: Task) {
    if kind.Progress? then t.percentProp.Some? else t.timeProp.Some?
  }

  // Every listed handle holds a task of its user that the service can convert.
  ghost predicate WellFormed(kind: Kind, r: Registered) {
    forall u :: u in r.lists ==> forall i :: 0 <= i < |r.lists[u]| ==>
      var h := r.lists[u][i];
      h.impl.Some? && h.impl.value.userId == u && HasProp(kind, h.impl.value)
  }

  lemma AddedWellFormed(kind: Kind, r: Registered, t: Task)
    requires WellFormed(kind, r) && HasProp(kind, t)
    ensures WellFormed(kind, Added(r, t))
  {
  }

  /** Removal takes exactly the wrappers of that user and task id out of that user's list, in order and
      into what is stopped, and leaves other users' lists alone; so none is left in any list. */
  lemma RemovedHoldsNothing(kind: Kind, r: Registered, user: string, taskId: string)
    requires WellFormed(kind, r)
    ensures WellFormed(kind, Removed(r, user, taskId))
    ensures !Holds(Removed(r, user, taskId), user, taskId)
    ensures forall u :: u != user ==> ListOf(Removed(r, user, taskId), u) == ListOf(r, u)
    ensures ListOf(Removed(r, user, taskId), user) == Filter(ListOf(r, user), Other(user, taskId))
    ensures Removed(r, user, taskId).stopped == r.stopped + Filter(ListOf(r, user), Not(Other(user, taskId)))
  {
    var list, p, other := ListOf(r, user), Matches(user, taskId), Other(user, taskId);
    MatchesIsSame(user, taskId);
    FilterSame(list, Not(p), other);
    FilterSame(list, p, Not(other));
    var rest := Filter(list, other);
    FilterHolds(list, other);
    hide Filter;
    assert forall i :: 0 <= i < |rest| ==> rest[i] in rest;
  }

  // ---------------------------------------------------------------- the loops

  // One turn of the removal loop: the first match goes.
  lemma EraseFirst(list: seq<Handle>, i: nat, p: Handle -> bool)
    requires i < |list| && p(list[i]) && forall j :: 0 <= j < i ==> !p(list[j])
    ensures Filter(list, p) == [list[i]] + Filter(list[..i] + list[i + 1..], p)
    ensures Filter(list, Not(p)) == Filter(list[..i] + list[i + 1..], Not(p))
  {
    hide Filter;
    FilterErase(list, i, p);
    FilterErase(list, i, Not(p));
    FilterNone(list[..i], p);
  }

  // How far a removal is: the matching handles stopped so far, then those still listed, are all of them.
  ghost predicate Removing(before: Registered, now: Registered, user: string, p: Handle -> bool) {
    && user in now.lists && now.lists == before.lists[user := now.lists[user]]
    && Filter(now.lists[user], Not(p)) == Filter(ListOf(before, user), Not(p))
    && now.stopped + Filter(now.lists[user], p) == before.stopped + Filter(ListOf(before, user), p)
  }

  lemma RemovingStarts(before: Registered, user: string, p: Handle -> bool)
    ensures Removing(before, before.(lists := before.lists[user := ListOf(before, user)]), user, p)
  {
  }

  lemma RemovingTurn(before: Registered, now: Registered, user: string, p: Handle -> bool, i: nat)
    requires Removing(before, now, user, p)
    requires var list := now.lists[user]; i < |list| && p(list[i]) && forall j :: 0 <= j < i ==> !p(list[j])
    ensures var list := now.lists[user];
            Removing(before, Registered(now.lists[user := list[..i] + list[i + 1..]], now.stopped + [list[i]]), user, p)
  {
    hide Filter;
    var list := now.lists[user];
    EraseFirst(list, i, p);
    Associate(now.stopped, [list[i]], Filter(list[..i] + list[i + 1..], p));
  }

  lemma RemovingEnds(before: Registered, now: Registered, user: string, p: Handle -> bool)
    requires Removing(before, now, user, p) && forall j :: 0 <= j < |now.lists[user]| ==> !p(now.lists[user][j])
    ensures now == Registered(before.lists[user := Filter(ListOf(before, user), Not(p))],
                              before.stopped + Filter(ListOf(before, user), p))
  {
    FilterNone(now.lists[user], p);
    FilterAll(now.lists[user], Not(p));
    assert now.stopped + [] == now.stopped;
  }

  /** `progress_based_watch_price_t` and `time_based_watch_price_t`: both stop the watcher they hold,
      and the progress wrapper then lets go of it. */
  class Wrapper {
    const kind: Kind
    var impl: Option<Task>
    ghost var stops: nat    // how often a watcher it held was stopped

    constructor (kind: Kind, t: Task)
      ensures this.kind == kind && impl == Some(t) && stops == 0
    {
      this.kind, impl, stops := kind, Some(t), 0;
    }

    method Stop()
      modifies this
      ensures impl == if kind.Progress? then None else old(impl)
      ensures stops == old(stops) + if old(impl).Some? then 1 else 0
    {
      if impl.Some? {
        stops := stops + 1;
        if kind.Progress? {
          impl := None;
        }
      }
    }
  }

  // A list as a service keeps it: different wrappers of one user, each with a task that the service
  // can convert, none of them ever stopped; `handles` is what they hold.
  ghost predicate Listed(kind: Kind, user: string, list: seq<Wrapper>, handles: seq<Handle>)
    reads list
  {
    && Distinct(list) && |handles| == |list|
    && forall i :: 0 <= i < |list| ==>
         && list[i].kind == kind && list[i].stops == 0
         && list[i].impl.Some? && list[i].impl.value.userId == user && HasProp(kind, list[i].impl.value)
         && handles[i] == Handle(list[i].impl)
  }

  // What was taken out of the lists: each wrapper stopped once, and those of the progress service
  // empty; `handles` is what they held until then.
  ghost predicate Ended(kind: Kind, erased: seq<Wrapper>, handles: seq<Handle>)
    reads erased
  {
    && Distinct(erased) && |handles| == |erased|
    && forall i :: 0 <= i < |erased| ==>
         && erased[i].stops == 1
         && erased[i].impl == if kind.Progress? then None else handles[i].impl
  }

  ghost predicate Inside(list: seq<Wrapper>, repr: set<Wrapper>) {
    forall i :: 0 <= i < |list| ==> list[i] in repr
  }

  lemma InsideGrows(lists: map<string, seq<Wrapper>>, erased: seq<Wrapper>, repr: set<Wrapper>, w: Wrapper)
    requires Inside(erased, repr) && forall u :: u in lists ==> Inside(lists[u], repr)
    ensures Inside(erased, repr + {w}) && forall u :: u in lists ==> Inside(lists[u], repr + {w})
    ensures forall u :: u in lists && w !in repr ==> w !in lists[u]
  {
  }

  lemma InsideChanges(list: seq<Wrapper>, repr: set<Wrapper>, w: Wrapper, i: nat)
    requires Inside(list, repr)
    ensures Inside(list, repr + {w}) && Inside(list + [w], repr + {w})
    ensures w in repr ==> Inside(list + [w], repr)
    ensures i < |list| ==> list[i] in repr && Inside(list[..i] + list[i + 1..], repr)
  {
  }

  lemma NothingListed(kind: Kind, user: string)
    ensures Listed(kind, user, [], [])
  {
  }

  lemma AppendListed(kind: Kind, user: string, list: seq<Wrapper>, handles: seq<Handle>, w: Wrapper)
    requires Listed(kind, user, list, handles) && w !in list
    requires w.kind == kind && w.stops == 0 && w.impl.Some? && w.impl.value.userId == user && HasProp(kind, w.impl.value)
    ensures Listed(kind, user, list + [w], handles + [Handle(w.impl)])
  {
  }

  lemma EraseListed(kind: Kind, user: string, list: seq<Wrapper>, handles: seq<Handle>, i: nat)
    requires Listed(kind, user, list, handles) && i < |list|
    ensures var rest := list[..i] + list[i + 1..];
            Listed(kind, user, rest, handles[..i] + handles[i + 1..]) && list[i] !in rest
    ensures |handles| == |list| && list[i].stops == 0 && list[i].kind == kind
    ensures list[i].impl.Some? && handles[i] == Handle(list[i].impl)
  {
  }

  lemma EndedMore(kind: Kind, erased: seq<Wrapper>, handles: seq<Handle>, w: Wrapper, held: Handle)
    requires Ended(kind, erased, handles) && w !in erased
    requires w.stops == 1 && w.impl == if kind.Progress? then None else held.impl
    ensures Ended(kind, erased + [w], handles + [held])
  {
  }

  method FindIf(list: seq<Wrapper>, ghost handles: seq<Handle>, user: string, taskId: string) returns (i: nat)
    requires |handles| == |list| && forall j :: 0 <= j < |list| ==> handles[j] == Handle(list[j].impl)
    ensures i <= |list|
    ensures forall j :: 0 <= j < i ==> !Matches(user, taskId)(handles[j])
    ensures i < |list| ==> Matches(user, taskId)(handles[i])
  {
    i := 0;
    while i < |list|
      invariant i <= |list|
      invariant forall j :: 0 <= j < i ==> !Matches(user, taskId)(handles[j])
    {
      var data := TaskData(Handle(list[i].impl));
      if data.userId == user && data.taskId == taskId {
        return;
      }
      i := i + 1;
    }
  }

  class TaskRegistry {
    const kind: Kind
    var lists: map<string, seq<Wrapper>>
    ghost var erased: seq<Wrapper>
    ghost var view: Registered
    ghost var repr: set<Wrapper>

    /** The lists hold what `view` says, every listed wrapper still has its task, every erased one was
        stopped once, and erased progress wrappers are empty. */
    ghost predicate Valid()
      reads this, repr
    {
      && (forall u :: u in lists ==> Inside(lists[u], repr)) && Inside(erased, repr)
      && view.lists.Keys == lists.Keys
      && (forall u :: u in lists ==> Listed(kind, u, lists[u], view.lists[u]))
      && Ended(kind, erased, view.stopped)
    }

    ghost function View(): Registered
      reads this
    {
      view
    }

    // No wrapper is in two places.
    lemma AllDifferent()
      requires Valid()
      ensures WellFormed(kind, View())
      ensures forall u, i :: u in lists && 0 <= i < |lists[u]| ==>
                lists[u][i].impl.Some? && lists[u][i].impl.value.userId == u
                && (if kind.Progress? then lists[u][i].impl.value.percentProp.Some?
                    else lists[u][i].impl.value.timeProp.Some?)
      ensures forall u, i, v, j ::
                u in lists && 0 <= i < |lists[u]| && v in lists && 0 <= j < |lists[v]| && (u != v || i != j) ==>
                  lists[u][i] != lists[v][j]
      ensures forall u, i, j :: u in lists && 0 <= i < |lists[u]| && 0 <= j < |erased| ==> lists[u][i] != erased[j]
    {
    }

    constructor (kind: Kind)
      ensures Valid() && this.kind == kind && View() == Registered(map[], []) && erased == [] && fresh(repr)
    {
      this.kind, lists, erased, view, repr := kind, map[], [], Registered(map[], []), {};
    }

    // The lists of all users but one are as they should be.
    ghost predicate ValidBut(user: string)
      reads this, repr
    {
      && view.lists.Keys == lists.Keys
      && forall u :: u in lists && u != user ==> Inside(lists[u], repr) && Listed(kind, u, lists[u], view.lists[u])
    }

    // One user's list changes, and perhaps what was erased.
    method SetList(user: string, list: seq<Wrapper>, ghost handles: seq<Handle>,
                   ghost erased: seq<Wrapper>, ghost stopped: seq<Handle>)
      requires ValidBut(user) && Inside(list, repr) && Listed(kind, user, list, handles)
      requires Inside(erased, repr) && Ended(kind, erased, stopped)
      modifies this`lists, this`erased, this`view
      ensures Valid() && lists == old(lists)[user := list] && this.erased == erased
      ensures view == Registered(old(view).lists[user := handles], stopped)
    {
      hide Listed, Ended, Inside;
      lists := lists[user := list];
      view := Registered(view.lists[user := handles], stopped);
      this.erased := erased;
    }

    // `lists[user]`, made if there is none
    method ListFor(user: string) returns (list: seq<Wrapper>)
      requires Valid()
      modifies this`lists, this`erased, this`view
      ensures Valid() && user in lists && list == lists[user] && erased == old(erased)
      ensures view == old(view).(lists := old(view).lists[user := ListOf(old(view), user)])
    {
      NothingListed(kind, user);
      hide Listed, Ended;
      if user !in lists {
        SetList(user, [], [], erased, view.stopped);
      }
      list := lists[user];
      assert view.lists == old(view).lists[user := ListOf(old(view), user)];
    }

    /** `schedule_new_progress_task_impl`, `schedule_new_time_task_impl` */
    method Schedule(t: Task) returns (ok: bool)
      requires Valid() && HasProp(kind, t)
      modifies this
      ensures Valid() && View() == Added(old(View()), t) && ok
      ensures fresh(repr - old(repr)) && erased == old(erased)
    {
      hide Listed, Ended, HasProp, Inside;
      var list := ListFor(t.userId);
      ghost var handles := view.lists[t.userId];
      var task := new Wrapper(kind, t);
      AppendListed(kind, t.userId, list, handles, task);
      InsideGrows(lists, erased, repr, task);
      InsideChanges(list, repr, task, |list|);
      repr := repr + {task};
      assert ValidBut(t.userId);
      SetList(t.userId, list + [task], handles + [Handle(Some(t))], erased, view.stopped);
      ok := true;
    }

    // One turn of the removal loop: stop the wrapper, then erase it.
    method StopAndErase(user: string, i: nat)
      requires Valid() && user in lists && i < |lists[user]|
      modifies this`lists, this`erased, this`view, lists[user][i]
      ensures Valid() && erased == old(erased) + [old(lists[user][i])]
      ensures var list := old(lists[user]); lists == old(lists)[user := list[..i] + list[i + 1..]]
      ensures var list := old(view).lists[user];
              view == Registered(old(view).lists[user := list[..i] + list[i + 1..]], old(view).stopped + [list[i]])
    {
      var list := lists[user];
      var w := list[i];
      ghost var handles := view.lists[user];
      EraseListed(kind, user, list, handles, i);
      NotElsewhere(user, i);
      InsideChanges(list, repr, w, i);
      InsideChanges(erased, repr, w, |erased|);
      hide Listed, Ended, Inside;
      w.Stop();
      EndedMore(kind, erased, view.stopped, w, handles[i]);
      assert ValidBut(user);
      SetList(user, list[..i] + list[i + 1..], handles[..i] + handles[i + 1..],
              erased + [w], view.stopped + [handles[i]]);
    }

    lemma NotElsewhere(user: string, i: nat)
      requires Valid() && user in lists && i < |lists[user]|
      ensures lists[user][i] !in erased
      ensures forall u :: u in lists && u != user ==> lists[user][i] !in lists[u]
    {
    }

    lemma HandlesAt(user: string)
      requires Valid() && user in lists
      ensures |view.lists[user]| == |lists[user]|
      ensures forall j :: 0 <= j < |lists[user]| ==> view.lists[user][j] == Handle(lists[user][j].impl)
    {
    }

    /** `remove_scheduled_progress_task_impl`, `remove_scheduled_time_task_impl`: look for a
        match from the start, stop it, erase it, and look again. */
    method Remove(user: string, taskId: string)
      requires Valid()
      modifies this, repr
      ensures Valid() && View() == Removed(old(View()), user, taskId)
      ensures repr == old(repr) && old(erased) <= erased
    {
      hide WellFormed, Matches, Listed, Ended, Removing;
      ghost var before := view;
      ghost var p := Matches(user, taskId);
      var list := ListFor(user);
      HandlesAt(user);
      RemovingStarts(before, user, p);
      if list == [] {
        RemovingEnds(before, view, user, p);
        return;
      }
      var i := FindIf(list, view.lists[user], user, taskId);
      while i < |list|
        invariant Valid() && user in lists && list == lists[user] && repr == old(repr) && old(erased) <= erased
        invariant Removing(before, view, user, p)
        invariant 0 <= i <= |list| == |view.lists[user]|
        invariant i < |list| ==> p(view.lists[user][i])
        invariant forall j :: 0 <= j < i ==> !p(view.lists[user][j])
        decreases |list|
      {
        RemovingTurn(before, view, user, p, i);
        StopAndErase(user, i);
        list := lists[user];
        HandlesAt(user);
        i := FindIf(list, view.lists[user], user, taskId);
      }
      RemovingEnds(before, view, user, p);
    }

    /** `get_scheduled_tasks_for_user_impl`, before the wire: every listed wrapper still has the task
        that its conversion reads. */
    method TasksForUser(user: string) returns (tasks: seq<Task>)
      requires Valid()
      ensures |tasks| == |ListOf(View(), user)|
      ensures forall i :: 0 <= i < |tasks| ==>
        && ListOf(View(), user)[i] == Handle(Some(tasks[i])) && tasks[i].userId == user
        && (if kind.Progress? then tasks[i].percentProp.Some? else tasks[i].timeProp.Some?)
    {
      tasks := [];
      if user in lists {
        for i := 0 to |lists[user]|
          invariant |tasks| == i
          invariant forall j :: 0 <= j < i ==>
            lists[user][j].impl == Some(tasks[j]) && tasks[j].userId == user && HasProp(kind, tasks[j])
        {
          tasks := tasks + [TaskData(Handle(lists[user][i].impl))];
        }
      }
    }
  }
}
