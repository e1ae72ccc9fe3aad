/** Whole histories of the scheduler: any number of pricing requests and cancellations, with pushes and
    removals that succeed, are refused or throw, starting from empty services.
 */
module Histories {
  import opened Options
  import opened Ordering
  import opened PriceStore
  import opened Registry
  import opened Scheduling
  import opened Sequences
  import opened Tasks
  import opened Watching
  import Progress = ProgressWatch

  datatype Call =
    | Request(tasks: seq<Task>, outcomes: seq<Outcome>, removals: seq<Removal>)
    | Cancel(user: string, taskId: string, removal: Removal)

  // What the scheduler and the services keep from call to call.
  datatype Desk = Desk(services: Services, lastId: nat)

  const EMPTY := Desk(Services(Registered(map[], []), Registered(map[], [])), 0)

  predicate Possible(calls: seq<Call>) {
    forall c :: c in calls && c.Request? ==> |c.tasks| == |c.outcomes| == |c.removals|
  }

  function Answered(d: Desk, c: Call): Desk
    requires Possible([c])
  {
    match c
    case Request(tasks, outcomes, removals) =>
      assert c in [c];
      var (_, services, lastId) := Schedule(d.services, d.lastId, tasks, outcomes, removals);
      Desk(services, lastId)
    case Cancel(user, taskId, removal) => d.(services := StopTask(d.services, user, taskId, removal))
  }

  function After(calls: seq<Call>): Desk
    requires Possible(calls)
  {
    if calls == [] then EMPTY
    else
      assert calls[|calls| - 1] in calls;
      Answered(After(calls[..|calls| - 1]), calls[|calls| - 1])
  }

  function TaskCount(calls: seq<Call>): nat {
    if calls == [] then 0
    else TaskCount(calls[..|calls| - 1])
         + if calls[|calls| - 1].Request? then |calls[|calls| - 1].tasks| else 0
  }

  // ---------------------------------------------------------------- different ids

  function Id(h: Handle): nat {
    TaskData(h).processAssignedId
  }

  function Ids(list: seq<Handle>): seq<nat> {
    Map(Id, list)
  }

  // No id occurs twice in the lists of one service.
  ghost predicate UniqueIn(r: Registered) {
    && (forall u :: u in r.lists ==> Distinct(Ids(r.lists[u])))
    && (forall u, v, x, y :: u in r.lists && v in r.lists && u != v && x in r.lists[u] && y in r.lists[v] ==>
          Id(x) != Id(y))
  }

  // Nor in those of both.
  ghost predicate Apart(r: Registered, q: Registered) {
    forall u, v, x, y :: u in r.lists && v in q.lists && x in r.lists[u] && y in q.lists[v] ==> Id(x) != Id(y)
  }

  ghost predicate UniqueIds(s: Services) {
    UniqueIn(s.time) && UniqueIn(s.progress) && Apart(s.time, s.progress)
  }

  // Every task can be watched, and its tokens are all different.
  ghost predicate Watchable(r: Registered) {
    forall u, h :: u in r.lists && h in r.lists[u] ==>
      h.impl.Some? && h.impl.value.percentProp.Some? && Distinct(h.impl.value.tokens)
  }

  // Lists that lost some elements, and perhaps gained an empty list.
  ghost predicate Fewer(r': Registered, r: Registered) {
    forall u :: u in r'.lists ==>
      && (forall h :: h in r'.lists[u] ==> u in r.lists && h in r.lists[u])
      && (u in r.lists && Distinct(Ids(r.lists[u])) ==> Distinct(Ids(r'.lists[u])))
      && (u !in r.lists ==> r'.lists[u] == [])
  }

  lemma {:induction false} FilterDistinct(list: seq<Handle>, keep: Handle -> bool)
    requires Distinct(Ids(list))
    ensures Distinct(Ids(Filter(list, keep)))
  {
    if list != [] {
      var rest := Filter(list[1..], keep);
      IdsCons(list[0], list[1..]);
      IdsCons(list[0], rest);
      assert list == [list[0]] + list[1..];
      DistinctCons(Id(list[0]), Ids(list[1..]));
      DistinctCons(Id(list[0]), Ids(rest));
      assert Filter(list, keep) == if keep(list[0]) then [list[0]] + rest else rest;
      hide Distinct, Ids;
      FilterDistinct(list[1..], keep);
      FilterHolds(list[1..], keep);
      IdIn(list[1..], Id(list[0]));
      IdIn(rest, Id(list[0]));
    }
  }

  lemma IdsCons(h: Handle, list: seq<Handle>)
    ensures Ids([h] + list) == [Id(h)] + Ids(list)
  {
  }

  lemma IdIn(list: seq<Handle>, id: nat)
    ensures id in Ids(list) <==> exists h :: h in list && Id(h) == id
  {
    if id in Ids(list) {
      var i :| 0 <= i < |Ids(list)| && Ids(list)[i] == id;
      assert list[i] in list;
    }
    if h :| h in list && Id(h) == id {
      var i :| 0 <= i < |list| && list[i] == h;
      assert Ids(list)[i] == id;
    }
  }

  lemma RemovedFewer(r: Registered, user: string, taskId: string)
    ensures Fewer(Removed(r, user, taskId), r)
  {
    var list, keep := ListOf(r, user), Not(Matches(user, taskId));
    FilterHolds(list, keep);
    if user in r.lists && Distinct(Ids(list)) {
      FilterDistinct(list, keep);
    }
    hide Filter, Distinct;
  }

  lemma FewerKeeps(r': Registered, r: Registered, q: Registered)
    requires Fewer(r', r)
    ensures UniqueIn(r) ==> UniqueIn(r')
    ensures Apart(r, q) ==> Apart(r', q)
    ensures Apart(q, r) ==> Apart(q, r')
    ensures Watchable(r) ==> Watchable(r')
  {
    hide Ids, Id;
    assert Distinct(Ids([])) by {
      NoIds();
    }
  }

  lemma NoIds()
    ensures Distinct(Ids([]))
  {
  }

  lemma SameIsFewer(r: Registered)
    ensures Fewer(r, r)
  {
  }

  lemma StopKeeps(s: Services, user: string, taskId: string, removal: Removal)
    requires UniqueIds(s) && Watchable(s.progress)
    ensures var s' := StopTask(s, user, taskId, removal); UniqueIds(s') && Watchable(s'.progress)
  {
    hide UniqueIn, Apart, Watchable, Fewer, Removed;
    var s' := StopTask(s, user, taskId, removal);
    RemovedFewer(s.time, user, taskId);
    RemovedFewer(s.progress, user, taskId);
    SameIsFewer(s.time);
    SameIsFewer(s.progress);
    FewerKeeps(s'.time, s.time, s.progress);
    FewerKeeps(s'.progress, s.progress, s'.time);
  }

  lemma {:induction false} StopAllKeeps(s: Services, erred: seq<Task>, removals: seq<Removal>)
    requires |erred| == |removals| && UniqueIds(s) && Watchable(s.progress)
    ensures var s' := StopAll(s, erred, removals).services; UniqueIds(s') && Watchable(s'.progress)
  {
    hide UniqueIds, Watchable, StopTask;
    if erred != [] {
      var n := |erred| - 1;
      StopAllKeeps(s, erred[..n], removals[..n]);
      var before := StopAll(s, erred[..n], removals[..n]);
      StopKeeps(before.services, erred[n].userId, erred[n].taskId, removals[n]);
    }
  }

  lemma AddedMembers(r: Registered, t: Task)
    ensures forall u, x :: u in Added(r, t).lists && x in Added(r, t).lists[u] ==>
              (u == t.userId && x == Handle(Some(t))) || (u in r.lists && x in r.lists[u])
    ensures forall u :: u in Added(r, t).lists && u != t.userId ==> u in r.lists && Added(r, t).lists[u] == r.lists[u]
    ensures Added(r, t).lists[t.userId] == ListOf(r, t.userId) + [Handle(Some(t))]
  {
  }

  lemma AddedIds(list: seq<Handle>, h: Handle)
    requires Distinct(Ids(list)) && forall x :: x in list ==> Id(x) != Id(h)
    ensures Distinct(Ids(list + [h]))
  {
    IdIn(list, Id(h));
    DistinctSnoc(Ids(list), Id(h));
    assert Ids(list + [h]) == Ids(list) + [Id(h)];
  }

  lemma AddedUnique(r: Registered, t: Task, bound: nat)
    requires UniqueIn(r) && IdsIn(r, bound) && t.processAssignedId > bound
    ensures UniqueIn(Added(r, t))
  {
    hide Ids, IdsIn, Distinct, Added;
    InBound(r, bound);
    NoIds();
    AddedMembers(r, t);
    var h := Handle(Some(t));
    assert Id(h) > bound;
    AddedIds(ListOf(r, t.userId), h);
    hide Id;
    var lists := Added(r, t).lists;
    forall u, v, x, y | u in lists && v in lists && u != v && x in lists[u] && y in lists[v]
      ensures Id(x) != Id(y)
    {
    }
  }

  lemma AddedApart(r: Registered, q: Registered, t: Task, bound: nat)
    requires Apart(r, q) && IdsIn(q, bound) && t.processAssignedId > bound
    ensures Apart(Added(r, t), q)
  {
    hide IdsIn, Added;
    InBound(q, bound);
    AddedMembers(r, t);
    assert Id(Handle(Some(t))) > bound;
    hide Id;
  }

  lemma ApartBothWays(r: Registered, q: Registered)
    ensures Apart(r, q) <==> Apart(q, r)
  {
  }

  lemma InBound(r: Registered, bound: nat)
    requires IdsIn(r, bound)
    ensures forall u, h :: u in r.lists && h in r.lists[u] ==> Id(h) <= bound
  {
  }

  lemma RegisterKeeps(s: Services, t: Task, bound: nat)
    requires UniqueIds(s) && Watchable(s.progress) && IdsUpTo(s, bound)
    requires Pushable(t) && t.processAssignedId > bound && Distinct(t.tokens)
    ensures UniqueIds(Register(s, t)) && Watchable(Register(s, t).progress)
  {
    StoredTokens(t);
    StoredIds(t);
    hide UniqueIn, Apart, IdsIn, Stored;
    if t.percentProp.Some? {
      ApartBothWays(s.time, s.progress);
      AddedUnique(s.progress, Stored(t), bound);
      AddedApart(s.progress, s.time, Stored(t), bound);
      ApartBothWays(Added(s.progress, Stored(t)), s.time);
    } else {
      AddedUnique(s.time, Stored(t), bound);
      AddedApart(s.time, s.progress, Stored(t), bound);
    }
  }

  lemma StoredTokens(t: Task)
    requires Pushable(t)
    ensures Stored(t).tokens == t.tokens
  {
  }

  lemma {:induction false} PushesKeep(s: Services, lastId: nat, tasks: seq<Task>, outcomes: seq<Outcome>)
    requires |tasks| == |outcomes| && forall i :: 0 <= i < |tasks| ==> Pushable(tasks[i]) && Distinct(tasks[i].tokens)
    requires UniqueIds(s) && Watchable(s.progress) && IdsUpTo(s, lastId) && lastId + |tasks| <= MAX_ID
    ensures var s' := PushAll(s, lastId, tasks, outcomes).services; UniqueIds(s') && Watchable(s'.progress)
  {
    hide UniqueIds, Watchable, IdsUpTo, Register, Pushable, Distinct;
    if tasks != [] {
      var n := |tasks| - 1;
      var before := PushAll(s, lastId, tasks[..n], outcomes[..n]);
      PushesKeep(s, lastId, tasks[..n], outcomes[..n]);
      PushIds(s, lastId, tasks[..n], outcomes[..n]);
      if !before.threw {
        var t := Numbered(tasks[n], NextId(before.lastId));
        assert Pushable(tasks[n]);
        NumberedPushable(tasks[n], t.processAssignedId);
        RegisterKeeps(before.services, t, before.lastId);
      }
    }
  }

  // ---------------------------------------------------------------- every history

  ghost predicate Inv(d: Desk, count: nat) {
    UniqueIds(d.services) && Watchable(d.services.progress) && IdsUpTo(d.services, d.lastId) && d.lastId <= count
  }

  lemma RequestKeeps(s: Services, lastId: nat, tasks: seq<Task>, outcomes: seq<Outcome>, removals: seq<Removal>)
    requires |tasks| == |outcomes| == |removals| && lastId + |tasks| <= MAX_ID
    requires UniqueIds(s) && Watchable(s.progress) && IdsUpTo(s, lastId)
    ensures var s' := Schedule(s, lastId, tasks, outcomes, removals).1; UniqueIds(s') && Watchable(s'.progress)
  {
    hide UniqueIds, Watchable, IdsUpTo, PushAll, StopAll, Distinct;
    if CheckedAll(tasks).Some? {
      var checked := CheckedAll(tasks).value;
      AllPushable(tasks);
      forall i | 0 <= i < |tasks|
        ensures Distinct(checked[i].tokens)
      {
        CheckedMeaning(tasks[i]);
      }
      PushesKeep(s, lastId, checked, outcomes);
      RefusedErred(s, lastId, checked, outcomes);
      var p := PushAll(s, lastId, checked, outcomes);
      StopAllKeeps(p.services, p.erred, removals[..|p.erred|]);
    }
  }

  lemma StopOneIds(s: Services, user: string, taskId: string, removal: Removal, bound: nat)
    requires IdsUpTo(s, bound)
    ensures IdsUpTo(StopTask(s, user, taskId, removal), bound)
  {
    hide IdsIn, Removed;
    RemoveIds(s.time, user, taskId, bound);
    RemoveIds(s.progress, user, taskId, bound);
  }

  lemma {:induction false} HistoryInv(calls: seq<Call>)
    requires Possible(calls) && TaskCount(calls) <= MAX_ID
    ensures Inv(After(calls), TaskCount(calls))
  {
    hide UniqueIds, Watchable, IdsUpTo, Schedule, StopTask;
    if calls == [] {
      EmptyInv();
    } else {
      var n := |calls| - 1;
      var d, c := After(calls[..n]), calls[n];
      assert c in calls;
      HistoryInv(calls[..n]);
      match c
      case Request(tasks, outcomes, removals) =>
        RequestKeeps(d.services, d.lastId, tasks, outcomes, removals);
        FreshIds(d.services, d.lastId, tasks, outcomes, removals);
      case Cancel(user, taskId, removal) =>
        StopKeeps(d.services, user, taskId, removal);
        StopOneIds(d.services, user, taskId, removal, d.lastId);
    }
  }

  lemma EmptyInv()
    ensures Inv(EMPTY, 0)
  {
  }

  // Task `i` in a user's list of a service.
  ghost predicate ListedAt(s: Services, kind: Kind, user: string, i: nat) {
    user in ServiceOf(kind, s).lists && i < |ServiceOf(kind, s).lists[user]|
  }

  function IdAt(s: Services, kind: Kind, user: string, i: nat): nat
    requires ListedAt(s, kind, user, i)
  {
    Id(ServiceOf(kind, s).lists[user][i])
  }

  /** After any history in which fewer than 2^64 tasks were asked for, no two tasks that the services
      hold, in whichever lists, have the same id. */
  lemma IdsAreUnique(calls: seq<Call>, kind: Kind, user: string, i: nat, kind': Kind, user': string, i': nat)
    requires Possible(calls) && TaskCount(calls) <= MAX_ID
    requires ListedAt(After(calls).services, kind, user, i) && ListedAt(After(calls).services, kind', user', i')
    requires IdAt(After(calls).services, kind, user, i) == IdAt(After(calls).services, kind', user', i')
    ensures kind == kind' && user == user' && i == i'
  {
    HistoryInv(calls);
    var s := After(calls).services;
    var list, list' := ServiceOf(kind, s).lists[user], ServiceOf(kind', s).lists[user'];
    assert list[i] in list && list'[i'] in list';
    if kind == kind' && user == user' {
      assert Ids(list)[i] == Ids(list)[i'];
    }
  }

  /** After any history, whichever task the progress service holds alerts each of its tokens at most
      once, over every run of its watcher: no assumption on the tokens that were asked for is left. */
  lemma HeldTasksAlertOnce(calls: seq<Call>, user: string, i: nat, log: seq<Instrument>,
                           events: seq<Event>, name: string)
    requires Possible(calls) && TaskCount(calls) <= MAX_ID
    requires ListedAt(After(calls).services, Kind.Progress, user, i)
    ensures var h := After(calls).services.progress.lists[user][i]; h.impl.Some? && h.impl.value.percentProp.Some?
    ensures var start := Progress.Scheduled(log, After(calls).services.progress.lists[user][i].impl.value);
            Progress.Run(start, events) ==>
              var w := Progress.After(start, events);
              multiset(Progress.AlertedNames(w.alerts))[name] + multiset(Progress.NamesOf(w.snapshots))[name] <= 1
  {
    HistoryInv(calls);
    var list := After(calls).services.progress.lists[user];
    assert list[i] in list;
    var task := list[i].impl.value;
    if Progress.Run(Progress.Scheduled(log, task), events) {
      Progress.AtMostOneAlert(log, task, events, name);
    }
  }
}
