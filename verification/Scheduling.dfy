/** Scheduling a request: http_stream/src/scheduled_price_tasks.cpp, and the loop of
    http_stream/src/session.cpp that turns the contracts of a request into tasks.
 */
module Scheduling {
  import opened Options
  import opened Ordering
  import opened Registry
  import opened Sequences
  import opened Tasks
  import opened Wire

  // ---------------------------------------------------------------- validation

  function Clamp(x: real): real {
    if x < -100.0 then -100.0 else if x > 100.0 then 100.0 else x
  }

  /** `passed_valid_task_check`: the task as the check leaves it, or nothing if it fails. */
  function Checked(t: Task): Option<Task> {
    if t.tokens == [] || (t.percentProp.None? && t.timeProp.None?) then None
    else if t.percentProp.Some? && Clamp(t.percentProp.value.percentage) == 0.0 then None
    else
      var clamped :=
        if t.percentProp.None? then t
        else t.(percentProp := Some(t.percentProp.value.(percentage := Clamp(t.percentProp.value.percentage))));
      if t.timeProp.Some? && t.timeProp.value.timeMS <= 0 then None
      else if t.exchange == EXCHANGE_TOTAL || t.tradeType == TRADE_TYPE_TOTAL then None
      else
        var sorted := Sort(t.tokens);
        if HasAdjacentEqual(sorted) then None else Some(clamped.(tokens := sorted))
  }

  /** The check passes exactly the tasks with tokens that are all different, a property, a
      percentage other than zero, a positive interval, and a known exchange and trade type.  It
      keeps the tokens up to their order and changes nothing else but a percentage beyond 100, which
      it brings back to 100 of the same sign. */
  lemma CheckedMeaning(t: Task)
    ensures Checked(t).Some? <==>
            && t.tokens != [] && Distinct(t.tokens)
            && (t.percentProp.Some? || t.timeProp.Some?)
            && (t.percentProp.Some? ==> t.percentProp.value.percentage != 0.0)
            && (t.timeProp.Some? ==> t.timeProp.value.timeMS > 0)
            && t.exchange != EXCHANGE_TOTAL && t.tradeType != TRADE_TYPE_TOTAL
    ensures Checked(t).Some? ==>
            var c := Checked(t).value;
            && multiset(c.tokens) == multiset(t.tokens) && Sorted(c.tokens) && Distinct(c.tokens)
            && (c.percentProp.Some? <==> t.percentProp.Some?)
            && (c.percentProp.Some? ==>
                var asked, kept := t.percentProp.value.percentage, c.percentProp.value.percentage;
                && (-100.0 <= asked <= 100.0 ==> kept == asked)
                && (asked > 100.0 ==> kept == 100.0)
                && (asked < -100.0 ==> kept == -100.0)
                && kept != 0.0
                && c.percentProp.value.direction == t.percentProp.value.direction)
            && c == t.(tokens := c.tokens, percentProp := c.percentProp)
  {
    SortSorts(t.tokens);
    SortFindsDuplicates(t.tokens);
    AdjacentMeansDuplicate(Sort(t.tokens));
  }

  function CheckedAll(tasks: seq<Task>): (r: Option<seq<Task>>)
    ensures r.Some? ==> |r.value| == |tasks|
    ensures r.Some? ==> forall i :: 0 <= i < |tasks| ==> Checked(tasks[i]) == Some(r.value[i])
    ensures r.None? ==> exists i :: 0 <= i < |tasks| && Checked(tasks[i]).None?
  {
    if tasks == [] then Some([])
    else
      match Checked(tasks[0])
      case None => None
      case Some(t) =>
        match CheckedAll(tasks[1..])
        case None => None
        case Some(rest) => Some([t] + rest)
  }

  // ---------------------------------------------------------------- the two services

  datatype Services = Services(time: Registered, progress: Registered)

  predicate Pushable(t: Task) {
    t.percentProp.Some? || t.timeProp.Some?
  }

  // The task as the service that gets it stores it.
  function Stored(t: Task): Task
    requires Pushable(t)
  {
    if t.percentProp.Some? then
      CastRoundTrip(t.percentProp.value.direction); CastRoundTrip(t.tradeType); CastRoundTrip(t.exchange);
      CastRoundTrip(t.status);
      FromProgress(ToProgress(t))
    else
      CastRoundTrip(t.timeProp.value.duration); CastRoundTrip(t.tradeType); CastRoundTrip(t.exchange);
      CastRoundTrip(t.status);
      FromTime(ToTime(t))
  }

  function Register(s: Services, t: Task): Services
    requires Pushable(t)
  {
    if t.percentProp.Some? then s.(progress := Added(s.progress, Stored(t)))
    else s.(time := Added(s.time, Stored(t)))
  }

  // How a removal over D-Bus ends: both calls return, or the first or the second throws.  A call
  // that throws may still have reached its service.
  datatype Removal = Returned | TimeThrew(reached: bool) | ProgressThrew(reached: bool)

  predicate ReachesTime(r: Removal) {
    r != TimeThrew(false)
  }

  predicate ReachesProgress(r: Removal) {
    r == Returned || r == ProgressThrew(true)
  }

  // `stop_scheduled_price_task`
  function StopTask(s: Services, user: string, taskId: string, r: Removal): Services {
    Services(if ReachesTime(r) then Removed(s.time, user, taskId) else s.time,
             if ReachesProgress(r) then Removed(s.progress, user, taskId) else s.progress)
  }

  // How a push over D-Bus ends: the service's reply, or an exception of the proxy.  A push that
  // does not succeed may still have reached the service.
  datatype Outcome = Accepted | Refused(registered: bool) | Threw(registered: bool)

  function AfterPush(s: Services, t: Task, o: Outcome): Services
    requires Pushable(t)
  {
    if o.Accepted? || o.registered then Register(s, t) else s
  }

  // ---------------------------------------------------------------- one request

  const MAX_ID := 0xFFFF_FFFF_FFFF_FFFF

  // `++task_id` on a `uint64_t`
  function NextId(id: nat): nat {
    if id >= MAX_ID then 0 else id + 1
  }

  /** The counter goes up by one and starts again behind 2^64 - 1. */
  lemma NextIdMeaning(id: nat)
    requires id < 0x1_0000_0000_0000_0000
    ensures NextId(id) == (id + 1) % 0x1_0000_0000_0000_0000
  {
  }

  datatype Answer = Scheduled | NotScheduled | Exception

  // The loop of pushes after some tasks: the services, the id counter, the tasks that failed.
  datatype Pushes = Pushes(services: Services, lastId: nat, erred: seq<Task>, threw: bool)

  function Numbered(t: Task, id: nat): Task {
    t.(processAssignedId := id)
  }

  function PushAll(s: Services, lastId: nat, tasks: seq<Task>, outcomes: seq<Outcome>): Pushes
    requires |tasks| == |outcomes| && forall i :: 0 <= i < |tasks| ==> Pushable(tasks[i])
  {
    if tasks == [] then Pushes(s, lastId, [], false)
    else
      var n := |tasks| - 1;
      var before := PushAll(s, lastId, tasks[..n], outcomes[..n]);
      if before.threw then before
      else
        var t := Numbered(tasks[n], NextId(before.lastId));
        assert Pushable(tasks[n]);
        Pushes(AfterPush(before.services, t, outcomes[n]),
               t.processAssignedId,
               before.erred + if outcomes[n].Refused? then [t] else [],
               outcomes[n].Threw?)
  }

  // The loop of removals after some tasks: the services, and whether an exception ended it.
  datatype Stops = Stops(services: Services, threw: bool)

  function StopAll(s: Services, erred: seq<Task>, removals: seq<Removal>): Stops
    requires |erred| == |removals|
  {
    if erred == [] then Stops(s, false)
    else
      var n := |erred| - 1;
      var before := StopAll(s, erred[..n], removals[..n]);
      if before.threw then before
      else Stops(StopTask(before.services, erred[n].userId, erred[n].taskId, removals[n]), removals[n] != Returned)
  }

  /** `schedule_new_price_tasks`, with the outcome of each push and, in order, of each removal there may
      be. */
  function Schedule(s: Services, lastId: nat, tasks: seq<Task>, outcomes: seq<Outcome>, removals: seq<Removal>)
    : (Answer, Services, nat)
    requires |tasks| == |outcomes| == |removals|
  {
    match CheckedAll(tasks)
    case None => (NotScheduled, s, lastId)
    case Some(checked) =>
      AllPushable(tasks);
      var p := PushAll(s, lastId, checked, outcomes);
      if p.threw then (Exception, p.services, p.lastId)
      else
        RefusedErred(s, lastId, checked, outcomes);
        var stops := StopAll(p.services, p.erred, removals[..|p.erred|]);
        (if stops.threw then Exception else if p.erred == [] then Scheduled else NotScheduled,
         stops.services, p.lastId)
  }

  function RefusedCount(outcomes: seq<Outcome>): (n: nat)
    ensures n <= |outcomes|
  {
    if outcomes == [] then 0
    else RefusedCount(outcomes[..|outcomes| - 1]) + if outcomes[|outcomes| - 1].Refused? then 1 else 0
  }

  lemma {:induction false} RefusedErred(s: Services, lastId: nat, tasks: seq<Task>, outcomes: seq<Outcome>)
    requires |tasks| == |outcomes| && forall i :: 0 <= i < |tasks| ==> Pushable(tasks[i])
    ensures |PushAll(s, lastId, tasks, outcomes).erred| <= |tasks|
    ensures !PushAll(s, lastId, tasks, outcomes).threw ==>
              |PushAll(s, lastId, tasks, outcomes).erred| == RefusedCount(outcomes)
  {
    hide AfterPush, Pushable;
    if tasks != [] {
      RefusedErred(s, lastId, tasks[..|tasks| - 1], outcomes[..|tasks| - 1]);
    }
  }

  lemma AllPushable(tasks: seq<Task>)
    ensures CheckedAll(tasks).Some? ==>
      forall i :: 0 <= i < |tasks| ==> Pushable(CheckedAll(tasks).value[i])
  {
    if CheckedAll(tasks).Some? {
      forall i | 0 <= i < |tasks|
        ensures Pushable(CheckedAll(tasks).value[i])
      {
        CheckedMeaning(tasks[i]);
      }
    }
  }

  // All tasks of a request carry its user and task id.
  ghost predicate OneRequest(tasks: seq<Task>, user: string, taskId: string) {
    forall i :: 0 <= i < |tasks| ==> tasks[i].userId == user && tasks[i].taskId == taskId
  }

  // ---------------------------------------------------------------- all or nothing

  ghost predicate SameElsewhere(s: Services, s': Services, user: string) {
    forall u :: u != user ==> ListOf(s'.time, u) == ListOf(s.time, u) && ListOf(s'.progress, u) == ListOf(s.progress, u)
  }

  ghost predicate SameButFor(s: Services, s': Services, user: string, taskId: string) {
    && SameElsewhere(s, s', user)
    && Filter(ListOf(s'.time, user), Other(user, taskId)) == Filter(ListOf(s.time, user), Other(user, taskId))
    && Filter(ListOf(s'.progress, user), Other(user, taskId)) == Filter(ListOf(s.progress, user), Other(user, taskId))
  }

  lemma StoredIds(t: Task)
    requires Pushable(t)
    ensures Stored(t).userId == t.userId && Stored(t).taskId == t.taskId
    ensures Stored(t).processAssignedId == t.processAssignedId
    ensures t.percentProp.Some? ==> Stored(t).percentProp.Some?
    ensures t.percentProp.None? ==> Stored(t).timeProp.Some?
    ensures SmallEnums(t) ==> Stored(t) == if t.percentProp.Some? then t.(timeProp := None) else t.(percentProp := None)
  {
    WireRoundTrip(t);
  }

  lemma RegisterKeepsRest(s: Services, t: Task)
    requires Pushable(t)
    ensures SameButFor(s, Register(s, t), t.userId, t.taskId)
  {
    StoredIds(t);
    var p := Other(t.userId, t.taskId);
    var h := Handle(Some(Stored(t)));
    var r := if t.percentProp.Some? then s.progress else s.time;
    FilterAppend(ListOf(r, t.userId), [h], p);
    FilterOne(h, p);
  }

  lemma {:induction false} PushesKeepRest(s: Services, lastId: nat, tasks: seq<Task>, outcomes: seq<Outcome>,
                                           user: string, taskId: string)
    requires |tasks| == |outcomes| && forall i :: 0 <= i < |tasks| ==> Pushable(tasks[i])
    requires OneRequest(tasks, user, taskId)
    ensures SameButFor(s, PushAll(s, lastId, tasks, outcomes).services, user, taskId)
    ensures OneRequest(PushAll(s, lastId, tasks, outcomes).erred, user, taskId)
  {
    hide SameButFor, Register;
    SameButForChains(s, s, s, user, taskId);
    if tasks != [] {
      var n := |tasks| - 1;
      var before := PushAll(s, lastId, tasks[..n], outcomes[..n]);
      PushesKeepRest(s, lastId, tasks[..n], outcomes[..n], user, taskId);
      if !before.threw {
        assert Pushable(tasks[n]);
        var t := Numbered(tasks[n], NextId(before.lastId));
        RegisterKeepsRest(before.services, t);
        SameButForChains(s, before.services, AfterPush(before.services, t, outcomes[n]), user, taskId);
      }
    }
  }

  lemma SameButForChains(a: Services, b: Services, c: Services, user: string, taskId: string)
    requires (a == b || SameButFor(a, b, user, taskId)) && (b == c || SameButFor(b, c, user, taskId))
    ensures SameButFor(a, c, user, taskId)
  {
  }

  // A push threw, and what the pushes that came back said.
  lemma {:induction false} PushAnswers(s: Services, lastId: nat, tasks: seq<Task>, outcomes: seq<Outcome>)
    requires |tasks| == |outcomes| && forall i :: 0 <= i < |tasks| ==> Pushable(tasks[i])
    ensures var p := PushAll(s, lastId, tasks, outcomes);
            && (p.threw <==> exists i :: 0 <= i < |outcomes| && outcomes[i].Threw?)
            && (!p.threw ==> (p.erred == [] <==> forall i :: 0 <= i < |outcomes| ==> outcomes[i].Accepted?))
  {
    hide AfterPush;
    if tasks != [] {
      var n := |tasks| - 1;
      PushAnswers(s, lastId, tasks[..n], outcomes[..n]);
      assert outcomes == outcomes[..n] + [outcomes[n]];
    }
  }

  ghost predicate ServicesWellFormed(s: Services) {
    WellFormed(Timed, s.time) && WellFormed(Kind.Progress, s.progress)
  }

  ghost predicate Held(s: Services, user: string, taskId: string) {
    Holds(s.time, user, taskId) || Holds(s.progress, user, taskId)
  }

  lemma RegisterWellFormed(kind: Kind, s: Services, t: Task)
    requires ServicesWellFormed(s) && Pushable(t)
    ensures ServicesWellFormed(Register(s, t))
    ensures Holds(ServiceOf(kind, Register(s, t)), t.userId, t.taskId)
            <==> GoesTo(kind, t) || Holds(ServiceOf(kind, s), t.userId, t.taskId)
  {
    StoredIds(t);
    if t.percentProp.Some? {
      AddedHolds(Kind.Progress, s.progress, Stored(t));
    } else {
      AddedHolds(Timed, s.time, Stored(t));
    }
  }

  lemma AddedHolds(kind: Kind, r: Registered, t: Task)
    requires WellFormed(kind, r) && HasProp(kind, t)
    ensures WellFormed(kind, Added(r, t)) && Holds(Added(r, t), t.userId, t.taskId)
  {
    AddedWellFormed(kind, r, t);
    var list := Added(r, t).lists[t.userId];
    assert Matches(t.userId, t.taskId)(list[|list| - 1]);
  }

  predicate GoesTo(kind: Kind, t: Task) {
    kind.Progress? == t.percentProp.Some?
  }

  predicate Pushed(kind: Kind, t: Task, o: Outcome) {
    GoesTo(kind, t) && (o.Accepted? || o.registered)
  }

  // Some task reached this service before the first exception of a push, or with it.
  ghost predicate Reached(kind: Kind, tasks: seq<Task>, outcomes: seq<Outcome>)
    requires |tasks| == |outcomes|
  {
    exists i :: 0 <= i < |tasks| && Pushed(kind, tasks[i], outcomes[i]) && forall j :: 0 <= j < i ==> !outcomes[j].Threw?
  }

  function ServiceOf(kind: Kind, s: Services): Registered {
    if kind.Progress? then s.progress else s.time
  }

  lemma {:induction false} HeldAfterPushes(kind: Kind, s: Services, lastId: nat, tasks: seq<Task>,
                                            outcomes: seq<Outcome>, user: string, taskId: string)
    requires |tasks| == |outcomes| && forall i :: 0 <= i < |tasks| ==> Pushable(tasks[i])
    requires OneRequest(tasks, user, taskId) && ServicesWellFormed(s)
    ensures ServicesWellFormed(PushAll(s, lastId, tasks, outcomes).services)
    ensures Holds(ServiceOf(kind, PushAll(s, lastId, tasks, outcomes).services), user, taskId)
            <==> Holds(ServiceOf(kind, s), user, taskId) || Reached(kind, tasks, outcomes)
  {
    hide Holds, Reached, Register, WellFormed;
    if tasks == [] {
      ReachedNone(kind);
    } else {
      var n := |tasks| - 1;
      var before := PushAll(s, lastId, tasks[..n], outcomes[..n]);
      HeldAfterPushes(kind, s, lastId, tasks[..n], outcomes[..n], user, taskId);
      PushAnswers(s, lastId, tasks[..n], outcomes[..n]);
      ReachedPrefix(kind, tasks, outcomes, n);
      if !before.threw {
        assert Pushable(tasks[n]);
        var t := Numbered(tasks[n], NextId(before.lastId));
        RegisterWellFormed(kind, before.services, t);
      }
    }
  }

  lemma ReachedNone(kind: Kind)
    ensures !Reached(kind, [], [])
  {
  }

  lemma ReachedPrefix(kind: Kind, tasks: seq<Task>, outcomes: seq<Outcome>, n: nat)
    requires |tasks| == |outcomes| == n + 1
    ensures Reached(kind, tasks, outcomes) <==>
            || Reached(kind, tasks[..n], outcomes[..n])
            || (Pushed(kind, tasks[n], outcomes[n]) && forall j :: 0 <= j < n ==> !outcomes[..n][j].Threw?)
  {
    hide Pushed;
    var ts, os := tasks[..n], outcomes[..n];
    if Reached(kind, ts, os) {
      var i :| 0 <= i < n && Pushed(kind, ts[i], os[i]) && forall j :: 0 <= j < i ==> !os[j].Threw?;
      assert forall j :: 0 <= j < i ==> outcomes[j] == os[j];
      assert Pushed(kind, tasks[i], outcomes[i]);
    }
    if Reached(kind, tasks, outcomes) {
      var i :| 0 <= i < |tasks| && Pushed(kind, tasks[i], outcomes[i]) && forall j :: 0 <= j < i ==> !outcomes[j].Threw?;
      if i < n {
        assert Pushed(kind, ts[i], os[i]);
      }
    }
  }

  // ---------------------------------------------------------------- the failed request

  lemma StopKeepsRest(s: Services, user: string, taskId: string, r: Removal)
    requires ServicesWellFormed(s)
    ensures var s' := StopTask(s, user, taskId, r);
            && ServicesWellFormed(s') && SameButFor(s, s', user, taskId)
            && (Holds(s'.time, user, taskId) <==> Holds(s.time, user, taskId) && r == TimeThrew(false))
            && (Holds(s'.progress, user, taskId)
                <==> Holds(s.progress, user, taskId) && (r.TimeThrew? || r == ProgressThrew(false)))
  {
    RemovedHoldsNothing(Timed, s.time, user, taskId);
    RemovedHoldsNothing(Kind.Progress, s.progress, user, taskId);
    hide Holds, WellFormed, Removed;
    RemovedKeepsOthers(s.time, user, taskId);
    RemovedKeepsOthers(s.progress, user, taskId);
    RemovedElsewhere(s.time, user, taskId);
    RemovedElsewhere(s.progress, user, taskId);
  }

  lemma RemovedElsewhere(r: Registered, user: string, taskId: string)
    ensures forall u :: u != user ==> ListOf(Removed(r, user, taskId), u) == ListOf(r, u)
  {
  }

  lemma RemovedKeepsOthers(r: Registered, user: string, taskId: string)
    ensures Filter(ListOf(Removed(r, user, taskId), user), Other(user, taskId))
            == Filter(ListOf(r, user), Other(user, taskId))
  {
    var list, p, other := ListOf(r, user), Matches(user, taskId), Other(user, taskId);
    MatchesIsSame(user, taskId);
    FilterTwice(list, Not(p), other);
    FilterSame(list, And(Not(p), other), other);
  }

  // The first removal decides: once it has gone through nothing is left, and nothing follows it
  // otherwise.
  lemma {:induction false} StopAllKeepsRest(s: Services, erred: seq<Task>, removals: seq<Removal>,
                                             user: string, taskId: string)
    requires |erred| == |removals| && ServicesWellFormed(s) && OneRequest(erred, user, taskId)
    ensures var stops := StopAll(s, erred, removals);
            && ServicesWellFormed(stops.services) && SameButFor(s, stops.services, user, taskId)
            && (stops.threw <==> exists j :: 0 <= j < |removals| && removals[j] != Returned)
            && (erred != [] ==>
                && (Holds(stops.services.time, user, taskId)
                    <==> Holds(s.time, user, taskId) && removals[0] == TimeThrew(false))
                && (Holds(stops.services.progress, user, taskId)
                    <==> Holds(s.progress, user, taskId)
                         && (removals[0].TimeThrew? || removals[0] == ProgressThrew(false))))
            && (stops.threw ==> erred != [])
            && (erred == [] ==> stops == Stops(s, false))
  {
    hide SameButFor, ServicesWellFormed, StopTask, Holds;
    SameButForChains(s, s, s, user, taskId);
    if erred != [] {
      var n := |erred| - 1;
      var before := StopAll(s, erred[..n], removals[..n]);
      StopAllKeepsRest(s, erred[..n], removals[..n], user, taskId);
      assert removals == removals[..n] + [removals[n]];
      if !before.threw {
        StopKeepsRest(before.services, user, taskId, removals[n]);
        SameButForChains(s, before.services, StopAll(s, erred, removals).services, user, taskId);
      }
    }
  }

  lemma CheckedRequest(tasks: seq<Task>, user: string, taskId: string)
    requires OneRequest(tasks, user, taskId)
    ensures CheckedAll(tasks).Some? ==> OneRequest(CheckedAll(tasks).value, user, taskId)
  {
    if CheckedAll(tasks).Some? {
      forall i | 0 <= i < |tasks|
        ensures CheckedAll(tasks).value[i].userId == user && CheckedAll(tasks).value[i].taskId == taskId
      {
        CheckedMeaning(tasks[i]);
      }
    }
  }

  // Whether a push throws, or none does but one of the removals that follow a refusal.
  ghost predicate SomethingThrows(outcomes: seq<Outcome>, removals: seq<Removal>)
    requires |outcomes| == |removals|
  {
    || (exists i :: 0 <= i < |outcomes| && outcomes[i].Threw?)
    || exists j :: 0 <= j < RefusedCount(outcomes) && removals[j] != Returned
  }

  // Whether tasks of the request stay behind: some are held, and no removal gets through to them.
  ghost predicate StaysHeld(s: Services, tasks: seq<Task>, outcomes: seq<Outcome>, removals: seq<Removal>,
                            user: string, taskId: string)
    requires |tasks| == |outcomes| == |removals|
  {
    var inTime := Holds(s.time, user, taskId) || Reached(Timed, tasks, outcomes);
    var inProgress := Holds(s.progress, user, taskId) || Reached(Kind.Progress, tasks, outcomes);
    if exists i :: 0 <= i < |outcomes| && outcomes[i].Threw? then inTime || inProgress
    else
      RefusedCount(outcomes) > 0
      && ((inTime && removals[0] == TimeThrew(false))
          || (inProgress && (removals[0].TimeThrew? || removals[0] == ProgressThrew(false))))
  }

  /** All or nothing.  A request whose check fails changes nothing.  Otherwise it is scheduled exactly when
      every push is accepted; if some push is refused and no call throws, neither service holds a task of
      the request afterwards, whether or not the refused pushes got through.  Everything that is not of
      this request stays as it was.  An exception, of a push or of a removal, breaks the promise exactly
      when something is held that no removal reached. */
  lemma AllOrNothing(s: Services, lastId: nat, tasks: seq<Task>, outcomes: seq<Outcome>, removals: seq<Removal>,
                     user: string, taskId: string)
    requires |tasks| == |outcomes| == |removals| && OneRequest(tasks, user, taskId) && ServicesWellFormed(s)
    ensures var (answer, s', _) := Schedule(s, lastId, tasks, outcomes, removals);
            && ServicesWellFormed(s')
            && SameButFor(s, s', user, taskId)
            && (CheckedAll(tasks).None? ==> answer == NotScheduled && s' == s)
            && (CheckedAll(tasks).Some? ==>
                && (answer == Scheduled <==> forall i :: 0 <= i < |outcomes| ==> outcomes[i].Accepted?)
                && (answer == Exception <==> SomethingThrows(outcomes, removals))
                && (answer == NotScheduled ==> !Held(s', user, taskId))
                && (answer == Exception ==> (Held(s', user, taskId) <==>
                                             StaysHeld(s, tasks, outcomes, removals, user, taskId))))
  {
    hide SameButFor, ServicesWellFormed, Holds, Reached, PushAll, StopAll, CheckedAll, OneRequest, Pushable, RefusedCount;
    if CheckedAll(tasks).None? {
      SameButForChains(s, s, s, user, taskId);
    } else {
      var checked := CheckedAll(tasks).value;
      AllPushable(tasks);
      CheckedRequest(tasks, user, taskId);
      ReachedChecked(Timed, tasks, outcomes);
      ReachedChecked(Kind.Progress, tasks, outcomes);
      var p := PushAll(s, lastId, checked, outcomes);
      PushesKeepRest(s, lastId, checked, outcomes, user, taskId);
      PushAnswers(s, lastId, checked, outcomes);
      HeldAfterPushes(Timed, s, lastId, checked, outcomes, user, taskId);
      HeldAfterPushes(Kind.Progress, s, lastId, checked, outcomes, user, taskId);
      if !p.threw {
        RefusedErred(s, lastId, checked, outcomes);
        var some := removals[..|p.erred|];
        StopAllKeepsRest(p.services, p.erred, some, user, taskId);
        SameButForChains(s, p.services, StopAll(p.services, p.erred, some).services, user, taskId);
        assert forall j :: 0 <= j < |some| ==> some[j] == removals[j];
      }
    }
  }

  lemma ReachedChecked(kind: Kind, tasks: seq<Task>, outcomes: seq<Outcome>)
    requires |tasks| == |outcomes| && CheckedAll(tasks).Some?
    ensures Reached(kind, CheckedAll(tasks).value, outcomes) <==> Reached(kind, tasks, outcomes)
  {
    forall i | 0 <= i < |tasks|
      ensures Pushed(kind, CheckedAll(tasks).value[i], outcomes[i]) <==> Pushed(kind, tasks[i], outcomes[i])
    {
      CheckedMeaning(tasks[i]);
    }
    hide Pushed;
  }

  // ---------------------------------------------------------------- the scheduled request

  function IdAfter(lastId: nat, n: nat): nat {
    if n == 0 then lastId else NextId(IdAfter(lastId, n - 1))
  }

  function NumberedAll(tasks: seq<Task>, lastId: nat): seq<Task> {
    seq(|tasks|, i requires 0 <= i < |tasks| => Numbered(tasks[i], IdAfter(lastId, i + 1)))
  }

  // The handles that one service gets for some tasks.
  function HandlesOf(kind: Kind, tasks: seq<Task>): seq<Handle>
    requires forall i :: 0 <= i < |tasks| ==> Pushable(tasks[i])
  {
    if tasks == [] then []
    else
      var n := |tasks| - 1;
      assert Pushable(tasks[n]);
      HandlesOf(kind, tasks[..n])
      + if kind.Progress? == tasks[n].percentProp.Some? then [Handle(Some(Stored(tasks[n])))] else []
  }

  lemma {:induction false} EachGoesToOneService(tasks: seq<Task>)
    requires forall i :: 0 <= i < |tasks| ==> Pushable(tasks[i])
    ensures |HandlesOf(Kind.Progress, tasks)| + |HandlesOf(Timed, tasks)| == |tasks|
  {
    if tasks != [] {
      EachGoesToOneService(tasks[..|tasks| - 1]);
    }
  }

  lemma RegisterLists(s: Services, t: Task)
    requires Pushable(t)
    ensures var s', h := Register(s, t), Handle(Some(Stored(t)));
            && ListOf(s'.progress, t.userId)
               == ListOf(s.progress, t.userId) + (if t.percentProp.Some? then [h] else [])
            && ListOf(s'.time, t.userId) == ListOf(s.time, t.userId) + (if t.percentProp.Some? then [] else [h])
  {
    StoredIds(t);
  }

  lemma NumberedAllPushable(tasks: seq<Task>, lastId: nat)
    requires forall i :: 0 <= i < |tasks| ==> Pushable(tasks[i])
    ensures forall i :: 0 <= i < |tasks| ==> Pushable(NumberedAll(tasks, lastId)[i])
  {
    forall i | 0 <= i < |tasks|
      ensures Pushable(NumberedAll(tasks, lastId)[i])
    {
      assert Pushable(tasks[i]);
    }
  }

  lemma {:induction false} PushesRegisterAll(s: Services, lastId: nat, tasks: seq<Task>, outcomes: seq<Outcome>,
                                              user: string, taskId: string)
    requires |tasks| == |outcomes| && forall i :: 0 <= i < |tasks| ==> Pushable(tasks[i]) && outcomes[i].Accepted?
    requires OneRequest(tasks, user, taskId)
    ensures forall i :: 0 <= i < |tasks| ==> Pushable(NumberedAll(tasks, lastId)[i])
    ensures var p, numbered := PushAll(s, lastId, tasks, outcomes), NumberedAll(tasks, lastId);
            && !p.threw && p.erred == [] && p.lastId == IdAfter(lastId, |tasks|)
            && ListOf(p.services.progress, user) == ListOf(s.progress, user) + HandlesOf(Kind.Progress, numbered)
            && ListOf(p.services.time, user) == ListOf(s.time, user) + HandlesOf(Timed, numbered)
  {
    hide Register, Stored, Pushable, ListOf;
    NumberedAllPushable(tasks, lastId);
    var numbered := NumberedAll(tasks, lastId);
    if tasks != [] {
      var n := |tasks| - 1;
      PushesRegisterAll(s, lastId, tasks[..n], outcomes[..n], user, taskId);
      assert numbered[..n] == NumberedAll(tasks[..n], lastId);
      assert Pushable(tasks[n]) && Pushable(numbered[n]);
      RegisterLists(PushAll(s, lastId, tasks[..n], outcomes[..n]).services, numbered[n]);
    }
  }

  /** A request that is scheduled is registered once per task, behind what its user had, each task
      with the property it is watched by and under its own id. */
  lemma WhenScheduled(s: Services, lastId: nat, tasks: seq<Task>, outcomes: seq<Outcome>, removals: seq<Removal>,
                      user: string, taskId: string)
    requires |tasks| == |outcomes| == |removals| && OneRequest(tasks, user, taskId) && ServicesWellFormed(s)
    requires Schedule(s, lastId, tasks, outcomes, removals).0 == Scheduled
    ensures CheckedAll(tasks).Some?
    ensures var s', numbered := Schedule(s, lastId, tasks, outcomes, removals).1, NumberedAll(CheckedAll(tasks).value, lastId);
            && (forall i :: 0 <= i < |numbered| ==> Pushable(numbered[i]))
            && ListOf(s'.progress, user) == ListOf(s.progress, user) + HandlesOf(Kind.Progress, numbered)
            && ListOf(s'.time, user) == ListOf(s.time, user) + HandlesOf(Timed, numbered)
            && |HandlesOf(Kind.Progress, numbered)| + |HandlesOf(Timed, numbered)| == |tasks|
            && SameElsewhere(s, s', user)
  {
    AllOrNothing(s, lastId, tasks, outcomes, removals, user, taskId);
    AllPushable(tasks);
    CheckedRequest(tasks, user, taskId);
    PushesRegisterAll(s, lastId, CheckedAll(tasks).value, outcomes, user, taskId);
    EachGoesToOneService(NumberedAll(CheckedAll(tasks).value, lastId));
  }

  // ---------------------------------------------------------------- fresh ids

  ghost predicate IdsIn(r: Registered, bound: nat) {
    forall u :: u in r.lists ==> forall i :: 0 <= i < |r.lists[u]| ==>
      TaskData(r.lists[u][i]).processAssignedId <= bound
  }

  ghost predicate IdsUpTo(s: Services, bound: nat) {
    IdsIn(s.time, bound) && IdsIn(s.progress, bound)
  }

  lemma RegisterIds(s: Services, t: Task, bound: nat)
    requires IdsUpTo(s, bound) && Pushable(t) && t.processAssignedId >= bound
    ensures IdsUpTo(Register(s, t), t.processAssignedId)
  {
    StoredIds(t);
  }

  lemma {:induction false} PushIds(s: Services, lastId: nat, tasks: seq<Task>, outcomes: seq<Outcome>)
    requires |tasks| == |outcomes| && forall i :: 0 <= i < |tasks| ==> Pushable(tasks[i])
    requires IdsUpTo(s, lastId) && lastId + |tasks| <= MAX_ID
    ensures var p := PushAll(s, lastId, tasks, outcomes);
            lastId <= p.lastId <= lastId + |tasks| && IdsUpTo(p.services, p.lastId)
  {
    if tasks != [] {
      var n := |tasks| - 1;
      PushIds(s, lastId, tasks[..n], outcomes[..n]);
      var before := PushAll(s, lastId, tasks[..n], outcomes[..n]);
      if !before.threw {
        assert Pushable(tasks[n]);
        RegisterIds(before.services, Numbered(tasks[n], NextId(before.lastId)), before.lastId);
      }
    }
  }

  lemma RemoveIds(r: Registered, user: string, taskId: string, bound: nat)
    requires IdsIn(r, bound)
    ensures IdsIn(Removed(r, user, taskId), bound)
  {
    var rest := Filter(ListOf(r, user), Not(Matches(user, taskId)));
    FilterHolds(ListOf(r, user), Not(Matches(user, taskId)));
    assert forall i :: 0 <= i < |rest| ==> rest[i] in rest;
  }

  lemma {:induction false} StopIds(s: Services, erred: seq<Task>, removals: seq<Removal>, bound: nat)
    requires |erred| == |removals| && IdsUpTo(s, bound)
    ensures IdsUpTo(StopAll(s, erred, removals).services, bound)
  {
    hide IdsIn;
    if erred != [] {
      var n := |erred| - 1;
      var before := StopAll(s, erred[..n], removals[..n]).services;
      StopIds(s, erred[..n], removals[..n], bound);
      RemoveIds(before.time, erred[n].userId, erred[n].taskId, bound);
      RemoveIds(before.progress, erred[n].userId, erred[n].taskId, bound);
    }
  }

  lemma {:induction false} IdAfterCounts(lastId: nat, n: nat)
    requires lastId + n <= MAX_ID
    ensures IdAfter(lastId, n) == lastId + n
  {
    if n > 0 {
      IdAfterCounts(lastId, n - 1);
    }
  }

  /** Until the 64-bit counter runs over it stays at or above every registered id, whatever the
      answer, so that the ids of the next request are new to both services. */
  lemma FreshIds(s: Services, lastId: nat, tasks: seq<Task>, outcomes: seq<Outcome>, removals: seq<Removal>)
    requires |tasks| == |outcomes| == |removals| && IdsUpTo(s, lastId) && lastId + |tasks| <= MAX_ID
    ensures var (_, s', lastId') := Schedule(s, lastId, tasks, outcomes, removals);
            lastId <= lastId' <= lastId + |tasks| && IdsUpTo(s', lastId')
  {
    hide IdsUpTo, PushAll, StopAll;
    if CheckedAll(tasks).Some? {
      var checked := CheckedAll(tasks).value;
      AllPushable(tasks);
      PushIds(s, lastId, checked, outcomes);
      var p := PushAll(s, lastId, checked, outcomes);
      RefusedErred(s, lastId, checked, outcomes);
      StopIds(p.services, p.erred, removals[..|p.erred|], p.lastId);
    }
  }

  /** The ids of a request are the next ones in turn. */
  lemma NumberedInTurn(tasks: seq<Task>, lastId: nat, i: nat)
    requires lastId + |tasks| <= MAX_ID && i < |tasks|
    ensures NumberedAll(tasks, lastId)[i].processAssignedId == lastId + i + 1
  {
    IdAfterCounts(lastId, i + 1);
  }

  // ---------------------------------------------------------------- an exception

  /** The promise does break: with two tasks, the second push throwing leaves the first task registered,
      although the caller gets an exception; and so does a removal that throws after the second push was
      refused. */
  lemma ExceptionLeavesTasks(second: Outcome, removal: Removal)
    requires second == Threw(false) || (second == Refused(false) && removal == ProgressThrew(false))
    ensures var t := Task("job", "user", ["BTC"], 1, 0, Some(Percent(5.0, 0)), None, 0, 0);
            var empty := Services(Registered(map[], []), Registered(map[], []));
            var (answer, s', _) := Schedule(empty, 0, [t, t], [Accepted, second], [removal, Returned]);
            answer == Exception && Held(s', "user", "job")
  {
    var t := Task("job", "user", ["BTC"], 1, 0, Some(Percent(5.0, 0)), None, 0, 0);
    var empty := Services(Registered(map[], []), Registered(map[], []));
    hide Schedule, Checked, CheckedAll, Holds, WellFormed;
    var outcomes, removals := [Accepted, second], [removal, Returned];
    BothChecked(t);
    NothingHeld();
    AllOrNothing(empty, 0, [t, t], outcomes, removals, "user", "job");
    OneRefusal(second);
    assert outcomes[0] == Accepted && outcomes[1] == second && removals[0] == removal;
    assert Pushed(Kind.Progress, [t, t][0], outcomes[0]);
    assert Reached(Kind.Progress, [t, t], outcomes);
  }

  lemma BothChecked(t: Task)
    requires t == Task("job", "user", ["BTC"], 1, 0, Some(Percent(5.0, 0)), None, 0, 0)
    ensures CheckedAll([t, t]).Some?
  {
    CheckedMeaning(t);
    assert [t, t][0] == t && [t, t][1] == t;
  }

  lemma NothingHeld()
    ensures ServicesWellFormed(Services(Registered(map[], []), Registered(map[], [])))
  {
  }

  lemma OneRefusal(second: Outcome)
    ensures RefusedCount([Accepted, second]) == if second.Refused? then 1 else 0
  {
    assert [Accepted, second][..1] == [Accepted] && RefusedCount([Accepted]) == 0;
  }

  // ---------------------------------------------------------------- the loops

  class Scheduler {
    const time: TaskRegistry
    const progress: TaskRegistry
    var lastId: nat

    // Two services that share nothing.
    ghost predicate Valid()
      reads this, time, progress, time.repr, progress.repr
    {
      && time != progress && time.kind.Timed? && progress.kind.Progress?
      && time.Valid() && progress.Valid() && time.repr !! progress.repr
    }

    ghost function View(): Services
      reads time, progress
    {
      Services(time.View(), progress.View())
    }

    constructor (time: TaskRegistry, progress: TaskRegistry)
      requires time != progress && time.kind.Timed? && progress.kind.Progress?
      requires time.Valid() && progress.Valid() && time.repr !! progress.repr
      ensures Valid() && this.time == time && this.progress == progress && lastId == 0
    {
      this.time, this.progress, lastId := time, progress, 0;
    }

    // One push, as far as it gets.
    method Push(t: Task, o: Outcome) returns (ok: bool)
      requires Valid() && Pushable(t)
      modifies time, progress
      ensures Valid() && View() == AfterPush(old(View()), t, o) && ok == o.Accepted?
      ensures fresh(time.repr - old(time.repr)) && fresh(progress.repr - old(progress.repr))
    {
      ok := o.Accepted?;
      StoredIds(t);
      if o.Accepted? || o.registered {
        if t.percentProp.Some? {
          var _ := progress.Schedule(Stored(t));
        } else {
          var _ := time.Schedule(Stored(t));
        }
      }
    }

    // The loop of pushes; an exception ends it.
    method PushTasks(tasks: seq<Task>, outcomes: seq<Outcome>) returns (erred: seq<Task>, threw: bool)
      requires Valid() && |tasks| == |outcomes| && forall i :: 0 <= i < |tasks| ==> Pushable(tasks[i])
      modifies this, time, progress
      ensures Valid()
      ensures PushAll(old(View()), old(lastId), tasks, outcomes) == Pushes(View(), lastId, erred, threw)
      ensures fresh(time.repr - old(time.repr)) && fresh(progress.repr - old(progress.repr))
    {
      hide AfterPush, Pushable;
      ghost var before, firstId := View(), lastId;
      erred := [];
      for i := 0 to |tasks|
        invariant Valid()
        invariant PushAll(before, firstId, tasks[..i], outcomes[..i]) == Pushes(View(), lastId, erred, false)
        invariant fresh(time.repr - old(time.repr)) && fresh(progress.repr - old(progress.repr))
      {
        assert tasks[..i + 1][..i] == tasks[..i] && outcomes[..i + 1][..i] == outcomes[..i];
        lastId := NextId(lastId);
        var t := Numbered(tasks[i], lastId);
        NumberedPushable(tasks[i], lastId);
        var result := Push(t, outcomes[i]);
        if !result && !outcomes[i].Threw? {
          erred := erred + [t];
        }
        if outcomes[i].Threw? {
          ThrowEnds(before, firstId, tasks, outcomes, i);
          return erred, true;
        }
      }
      assert tasks[..|tasks|] == tasks && outcomes[..|tasks|] == outcomes;
      threw := false;
    }

    /** `stop_scheduled_price_task`, as far as it gets. */
    method Stop(user: string, taskId: string, r: Removal) returns (threw: bool)
      requires Valid()
      modifies time, progress, time.repr, progress.repr
      ensures Valid() && time.repr == old(time.repr) && progress.repr == old(progress.repr)
      ensures View() == StopTask(old(View()), user, taskId, r) && threw == (r != Returned)
    {
      hide Removed;
      if ReachesTime(r) {
        time.Remove(user, taskId);
      }
      if r.TimeThrew? {
        return true;
      }
      if ReachesProgress(r) {
        progress.Remove(user, taskId);
      }
      threw := r.ProgressThrew?;
    }

    // `for_each(erred_list, stop_scheduled_price_task)`; an exception ends it.
    method StopTasks(erred: seq<Task>, removals: seq<Removal>) returns (threw: bool)
      requires Valid() && |erred| == |removals|
      modifies time, progress, time.repr, progress.repr
      ensures Valid() && time.repr == old(time.repr) && progress.repr == old(progress.repr)
      ensures StopAll(old(View()), erred, removals) == Stops(View(), threw)
    {
      hide StopTask;
      ghost var before := View();
      for j := 0 to |erred|
        invariant Valid() && time.repr == old(time.repr) && progress.repr == old(progress.repr)
        invariant StopAll(before, erred[..j], removals[..j]) == Stops(View(), false)
      {
        assert erred[..j + 1][..j] == erred[..j] && removals[..j + 1][..j] == removals[..j];
        threw := Stop(erred[j].userId, erred[j].taskId, removals[j]);
        if threw {
          StopEnds(before, erred, removals, j);
          return true;
        }
      }
      assert erred[..|erred|] == erred && removals[..|erred|] == removals;
      threw := false;
    }

    /** `schedule_new_price_tasks`, with the outcome of each call given. */
    method ScheduleNewPriceTasks(tasks: seq<Task>, outcomes: seq<Outcome>, removals: seq<Removal>)
      returns (answer: Answer)
      requires Valid() && |tasks| == |outcomes| == |removals|
      modifies this, time, progress, time.repr, progress.repr
      ensures Valid()
      ensures (answer, View(), lastId) == Schedule(old(View()), old(lastId), tasks, outcomes, removals)
    {
      hide PushAll, StopAll, CheckedAll, Pushable;
      if CheckedAll(tasks).None? {
        return NotScheduled;
      }
      AllPushable(tasks);
      RefusedErred(View(), lastId, CheckedAll(tasks).value, outcomes);
      var erred, threw := PushTasks(CheckedAll(tasks).value, outcomes);
      if threw {
        return Exception;
      }
      NothingToStop(View());
      if erred != [] {
        threw := StopTasks(erred, removals[..|erred|]);
        return if threw then Exception else NotScheduled;
      }
      return Scheduled;
    }
  }

  lemma NothingToStop(s: Services)
    ensures StopAll(s, [], []) == Stops(s, false)
  {
  }

  // Nothing is removed after an exception.
  lemma {:induction false} StopEnds(s: Services, erred: seq<Task>, removals: seq<Removal>, i: nat)
    requires |erred| == |removals| && i < |erred| && StopAll(s, erred[..i + 1], removals[..i + 1]).threw
    ensures StopAll(s, erred, removals) == StopAll(s, erred[..i + 1], removals[..i + 1])
    decreases |erred|
  {
    var n := |erred| - 1;
    if i == n {
      assert erred[..i + 1] == erred && removals[..i + 1] == removals;
    } else {
      assert erred[..n][..i + 1] == erred[..i + 1] && removals[..n][..i + 1] == removals[..i + 1];
      hide StopTask;
      StopEnds(s, erred[..n], removals[..n], i);
    }
  }

  lemma NumberedPushable(t: Task, id: nat)
    requires Pushable(t)
    ensures Pushable(Numbered(t, id))
  {
  }

  // Nothing is pushed after an exception.
  lemma {:induction false} ThrowEnds(s: Services, lastId: nat, tasks: seq<Task>, outcomes: seq<Outcome>, i: nat)
    requires |tasks| == |outcomes| && i < |tasks| && forall k :: 0 <= k < |tasks| ==> Pushable(tasks[k])
    requires PushAll(s, lastId, tasks[..i + 1], outcomes[..i + 1]).threw
    ensures PushAll(s, lastId, tasks, outcomes) == PushAll(s, lastId, tasks[..i + 1], outcomes[..i + 1])
    decreases |tasks|
  {
    var n := |tasks| - 1;
    if i == n {
      assert tasks[..i + 1] == tasks && outcomes[..i + 1] == outcomes;
    } else {
      assert tasks[..n][..i + 1] == tasks[..i + 1] && outcomes[..n][..i + 1] == outcomes[..i + 1];
      assert forall k :: 0 <= k < n ==> tasks[..n][k] == tasks[k];
      hide AfterPush, Pushable;
      ThrowEnds(s, lastId, tasks[..n], outcomes[..n], i);
    }
  }
}
