/** The contracts of a pricing request become tasks: `add_new_pricing_tasks` of
    http_stream/src/session.cpp.  JSON and the names of enumerations are read before: a contract
    holds what was found in it, and `None` for a missing key.
 */
module Contracts {
  import opened Options
  import opened Registry
  import opened Scheduling
  import opened Sequences
  import opened Tasks
  import opened Wire

  datatype Duration = Seconds | Minutes | Hours | Days | Weeks | InvalidDuration

  datatype Contract = Contract(
    symbols: seq<string>,
    tradeType: nat,
    exchange: nat,
    intervals: Option<int>,
    duration: Option<Duration>,
    percentage: Option<real>,
    direction: Option<nat>)

  // `price_direction_e`
  const UP := 0
  const DOWN := 1
  const INVALID := 2

  datatype Refusal = MissingDuration | BadDuration | MissingDirection | BadDirection | BadPercentage

  datatype Built = Tasks(tasks: seq<Task>) | Refusal(why: Refusal)

  datatype One = Fine(task: Task) | Bad(why: Refusal)

  function UnitMs(d: Duration): int {
    match d
    case Seconds => 1_000
    case Minutes => 60_000
    case Hours => 3_600_000
    case Days => 86_400_000
    case Weeks => 604_800_000
    case InvalidDuration => 0
  }

  // `milliseconds_from_string`: a signed count, returned as a `uint64_t`
  function Milliseconds(d: Duration, t: int): nat {
    t * UnitMs(d) % 0x1_0000_0000_0000_0000
  }

  function Abs(x: real): real {
    if x < 0.0 then -x else x
  }

  function DurationValue(d: Duration): nat {
    match d
    case Seconds => 0
    case Minutes => 1
    case Hours => 2
    case Days => 3
    case Weeks => 4
    case InvalidDuration => 5
  }

  // One turn of the loop over the contracts.
  function TaskOf(user: string, taskId: string, c: Contract): One {
    var plain := Task(taskId, user, c.symbols, c.tradeType, c.exchange, None, None, 0, 0);
    if c.intervals.Some? then
      if c.duration.None? then Bad(MissingDuration)
      else
        var ms := Milliseconds(c.duration.value, c.intervals.value);
        if ms == 0 then Bad(BadDuration)
        else Fine(plain.(timeProp := Some(Interval(ms, DurationValue(c.duration.value)))))
    else if c.percentage.Some? then
      if c.direction.None? then Bad(MissingDirection)
      else if c.direction.value == INVALID then Bad(BadDirection)
      else
        var percentage := Abs(c.percentage.value) * if c.direction.value == DOWN then -1.0 else 1.0;
        if percentage == 0.0 then Bad(BadPercentage)
        else Fine(plain.(percentProp := Some(Percent(percentage, c.direction.value))))
    else Fine(plain)
  }

  // The tasks of a request, or what is wrong with its first bad contract.
  function Build(user: string, taskId: string, contracts: seq<Contract>): Built {
    if contracts == [] then Tasks([])
    else
      var n := |contracts| - 1;
      match Build(user, taskId, contracts[..n])
      case Refusal(why) => Refusal(why)
      case Tasks(tasks) =>
        match TaskOf(user, taskId, contracts[n])
        case Bad(why) => Refusal(why)
        case Fine(task) => Tasks(tasks + [task])
  }

  method BuildTasks(user: string, taskId: string, contracts: seq<Contract>) returns (built: Built)
    ensures built == Build(user, taskId, contracts)
  {
    hide TaskOf;
    var tasks := [];
    var i := 0;
    while i < |contracts|
      invariant 0 <= i <= |contracts|
      invariant Build(user, taskId, contracts[..i]) == Tasks(tasks)
    {
      var one := TaskOf(user, taskId, contracts[i]);
      assert contracts[..i + 1][..i] == contracts[..i];
      if one.Bad? {
        RefusalStays(user, taskId, contracts, i + 1);
        return Refusal(one.why);
      }
      tasks := tasks + [one.task];
      i := i + 1;
    }
    assert contracts[..i] == contracts;
    built := Tasks(tasks);
  }

  lemma {:induction false} RefusalStays(user: string, taskId: string, contracts: seq<Contract>, i: nat)
    requires i <= |contracts| && Build(user, taskId, contracts[..i]).Refusal?
    ensures Build(user, taskId, contracts) == Build(user, taskId, contracts[..i])
  {
    if i == |contracts| {
      assert contracts[..i] == contracts;
    } else {
      assert contracts[..|contracts| - 1][..i] == contracts[..i];
      RefusalStays(user, taskId, contracts[..|contracts| - 1], i);
    }
  }

  // ---------------------------------------------------------------- what a request must say

  // An interval counts before a percentage; a contract with neither is built too.
  ghost predicate Buildable(c: Contract) {
    if c.intervals.Some? then
      c.duration.Some? && Milliseconds(c.duration.value, c.intervals.value) != 0
    else
      c.percentage.Some? ==> c.direction.Some? && c.direction.value != INVALID && c.percentage.value != 0.0
  }

  ghost predicate Complete(c: Contract) {
    && Buildable(c) && (c.intervals.Some? || c.percentage.Some?)
    && c.symbols != [] && Distinct(c.symbols)
    && c.exchange != EXCHANGE_TOTAL && c.tradeType != TRADE_TYPE_TOTAL
  }

  lemma TaskOfMeaning(user: string, taskId: string, c: Contract)
    ensures TaskOf(user, taskId, c).Fine? <==> Buildable(c)
    ensures TaskOf(user, taskId, c).Fine? ==>
            var t := TaskOf(user, taskId, c).task;
            && t.userId == user && t.taskId == taskId && t.tokens == c.symbols
            && t.tradeType == c.tradeType && t.exchange == c.exchange
            && t.timeProp == (if c.intervals.None? then None
                              else Some(Interval(Milliseconds(c.duration.value, c.intervals.value),
                                                 DurationValue(c.duration.value))))
            && (t.percentProp.Some? <==> c.intervals.None? && c.percentage.Some?)
            && (t.percentProp.Some? ==>
                && t.percentProp.value.direction == c.direction.value
                && (t.percentProp.value.percentage < 0.0 <==> c.direction.value == DOWN)
                && (t.percentProp.value.percentage == c.percentage.value
                    || t.percentProp.value.percentage == -c.percentage.value))
            && (Checked(t).Some? <==> Complete(c))
  {
    var one := TaskOf(user, taskId, c);
    if one.Fine? {
      CheckedMeaning(one.task);
    }
  }

  /** Tasks are built if and only if every contract can be, one task a contract in order, all of them
      with the request's own ids; a request passes the scheduler's check if and only if every contract
      is complete. */
  lemma {:induction false} BuildMeaning(user: string, taskId: string, contracts: seq<Contract>)
    ensures Build(user, taskId, contracts).Tasks? <==> forall i :: 0 <= i < |contracts| ==> Buildable(contracts[i])
    ensures Build(user, taskId, contracts).Tasks? ==>
            var tasks := Build(user, taskId, contracts).tasks;
            && |tasks| == |contracts| && OneRequest(tasks, user, taskId)
            && forall i :: 0 <= i < |tasks| ==> TaskOf(user, taskId, contracts[i]) == Fine(tasks[i])
  {
    if contracts != [] {
      var n := |contracts| - 1;
      BuildMeaning(user, taskId, contracts[..n]);
      TaskOfMeaning(user, taskId, contracts[n]);
      hide TaskOf, Buildable;
      assert forall i :: 0 <= i < n ==> contracts[..n][i] == contracts[i];
    }
  }

  lemma {:induction false} CheckedAllMeaning(tasks: seq<Task>)
    ensures CheckedAll(tasks).Some? <==> forall i :: 0 <= i < |tasks| ==> Checked(tasks[i]).Some?
  {
    hide Checked;
  }

  /** A pricing request from its contracts to the services: it is refused as a whole with nothing changed
      unless every contract is complete; if it is complete, it is scheduled exactly if every push is
      accepted, and else either no task of the request is held by any service, or a call threw and
      something is held that no removal reached. */
  lemma RequestAllOrNothing(s: Services, lastId: nat, user: string, taskId: string,
                            contracts: seq<Contract>, outcomes: seq<Outcome>, removals: seq<Removal>)
    requires |contracts| == |outcomes| == |removals| && ServicesWellFormed(s)
    requires Build(user, taskId, contracts).Tasks?
    ensures |Build(user, taskId, contracts).tasks| == |outcomes|
    ensures var tasks := Build(user, taskId, contracts).tasks;
            var (answer, s', _) := Schedule(s, lastId, tasks, outcomes, removals);
            && ((exists i :: 0 <= i < |contracts| && !Complete(contracts[i])) ==> answer == NotScheduled && s' == s)
            && ((forall i :: 0 <= i < |contracts| ==> Complete(contracts[i])) ==>
                && (answer == Scheduled <==> forall i :: 0 <= i < |outcomes| ==> outcomes[i].Accepted?)
                && (answer == Exception <==> SomethingThrows(outcomes, removals))
                && (answer == NotScheduled ==> !Held(s', user, taskId))
                && (answer == Exception ==>
                    (Held(s', user, taskId) <==> StaysHeld(s, tasks, outcomes, removals, user, taskId))))
  {
    hide TaskOf, Checked, Complete, Schedule, ServicesWellFormed, SameButFor, Held, Build, OneRequest, StaysHeld,
      SomethingThrows;
    var tasks := Build(user, taskId, contracts).tasks;
    BuildMeaning(user, taskId, contracts);
    forall i | 0 <= i < |contracts|
      ensures Checked(tasks[i]).Some? <==> Complete(contracts[i])
    {
      TaskOfMeaning(user, taskId, contracts[i]);
    }
    CheckedAllMeaning(tasks);
    AllOrNothing(s, lastId, tasks, outcomes, removals, user, taskId);
  }

  // ---------------------------------------------------------------- the interval asked for

  /** The units in milliseconds, and the values of their enumeration in its order. */
  lemma Units()
    ensures UnitMs(Seconds) == 1000 && UnitMs(Minutes) == 60 * UnitMs(Seconds) && UnitMs(Hours) == 60 * UnitMs(Minutes)
    ensures UnitMs(Days) == 24 * UnitMs(Hours) && UnitMs(Weeks) == 7 * UnitMs(Days) && UnitMs(InvalidDuration) == 0
    ensures var units := [Seconds, Minutes, Hours, Days, Weeks, InvalidDuration];
            forall i :: 0 <= i < |units| ==> DurationValue(units[i]) == i
  {
  }

  /** Of the intervals whose milliseconds fit a signed word, exactly those other than zero, with a valid
      unit, are built. */
  lemma IntervalBuilt(user: string, taskId: string, c: Contract)
    requires c.intervals.Some? && c.duration.Some?
    requires -0x8000_0000_0000_0000 <= c.intervals.value * UnitMs(c.duration.value) < 0x8000_0000_0000_0000
    ensures TaskOf(user, taskId, c).Fine? <==> c.intervals.value != 0 && c.duration.value != InvalidDuration
  {
    var unit, n := UnitMs(c.duration.value), c.intervals.value;
    TaskOfMeaning(user, taskId, c);
    assert unit == 0 <==> c.duration.value == InvalidDuration;
    if unit == 0 || n == 0 {
      assert n * unit == 0;
    } else {
      NotZero(n, unit);
    }
  }

  lemma NotZero(a: int, b: int)
    requires a != 0 && b != 0
    ensures a * b != 0
  {
  }

  /** Of those that are built, the ones scheduled as asked for are exactly the positive ones. */
  lemma IntervalAsAsked(user: string, taskId: string, c: Contract)
    requires c.intervals.Some? && TaskOf(user, taskId, c).Fine?
    requires -0x8000_0000_0000_0000 <= c.intervals.value * UnitMs(c.duration.value) < 0x8000_0000_0000_0000
    ensures TaskOf(user, taskId, c).task.timeProp.Some?
    ensures TaskOf(user, taskId, c).task.timeProp.value.timeMS == c.intervals.value * UnitMs(c.duration.value)
            <==> c.intervals.value > 0
    ensures c.intervals.value < 0 ==>
              TaskOf(user, taskId, c).task.timeProp.value.timeMS
              == c.intervals.value * UnitMs(c.duration.value) + 0x1_0000_0000_0000_0000
  {
    TaskOfMeaning(user, taskId, c);
    var unit, n := UnitMs(c.duration.value), c.intervals.value;
    assert unit > 0 by {
      assert n * 0 == 0;
    }
    if n < 0 {
      assert n * unit < 0;
    } else if n > 0 {
      assert n * unit > 0;
    }
  }

  /** A negative interval is taken as a huge positive one, so it passes every check: five minutes below
      zero, for one. */
  lemma NegativeIntervalPasses()
    ensures var c := Contract(["BTC"], 1, 0, Some(-5), Some(Minutes), None, None);
            var t := TaskOf("user", "job", c);
            t.Fine? && t.task.timeProp.value.timeMS == 0xFFFF_FFFF_FFFF_FFFF - 299_999 && Checked(t.task).Some?
  {
    var c := Contract(["BTC"], 1, 0, Some(-5), Some(Minutes), None, None);
    assert Milliseconds(Minutes, -5) == 0x1_0000_0000_0000_0000 - 300_000;
    TaskOfMeaning("user", "job", c);
  }
}
