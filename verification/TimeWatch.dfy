/** The time watcher of time_tasks/src/time_based_watch.cpp: on every tick it sends the live prices
    of its tokens, and it goes on until the task is removed.
 */
module TimeWatch {
  import opened Options
  import opened PriceStore
  import opened Tasks
  import opened Sequences
  import opened Timers
  import opened Watching

  // The tokens known to the store, in the order of the task, with their live prices.
  function Fetched(log: seq<Instrument>, tokens: seq<string>, tradeType: nat): seq<Token> {
    if tokens == [] then []
    else
      Fetched(log, tokens[..|tokens| - 1], tradeType)
      + match Lookup(log, Key(tokens[|tokens| - 1], tradeType))
        case Some(x) => [TokenOf(x)]
        case None => []
  }

  // `sent` holds a message for each tick at which a token was known, `tickLogs` the length of
  // the store's insert log at every tick.
  datatype Watch = Watch(
    tokens: seq<string>,
    tradeType: nat,
    timer: Timer,
    log: seq<Instrument>,
    tickLogs: seq<nat>,
    sent: seq<seq<Token>>)

  function Scheduled(log: seq<Instrument>, task: Task): Watch {
    Watch(task.tokens, task.tradeType, Start(NO_TIMER), log, [], [])
  }

  function Messages(data: seq<Token>): seq<seq<Token>> {
    if data == [] then [] else [data]
  }

  function Ticked(w: Watch): Watch {
    w.(timer := Arm(w.timer),
       tickLogs := w.tickLogs + [|w.log|],
       sent := w.sent + Messages(Fetched(w.log, w.tokens, w.tradeType)))
  }

  predicate Enabled(w: Watch, e: Event) {
    match e
    case Insert(_) => true
    case Expires => w.timer.waiting > 0
    case Tick => w.timer.dispatched > 0
    case Remove => true
  }

  function Step(w: Watch, e: Event): Watch
    requires Enabled(w, e)
  {
    match e
    case Insert(item) => w.(log := w.log + [item])
    case Expires => w.(timer := Expire(w.timer))
    case Tick => Ticked(w.(timer := Timers.Run(w.timer)))
    case Remove => w.(timer := Stop(w.timer))
  }

  predicate Run(w: Watch, events: seq<Event>)
    decreases |events|
  {
    events == [] || (Enabled(w, events[0]) && Run(Step(w, events[0]), events[1..]))
  }

  function After(w: Watch, events: seq<Event>): Watch
    requires Run(w, events)
    decreases |events|
  {
    if events == [] then w else After(Step(w, events[0]), events[1..])
  }

  // ---------------------------------------------------------------- what every run keeps

  predicate Mentions(message: seq<Token>, name: string) {
    exists i :: 0 <= i < |message| && message[i].name == name
  }

  lemma {:induction false} FetchedMentions(log: seq<Instrument>, tokens: seq<string>, tradeType: nat, name: string)
    ensures Mentions(Fetched(log, tokens, tradeType), name) <==> name in tokens && Key(name, tradeType) in Store(log)
    ensures forall t :: t in Fetched(log, tokens, tradeType) ==>
      var live := Lookup(log, Key(t.name, tradeType)); live.Some? && t == TokenOf(live.value)
  {
    if tokens != [] {
      var init, last := tokens[..|tokens| - 1], tokens[|tokens| - 1];
      FetchedMentions(log, init, tradeType, name);
      LookupKey(log, Key(last, tradeType));
      assert tokens == init + [last];
      var before, all := Fetched(log, init, tradeType), Fetched(log, tokens, tradeType);
      if Mentions(before, name) {
        var i :| 0 <= i < |before| && before[i].name == name;
        assert all[i].name == name;
      }
      if name == last && Key(last, tradeType) in Store(log) {
        assert all[|before|].name == name;
      }
      if Mentions(all, name) && !Mentions(before, name) {
        var i :| 0 <= i < |all| && all[i].name == name;
        assert i == |before|;
      }
    }
  }

  // The messages of a list of ticks.
  function MessagesAt(w: Watch, ticks: seq<nat>): seq<seq<Token>> {
    if ticks == [] then []
    else
      var n := ticks[|ticks| - 1];
      MessagesAt(w, ticks[..|ticks| - 1])
      + if n <= |w.log| then Messages(Fetched(w.log[..n], w.tokens, w.tradeType)) else []
  }

  ghost predicate Ascending(ticks: seq<nat>, bound: nat) {
    && (forall i, j :: 0 <= i <= j < |ticks| ==> ticks[i] <= ticks[j])
    && (forall i :: 0 <= i < |ticks| ==> ticks[i] <= bound)
  }

  // What was sent is what the ticks saw, message by message, and exactly one tick is on its way
  // while the task has not been removed.
  ghost predicate Inv(w: Watch) {
    && OneTick(w.timer)
    && Ascending(w.tickLogs, |w.log|)
    && w.sent == MessagesAt(w, w.tickLogs)
  }

  lemma {:induction false} OldMessagesStay(w: Watch, w': Watch, ticks: seq<nat>)
    requires Ascending(ticks, |w.log|)
    requires w.log <= w'.log && w.tokens == w'.tokens && w.tradeType == w'.tradeType
    ensures MessagesAt(w, ticks) == MessagesAt(w', ticks)
  {
    if ticks != [] {
      OldMessagesStay(w, w', ticks[..|ticks| - 1]);
      var n := ticks[|ticks| - 1];
      assert w.log[..n] == w'.log[..n];
    }
  }

  lemma TickKeepsMessages(w: Watch)
    requires Ascending(w.tickLogs, |w.log|) && w.sent == MessagesAt(w, w.tickLogs)
    ensures Ascending(Ticked(w).tickLogs, |w.log|)
    ensures Ticked(w).sent == MessagesAt(Ticked(w), Ticked(w).tickLogs)
  {
    hide Fetched, Messages;
    var w' := Ticked(w);
    OldMessagesStay(w, w', w.tickLogs);
    assert w'.tickLogs[..|w'.tickLogs| - 1] == w.tickLogs;
    assert w.log[..|w.log|] == w.log;
  }

  lemma StepKeepsInv(w: Watch, e: Event)
    requires Inv(w) && Enabled(w, e)
    ensures Inv(Step(w, e))
  {
    hide Fetched, MessagesAt, Ascending;
    OldMessagesStay(w, Step(w, e), w.tickLogs);
    match e
    case Insert(item) => Widen(w.tickLogs, |w.log|);
    case Tick =>
      var running := w.(timer := Timers.Run(w.timer));
      OldMessagesStay(w, running, w.tickLogs);
      TickKeepsMessages(running);
    case _ =>
  }

  lemma Widen(ticks: seq<nat>, bound: nat)
    requires Ascending(ticks, bound)
    ensures Ascending(ticks, bound + 1)
  {
  }

  lemma {:induction false} RunKeepsInv(w: Watch, events: seq<Event>)
    requires Inv(w) && Run(w, events)
    ensures Inv(After(w, events))
    decreases |events|
  {
    if events != [] {
      StepKeepsInv(w, events[0]);
      RunKeepsInv(Step(w, events[0]), events[1..]);
    }
  }

  // ---------------------------------------------------------------- what is sent

  // A message about exactly the known tokens of a task, in the task's order, each with the latest price
  // and the latest opening price that were inserted for it.
  ghost predicate Reports(message: seq<Token>, log: seq<Instrument>, tokens: seq<string>, tradeType: nat) {
    var known := Filter(tokens, Known(log, tradeType));
    && |message| == |known|
    && forall i :: 0 <= i < |message| ==> Reported(message[i], log, known[i], tradeType)
  }

  ghost predicate Reported(t: Token, log: seq<Instrument>, name: string, tradeType: nat) {
    exists x :: Latest(log, name, tradeType, x) && t.name == name && t.price == x.currentPrice && t.open24h == x.open24h
  }

  lemma {:induction false} FetchedReports(log: seq<Instrument>, tokens: seq<string>, tradeType: nat)
    ensures Reports(Fetched(log, tokens, tradeType), log, tokens, tradeType)
  {
    if tokens != [] {
      var n := |tokens| - 1;
      var init, last := tokens[..n], tokens[n];
      FetchedReports(log, init, tradeType);
      KnownIsStored(log, last, tradeType);
      var keep := Known(log, tradeType);
      FilterNext(tokens, n, keep);
      assert tokens[..n + 1] == tokens;
      var live := Lookup(log, Key(last, tradeType));
      hide Known, Filter, Latest, Lookup;
      if live.Some? {
        LookupIsLatest(log, last, tradeType);
        NamedLatest(log, last, tradeType, live.value);
        assert Reported(TokenOf(live.value), log, last, tradeType);
      }
    }
  }

  lemma NamedLatest(log: seq<Instrument>, name: string, tradeType: nat, x: Instrument)
    requires Latest(log, name, tradeType, x)
    ensures x.name == name
  {
  }

  /** One tick sends one message if and only if the store knows some token of the task, which then reports
      exactly those tokens; otherwise it sends nothing.  It is recorded, and the next tick is armed. */
  lemma TickSends(w: Watch)
    ensures var w', known := Ticked(w), exists t :: t in w.tokens && Known(w.log, w.tradeType)(t);
            && (known ==> w.sent < w'.sent && |w'.sent| == |w.sent| + 1
                          && Reports(w'.sent[|w.sent|], w.log, w.tokens, w.tradeType) && w'.sent[|w.sent|] != [])
            && (!known ==> w'.sent == w.sent)
            && w' == w.(timer := Arm(w.timer), tickLogs := w.tickLogs + [|w.log|], sent := w'.sent)
  {
    FetchedReports(w.log, w.tokens, w.tradeType);
    FilterHolds(w.tokens, Known(w.log, w.tradeType));
    var known := Filter(w.tokens, Known(w.log, w.tradeType));
    hide Filter, Known, Fetched, Reported;
    if known != [] {
      assert known[0] in known;
    }
  }

  // Whether the messages are those of ticks at these times, one for each at which a token was known.
  ghost predicate SentAt(sent: seq<seq<Token>>, times: seq<nat>, log: seq<Instrument>, tokens: seq<string>,
                         tradeType: nat)
    decreases |times|
  {
    if times == [] then sent == []
    else
      var n := |times| - 1;
      times[n] <= |log|
      && var seen := log[..times[n]];
         if forall t :: t in tokens ==> !Known(seen, tradeType)(t) then SentAt(sent, times[..n], log, tokens, tradeType)
         else
           && sent != [] && Reports(sent[|sent| - 1], seen, tokens, tradeType) && sent[|sent| - 1] != []
           && SentAt(sent[..|sent| - 1], times[..n], log, tokens, tradeType)
  }

  lemma {:induction false} SentStays(sent: seq<seq<Token>>, times: seq<nat>, log: seq<Instrument>, item: Instrument,
                                      tokens: seq<string>, tradeType: nat)
    requires SentAt(sent, times, log, tokens, tradeType)
    ensures SentAt(sent, times, log + [item], tokens, tradeType)
    decreases |times|
  {
    if times != [] {
      var n := |times| - 1;
      assert (log + [item])[..times[n]] == log[..times[n]];
      var seen := log[..times[n]];
      if forall t :: t in tokens ==> !Known(seen, tradeType)(t) {
        SentStays(sent, times[..n], log, item, tokens, tradeType);
      } else {
        SentStays(sent[..|sent| - 1], times[..n], log, item, tokens, tradeType);
      }
    }
  }

  lemma TickSent(w: Watch)
    requires SentAt(w.sent, w.tickLogs, w.log, w.tokens, w.tradeType)
    ensures var w' := Ticked(w); SentAt(w'.sent, w'.tickLogs, w'.log, w'.tokens, w'.tradeType)
  {
    TickSends(w);
    hide Ticked, Reports, Known;
    var w' := Ticked(w);
    assert w'.tickLogs[..|w.tickLogs|] == w.tickLogs && w.log[..|w.log|] == w.log;
    if w'.sent != w.sent {
      assert w'.sent[..|w.sent|] == w.sent;
    }
  }

  // What the run of a watch says about the events alone.
  ghost predicate Follows(w: Watch, w': Watch, events: seq<Event>) {
    && w'.tokens == w.tokens && w'.tradeType == w.tradeType
    && w'.log == LogAfter(w.log, events)
    && w'.tickLogs == w.tickLogs + TickTimes(|w.log|, events)
    && (w.timer.made && !Removes(events) ==> w'.timer.made)
  }

  lemma StepSends(w: Watch, e: Event)
    requires Enabled(w, e) && SentAt(w.sent, w.tickLogs, w.log, w.tokens, w.tradeType)
    ensures var w' := Step(w, e); SentAt(w'.sent, w'.tickLogs, w'.log, w'.tokens, w'.tradeType)
  {
    hide SentAt, Fetched, Messages;
    match e
    case Insert(item) => SentStays(w.sent, w.tickLogs, w.log, item, w.tokens, w.tradeType);
    case Tick => TickSent(w.(timer := Timers.Run(w.timer)));
    case _ =>
  }

  lemma {:induction false} RunSends(w: Watch, events: seq<Event>)
    requires Run(w, events) && SentAt(w.sent, w.tickLogs, w.log, w.tokens, w.tradeType)
    ensures var w' := After(w, events); SentAt(w'.sent, w'.tickLogs, w'.log, w'.tokens, w'.tradeType)
    decreases |events|
  {
    if events != [] {
      hide SentAt, Step;
      StepSends(w, events[0]);
      RunSends(Step(w, events[0]), events[1..]);
    }
  }

  lemma StepFollows(w: Watch, e: Event)
    requires Enabled(w, e)
    ensures var w' := Step(w, e);
            && w'.tokens == w.tokens && w'.tradeType == w.tradeType
            && w'.log == (if e.Insert? then w.log + [e.item] else w.log)
            && w'.tickLogs == w.tickLogs + (if e.Tick? then [|w.log|] else [])
            && (w.timer.made && !e.Remove? ==> w'.timer.made)
  {
    assert w.tickLogs + [] == w.tickLogs;
  }

  lemma {:induction false} RunFollows(w: Watch, events: seq<Event>)
    requires Run(w, events)
    ensures Follows(w, After(w, events), events)
    decreases |events|
  {
    if events == [] {
      assert w.tickLogs + [] == w.tickLogs;
    } else {
      hide Removes, Step;
      RemovesCons(events);
      var e := events[0];
      StepFollows(w, e);
      RunFollows(Step(w, e), events[1..]);
      var now := if e.Tick? then [|w.log|] else [];
      var later := TickTimes(if e.Insert? then |w.log| + 1 else |w.log|, events[1..]);
      assert w.tickLogs + now + later == w.tickLogs + (now + later);
    }
  }

  /** Over every run of a scheduled time task there is a message for each tick at which the store knew some
      token, reporting exactly the known ones at the prices of that moment, and no other message; and
      until the task is removed exactly one tick is on its way. */
  lemma EveryRun(log: seq<Instrument>, task: Task, events: seq<Event>)
    requires Run(Scheduled(log, task), events)
    ensures var w := After(Scheduled(log, task), events);
            && Inv(w)
            && w.log == LogAfter(log, events)
            && SentAt(w.sent, TickTimes(|log|, events), LogAfter(log, events), task.tokens, task.tradeType)
            && (!Removes(events) ==> w.timer.waiting + w.timer.dispatched == 1)
  {
    var start := Scheduled(log, task);
    RunKeepsInv(start, events);
    RunSends(start, events);
    RunFollows(start, events);
    assert start.timer.made;
    assert start.tickLogs + TickTimes(|log|, events) == TickTimes(|log|, events);
  }

  /** A token that is in one message is in every message of a later tick. */
  lemma TokensStay(w: Watch, i: nat, j: nat, name: string)
    requires Inv(w) && i <= j < |w.tickLogs|
    requires Mentions(Fetched(w.log[..w.tickLogs[i]], w.tokens, w.tradeType), name)
    ensures Mentions(Fetched(w.log[..w.tickLogs[j]], w.tokens, w.tradeType), name)
  {
    var m, n := w.tickLogs[i], w.tickLogs[j];
    FetchedMentions(w.log[..m], w.tokens, w.tradeType, name);
    FetchedMentions(w.log[..n], w.tokens, w.tradeType, name);
    StoreOnlyGrows(w.log[..m], w.log[m..n]);
    assert w.log[..m] + w.log[m..n] == w.log[..n];
  }

  lemma {:induction false} NoTimerNoRearm(w: Watch, events: seq<Event>)
    requires OneTick(w.timer) && !w.timer.made && Run(w, events)
    ensures Ticks(events) <= w.timer.dispatched <= 1
    ensures !After(w, events).timer.made && After(w, events).timer.waiting == 0
    decreases |events|
  {
    if events != [] {
      NoTimerNoRearm(Step(w, events[0]), events[1..]);
    }
  }

  /** After removal at most the tick already dispatched still runs, and nothing re-arms. */
  lemma AfterRemoval(w: Watch, events: seq<Event>)
    requires Inv(w) && Run(Step(w, Remove), events)
    ensures Ticks(events) <= w.timer.dispatched <= 1
    ensures After(Step(w, Remove), events).timer.waiting == 0
  {
    NoTimerNoRearm(Step(w, Remove), events);
  }

  /** The one tick that is on its way can come, whatever else happens. */
  lemma TickComes(w: Watch, item: Instrument)
    ensures w.timer.waiting > 0 ==> Enabled(w, Expires) && Enabled(Step(w, Expires), Tick)
    ensures w.timer.dispatched > 0 ==> Enabled(w, Tick)
    ensures Enabled(w, Remove) && Enabled(w, Insert(item))
  {
  }

  // A run is any sequence of steps each of which is enabled.
  lemma RunIsSteps(w: Watch, e: Event, events: seq<Event>)
    ensures Run(w, []) && After(w, []) == w
    ensures Run(w, [e] + events) <==> Enabled(w, e) && Run(Step(w, e), events)
    ensures Run(w, [e] + events) ==> After(w, [e] + events) == After(Step(w, e), events)
  {
    assert ([e] + events)[1..] == events;
    hide Step, Enabled;
  }

  // ---------------------------------------------------------------- the watcher itself

  lemma NextFetched(log: seq<Instrument>, list: seq<Instrument>, tokens: seq<string>, tradeType: nat, i: nat)
    requires Lists(Store(log), list) && i < |tokens|
    ensures Fetched(log, tokens[..i + 1], tradeType)
            == Fetched(log, tokens[..i], tradeType)
               + match Scan(list, tokens[i], tradeType) case Some(x) => [TokenOf(x)] case None => []
    ensures Fetched(log, tokens[..0], tradeType) == []
  {
    ScanIsLookup(log, list, tokens[i], tradeType);
    assert tokens[..i + 1][..i] == tokens[..i];
  }

  class TimeWatcher {
    const task: Task
    const instruments: UniqueElements
    var timer: Timer
    var outbox: seq<seq<Token>>
    ghost var tickLogs: seq<nat>

    ghost function View(): Watch
      reads this, instruments
    {
      Watch(task.tokens, task.tradeType, timer, instruments.log, tickLogs, outbox)
    }

    constructor (instruments: UniqueElements, task: Task)
      ensures this.instruments == instruments && this.task == task
      ensures View() == Scheduled(instruments.log, task).(timer := NO_TIMER)
    {
      this.instruments, this.task := instruments, task;
      timer, outbox, tickLogs := NO_TIMER, [], [];
    }

    method NextTimer()
      modifies this`timer
      ensures View() == old(View()).(timer := Arm(old(timer)))
    {
      if !timer.made {
        return;
      }
      timer := timer.(waiting := 0);
      timer := timer.(waiting := timer.waiting + 1);
    }

    method Call()
      modifies this`timer
      ensures View() == old(View()).(timer := Start(old(timer)))
    {
      if timer.made {
        return;
      }
      timer := timer.(made := true);
      NextTimer();
    }

    method Stop()
      modifies this`timer
      ensures View() == old(View()).(timer := Timers.Stop(old(timer)))
    {
      if timer.made {
        timer := timer.(waiting := 0);
        timer := timer.(made := false);
      }
    }

    method FetchPrices()
      requires instruments.Valid()
      modifies this
      ensures instruments.Valid() && View() == Ticked(old(View()))
    {
      hide Lists, Store, Scan, Fetched;
      var list := instruments.ToList();
      ghost var log, before := instruments.log, View();
      var data: seq<Token> := [];
      NoTokensNoData(log, task.tradeType);
      assert task.tokens[..0] == [];
      for i := 0 to |task.tokens|
        invariant View() == before
        invariant data == Fetched(log, task.tokens[..i], task.tradeType)
      {
        NextFetched(log, list, task.tokens, task.tradeType, i);
        var found := Scan(list, task.tokens[i], task.tradeType);
        if found.Some? {
          data := data + [TokenOf(found.value)];
        }
      }
      assert task.tokens[..|task.tokens|] == task.tokens;
      tickLogs := tickLogs + [|log|];
      if data != [] {
        outbox := outbox + [data];
      }
      NextTimer();
    }
  }

  lemma NoTokensNoData(log: seq<Instrument>, tradeType: nat)
    ensures Fetched(log, [], tradeType) == []
  {
  }
}
