/** The progress watcher of progress_tasks/src/progress_based_task.cpp: a task takes a snapshot of
    its tokens, raises each price to a threshold, and on every tick of a 100 ms timer alerts the
    tokens whose live price meets the threshold.  An alerted token is dropped; the watcher stops
    itself when none is left.
 */
module ProgressWatch {
  import opened Options
  import opened PriceStore
  import opened Sequences
  import opened Tasks
  import opened Timers
  import opened Watching

  // ---------------------------------------------------------------- thresholds

  function Threshold(price: real, percentage: real): real {
    var t := price * (percentage / 100.0);
    if percentage < 0.0 then price - t else price + t
  }

  // `m_comparator(threshold, live)`
  predicate Fires(percentage: real, threshold: real, live: real) {
    if percentage < 0.0 then threshold <= live else threshold >= live
  }

  /** Both signs of the percentage put the threshold |p| per cent above the price.  A negative
      percentage alerts from there upwards and a positive one from there downwards, so that with
      the price standing still a task alerts at once if and only if its percentage is not negative. */
  lemma AlertCondition(price: real, percentage: real, live: real)
    ensures var size := if percentage < 0.0 then -percentage else percentage;
            var level := price + price * size / 100.0;
            && Threshold(price, percentage) == level
            && (Fires(percentage, Threshold(price, percentage), live) <==>
                if percentage < 0.0 then live >= level else live <= level)
    ensures price >= 0.0 && percentage >= 0.0 ==> Fires(percentage, Threshold(price, percentage), price)
    ensures price > 0.0 ==> (Fires(percentage, Threshold(price, percentage), price) <==> percentage >= 0.0)
  {
    var size := if percentage < 0.0 then -percentage else percentage;
    assert price * (size / 100.0) == price * size / 100.0;
    if percentage < 0.0 {
      assert price * (percentage / 100.0) == -(price * (size / 100.0));
      if price > 0.0 {
        assert price * (size / 100.0) > 0.0;
      }
    } else if price >= 0.0 {
      assert price * (size / 100.0) >= 0.0;
    }
  }

  /** Five per cent on a price of a hundred. */
  lemma AlertsAtOnce()
    ensures Threshold(100.0, 5.0) == 105.0 && Fires(5.0, 105.0, 100.0)
  {
  }

  // ---------------------------------------------------------------- the machine

  datatype Alert = Alert(token: Token, tick: nat)

  // `log` is the insert log of the shared store.  `tickLogs` records how long it was at each
  // tick and `alerts` what was sent; no step reads these two.
  datatype Watch = Watch(
    percentage: real,
    snapshots: seq<Instrument>,
    timer: Timer,
    log: seq<Instrument>,
    tickLogs: seq<nat>,
    alerts: seq<Alert>)

  // The tokens found in the store, in the order of the task, with their thresholds.
  function Snapshots(log: seq<Instrument>, tokens: seq<string>, tradeType: nat, percentage: real): seq<Instrument> {
    if tokens == [] then []
    else
      (match Lookup(log, Key(tokens[0], tradeType))
       case Some(x) => [x.(currentPrice := Threshold(x.currentPrice, percentage))]
       case None => [])
      + Snapshots(log, tokens[1..], tradeType, percentage)
  }

  function Constructed(log: seq<Instrument>, task: Task): Watch
    requires task.percentProp.Some?
  {
    var p := task.percentProp.value.percentage;
    Watch(p, Snapshots(log, task.tokens, task.tradeType, p), NO_TIMER, log, [], [])
  }

  // What is left by `schedule_new_progress_task_impl`: constructed and then run.
  function Scheduled(log: seq<Instrument>, task: Task): Watch
    requires task.percentProp.Some?
  {
    Called(Constructed(log, task))
  }

  function Called(w: Watch): Watch {
    w.(timer := Start(w.timer))
  }

  predicate FiresIn(percentage: real, log: seq<Instrument>, snapshot: Instrument) {
    var live := Lookup(log, KeyOf(snapshot));
    live.Some? && Fires(percentage, snapshot.currentPrice, live.value.currentPrice)
  }

  function Firing(percentage: real, log: seq<Instrument>): Instrument -> bool {
    (s: Instrument) => FiresIn(percentage, log, s)
  }

  function TokensOf(alerts: seq<Alert>): seq<Token> {
    Map((a: Alert) => a.token, alerts)
  }

  function AlertAt(tick: nat): Instrument -> Alert {
    (s: Instrument) => Alert(TokenOf(s), tick)
  }

  // The tokens of one result, in snapshot order.
  function Hits(w: Watch): seq<Alert> {
    Map(AlertAt(|w.tickLogs|), Filter(w.snapshots, Firing(w.percentage, w.log)))
  }

  predicate Named(hits: seq<Alert>, name: string) {
    exists i :: 0 <= i < |hits| && hits[i].token.name == name
  }

  function NameIs(name: string): Instrument -> bool {
    (s: Instrument) => s.name == name
  }

  function HasNameIn(hits: seq<Alert>): Instrument -> bool {
    (s: Instrument) => Named(hits, s.name)
  }

  // `remove_if` by the name of each hit.
  function Unnamed(snapshots: seq<Instrument>, hits: seq<Alert>): seq<Instrument> {
    Filter(snapshots, Not(HasNameIn(hits)))
  }

  function Ticked(w: Watch): Watch {
    var rest := Unnamed(w.snapshots, Hits(w));
    w.(snapshots := rest,
       timer := if rest == [] then Stop(w.timer) else Arm(w.timer),
       tickLogs := w.tickLogs + [|w.log|],
       alerts := w.alerts + Hits(w))
  }

  predicate Enabled(w: Watch, e: Event) {
    match e
    case Insert(_) => true
    case Expires => w.timer.waiting > 0
    case Tick => w.timer.dispatched > 0
    case Remove => true
  }

  function Step(w: Watch, e: Event): Watch
    requires Enabled(w, e)
  {
    match e
    case Insert(item) => w.(log := w.log + [item])
    case Expires => w.(timer := Expire(w.timer))
    case Tick => Ticked(w.(timer := Timers.Run(w.timer)))
    case Remove => w.(timer := Stop(w.timer))
  }

  predicate Run(w: Watch, events: seq<Event>)
    decreases |events|
  {
    events == [] || (Enabled(w, events[0]) && Run(Step(w, events[0]), events[1..]))
  }

  function After(w: Watch, events: seq<Event>): Watch
    requires Run(w, events)
    decreases |events|
  {
    if events == [] then w else After(Step(w, events[0]), events[1..])
  }

  // ---------------------------------------------------------------- what every step keeps

  // Equal names mean the same snapshot, because all come from one look at the store.
  ghost predicate NamesDistinguish(snapshots: seq<Instrument>) {
    forall x, y :: x in snapshots && y in snapshots && x.name == y.name ==> x == y
  }

  ghost predicate AllKnown(w: Watch) {
    forall s :: s in w.snapshots ==> KeyOf(s) in Store(w.log)
  }

  ghost predicate TicksInOrder(w: Watch) {
    forall k :: 0 <= k < |w.tickLogs| ==> w.tickLogs[k] <= |w.log|
  }

  function NameOf(): Instrument -> string {
    (s: Instrument) => s.name
  }

  function NamesOf(snapshots: seq<Instrument>): seq<string> {
    Map(NameOf(), snapshots)
  }

  function AlertedNames(alerts: seq<Alert>): seq<string> {
    Map((a: Alert) => a.token.name, alerts)
  }

  // Alerted and remaining tokens make up the initial ones, counted with multiplicity.
  ghost predicate Partition(start: Watch, w: Watch) {
    multiset(AlertedNames(w.alerts)) + multiset(NamesOf(w.snapshots)) == multiset(NamesOf(start.snapshots))
  }

  // Whether the latest price inserted for `snapshot` has reached its threshold.
  ghost predicate Meets(percentage: real, log: seq<Instrument>, snapshot: Instrument) {
    exists x :: Latest(log, snapshot.name, snapshot.tradeType, x)
      && if percentage < 0.0 then x.currentPrice >= snapshot.currentPrice else x.currentPrice <= snapshot.currentPrice
  }

  lemma LatestIsOne(log: seq<Instrument>, name: string, tradeType: nat, x: Instrument, y: Instrument)
    requires Latest(log, name, tradeType, x) && Latest(log, name, tradeType, y)
    ensures x == y
  {
  }

  lemma MeetsIsFires(percentage: real, log: seq<Instrument>, snapshot: Instrument)
    ensures Meets(percentage, log, snapshot) <==> FiresIn(percentage, log, snapshot)
  {
    var name, tradeType := snapshot.name, snapshot.tradeType;
    KnownIsStored(log, name, tradeType);
    if Lookup(log, KeyOf(snapshot)).Some? {
      var live := Lookup(log, KeyOf(snapshot)).value;
      LookupIsLatest(log, name, tradeType);
      if Meets(percentage, log, snapshot) {
        var x :| Latest(log, name, tradeType, x)
          && if percentage < 0.0 then x.currentPrice >= snapshot.currentPrice else x.currentPrice <= snapshot.currentPrice;
        LatestIsOne(log, name, tradeType, x, live);
      }
    }
  }

  // Whether `snapshot` met its threshold at tick `k`, by the prices inserted until then.
  ghost predicate FiredAt(w: Watch, snapshot: Instrument, k: nat)
    requires k < |w.tickLogs| && w.tickLogs[k] <= |w.log|
  {
    Meets(w.percentage, w.log[..w.tickLogs[k]], snapshot)
  }

  ghost predicate NeverFiredBefore(w: Watch, snapshot: Instrument, n: nat)
    requires TicksInOrder(w) && n <= |w.tickLogs|
  {
    forall k: nat :: k < n ==> !FiredAt(w, snapshot, k)
  }

  // An alert carries the threshold as its price.
  ghost predicate AlertIsFirstHit(start: Watch, w: Watch, a: Alert)
    requires TicksInOrder(w)
  {
    exists s :: s in start.snapshots
      && a.token.name == s.name && a.token.price == s.currentPrice && a.token.open24h == s.open24h
      && a.tick < |w.tickLogs| && FiredAt(w, s, a.tick) && NeverFiredBefore(w, s, a.tick)
  }

  // Each alert was sent at the first tick at which its token met the threshold, and the tokens
  // that remain have not met theirs at any tick.
  ghost predicate AlertsAreFirstHits(start: Watch, w: Watch) {
    && TicksInOrder(w)
    && (forall a :: a in w.alerts ==> AlertIsFirstHit(start, w, a))
    && (forall s :: s in w.snapshots ==> s in start.snapshots && NeverFiredBefore(w, s, |w.tickLogs|))
  }

  // At most one tick is on its way; none is once a tick has left no snapshots.
  ghost predicate TimerSafe(w: Watch) {
    OneTick(w.timer) && (w.snapshots == [] && w.tickLogs != [] ==> w.timer == NO_TIMER)
  }

  // ---------------------------------------------------------------- one tick

  lemma HitsAreFirings(w: Watch)
    requires NamesDistinguish(w.snapshots)
    ensures Unnamed(w.snapshots, Hits(w)) == Filter(w.snapshots, Not(Firing(w.percentage, w.log)))
  {
    var firing := Filter(w.snapshots, Firing(w.percentage, w.log));
    FilterHolds(w.snapshots, Firing(w.percentage, w.log));
    forall s | s in w.snapshots
      ensures Named(Hits(w), s.name) == FiresIn(w.percentage, w.log, s)
    {
      if FiresIn(w.percentage, w.log, s) {
        var i :| 0 <= i < |firing| && firing[i] == s;
        assert Hits(w)[i].token.name == s.name;
      }
      if Named(Hits(w), s.name) {
        var i :| 0 <= i < |Hits(w)| && Hits(w)[i].token.name == s.name;
        assert firing[i] in firing && firing[i].name == s.name;
      }
    }
    FilterSame(w.snapshots, Not(HasNameIn(Hits(w))), Not(Firing(w.percentage, w.log)));
  }

  lemma TickKeepsPartition(start: Watch, w: Watch)
    requires NamesDistinguish(w.snapshots) && Partition(start, w)
    ensures Partition(start, Ticked(w))
  {
    HitsAreFirings(w);
    FilterSplits(w.snapshots, Firing(w.percentage, w.log), NameOf());
    HitNames(w);
    AlertedNamesAppend(w.alerts, Hits(w));
    hide Filter, Firing, Hits, AlertedNames, Map, NameOf, Unnamed;
  }

  lemma HitNames(w: Watch)
    ensures AlertedNames(Hits(w)) == NamesOf(Filter(w.snapshots, Firing(w.percentage, w.log)))
  {
    hide Filter, Firing;
  }

  lemma AlertedNamesAppend(a: seq<Alert>, b: seq<Alert>)
    ensures AlertedNames(a + b) == AlertedNames(a) + AlertedNames(b)
  {
  }

  // Earlier ticks look the same after another one.
  lemma OldTicksAgree(w: Watch, s: Instrument, n: nat)
    requires TicksInOrder(w) && n <= |w.tickLogs|
    ensures TicksInOrder(Ticked(w))
    ensures NeverFiredBefore(w, s, n) == NeverFiredBefore(Ticked(w), s, n)
    ensures n < |w.tickLogs| ==> FiredAt(w, s, n) == FiredAt(Ticked(w), s, n)
  {
    hide Meets, Hits, Unnamed;
    assert forall k: nat :: k < |w.tickLogs| ==> FiredAt(w, s, k) == FiredAt(Ticked(w), s, k);
  }

  lemma TickFires(w: Watch, s: Instrument)
    requires TicksInOrder(w)
    ensures TicksInOrder(Ticked(w))
    ensures FiredAt(Ticked(w), s, |w.tickLogs|) == FiresIn(w.percentage, w.log, s)
  {
    assert w.log[..|w.log|] == w.log;
    hide Meets, FiresIn;
    MeetsIsFires(w.percentage, w.log, s);
  }

  lemma OldAlertStays(start: Watch, w: Watch, a: Alert)
    requires TicksInOrder(w) && AlertIsFirstHit(start, w, a)
    ensures TicksInOrder(Ticked(w)) && AlertIsFirstHit(start, Ticked(w), a)
  {
    var s :| s in start.snapshots
      && a.token.name == s.name && a.token.price == s.currentPrice && a.token.open24h == s.open24h
      && a.tick < |w.tickLogs| && FiredAt(w, s, a.tick) && NeverFiredBefore(w, s, a.tick);
    OldTicksAgree(w, s, a.tick);
  }

  lemma NewAlertIsFirstHit(start: Watch, w: Watch, a: Alert)
    requires AlertsAreFirstHits(start, w) && a in Hits(w)
    ensures TicksInOrder(Ticked(w)) && AlertIsFirstHit(start, Ticked(w), a)
  {
    var p, n := Firing(w.percentage, w.log), |w.tickLogs|;
    FilterHolds(w.snapshots, p);
    var i :| 0 <= i < |Hits(w)| && Hits(w)[i] == a;
    var s := Filter(w.snapshots, p)[i];
    assert s in w.snapshots && p(s);
    OldTicksAgree(w, s, n);
    TickFires(w, s);
  }

  lemma TickKeepsFirstHits(start: Watch, w: Watch)
    requires NamesDistinguish(w.snapshots) && AlertsAreFirstHits(start, w)
    ensures AlertsAreFirstHits(start, Ticked(w))
  {
    var w', n := Ticked(w), |w.tickLogs|;
    forall a | a in w'.alerts
      ensures TicksInOrder(w') && AlertIsFirstHit(start, w', a)
    {
      if a in w.alerts {
        OldAlertStays(start, w, a);
      } else {
        NewAlertIsFirstHit(start, w, a);
      }
    }
    HitsAreFirings(w);
    FilterHolds(w.snapshots, Not(Firing(w.percentage, w.log)));
    forall s | s in w'.snapshots
      ensures s in start.snapshots && NeverFiredBefore(w', s, n + 1)
    {
      OldTicksAgree(w, s, n);
      TickFires(w, s);
      assert s in w.snapshots && !FiresIn(w.percentage, w.log, s);
    }
  }

  // ---------------------------------------------------------------- every step, every run

  ghost predicate AlertsInv(start: Watch, w: Watch) {
    && NamesDistinguish(w.snapshots)
    && AllKnown(w)
    && Partition(start, w)
    && AlertsAreFirstHits(start, w)
  }

  ghost predicate Inv(start: Watch, w: Watch) {
    AlertsInv(start, w) && TimerSafe(w)
  }

  lemma InsertKeepsAlerts(start: Watch, w: Watch, item: Instrument)
    requires AlertsInv(start, w)
    ensures AlertsInv(start, w.(log := w.log + [item]))
  {
    var w' := w.(log := w.log + [item]);
    StoreOnlyGrows(w.log, [item]);
    forall s: Instrument, k: nat | k < |w.tickLogs|
      ensures FiredAt(w', s, k) == FiredAt(w, s, k)
    {
      assert w'.log[..w.tickLogs[k]] == w.log[..w.tickLogs[k]];
    }
    hide FiredAt;
    assert forall s, n: nat :: n <= |w.tickLogs| ==> NeverFiredBefore(w', s, n) == NeverFiredBefore(w, s, n);
    assert forall a :: a in w.alerts ==> AlertIsFirstHit(start, w', a);
  }

  lemma TickKeepsAlerts(start: Watch, w: Watch)
    requires AlertsInv(start, w)
    ensures AlertsInv(start, Ticked(w))
  {
    TickKeepsPartition(start, w);
    TickKeepsFirstHits(start, w);
    FilterHolds(w.snapshots, Not(HasNameIn(Hits(w))));
  }

  // The alerts do not depend on the timer.
  lemma RetimeKeepsAlerts(start: Watch, w: Watch, timer: Timer)
    requires AlertsInv(start, w)
    ensures AlertsInv(start, w.(timer := timer))
  {
    var w' := w.(timer := timer);
    assert forall s: Instrument, k: nat :: k < |w.tickLogs| ==> FiredAt(w', s, k) == FiredAt(w, s, k);
    hide FiredAt;
    assert forall s, n: nat :: n <= |w.tickLogs| ==> NeverFiredBefore(w', s, n) == NeverFiredBefore(w, s, n);
    assert forall a :: a in w.alerts ==> AlertIsFirstHit(start, w', a);
  }

  lemma StepKeepsTimer(w: Watch, e: Event)
    requires TimerSafe(w) && Enabled(w, e)
    ensures TimerSafe(Step(w, e))
  {
    hide Hits;
    if e.Tick? && w.snapshots == [] {
      assert Unnamed(w.snapshots, Hits(w.(timer := Timers.Run(w.timer)))) == [];
    }
  }

  lemma StepKeepsInv(start: Watch, w: Watch, e: Event)
    requires Inv(start, w) && Enabled(w, e)
    ensures Inv(start, Step(w, e))
  {
    StepKeepsTimer(w, e);
    match e
    case Insert(item) => InsertKeepsAlerts(start, w, item);
    case Expires => RetimeKeepsAlerts(start, w, Expire(w.timer));
    case Tick =>
      RetimeKeepsAlerts(start, w, Timers.Run(w.timer));
      TickKeepsAlerts(start, w.(timer := Timers.Run(w.timer)));
    case Remove => RetimeKeepsAlerts(start, w, Stop(w.timer));
  }

  // What `find_if` over the token list put into the snapshots.
  lemma {:induction false} SnapshotsAreLookups(log: seq<Instrument>, tokens: seq<string>, tradeType: nat, percentage: real)
    ensures forall s :: s in Snapshots(log, tokens, tradeType, percentage) ==>
      var live := Lookup(log, Key(s.name, tradeType));
      live.Some? && s == live.value.(currentPrice := Threshold(live.value.currentPrice, percentage))
        && s.tradeType == tradeType
    ensures multiset(NamesOf(Snapshots(log, tokens, tradeType, percentage))) <= multiset(tokens)
  {
    if tokens != [] {
      var rest := Snapshots(log, tokens[1..], tradeType, percentage);
      LookupKey(log, Key(tokens[0], tradeType));
      SnapshotsAreLookups(log, tokens[1..], tradeType, percentage);
      assert tokens == [tokens[0]] + tokens[1..];
      match Lookup(log, Key(tokens[0], tradeType))
      case Some(x) =>
        var s := x.(currentPrice := Threshold(x.currentPrice, percentage));
        MapAppend(NameOf(), [s], rest);
        assert Map(NameOf(), [s]) == [tokens[0]];
      case None =>
        assert Snapshots(log, tokens, tradeType, percentage) == rest;
    }
  }

  /** The constructor's assertion, that there is a snapshot for each token, holds exactly when the
      store knows every token of the task. */
  lemma {:induction false} SnapshotsComplete(log: seq<Instrument>, tokens: seq<string>, tradeType: nat, percentage: real)
    ensures |Snapshots(log, tokens, tradeType, percentage)| <= |tokens|
    ensures |Snapshots(log, tokens, tradeType, percentage)| == |tokens| <==>
            forall t :: t in tokens ==> Key(t, tradeType) in Store(log)
  {
    if tokens != [] {
      SnapshotsComplete(log, tokens[1..], tradeType, percentage);
      assert tokens == [tokens[0]] + tokens[1..];
    }
  }

  lemma ScheduledInv(log: seq<Instrument>, task: Task)
    requires task.percentProp.Some?
    ensures Inv(Scheduled(log, task), Scheduled(log, task))
  {
    SnapshotsAreLookups(log, task.tokens, task.tradeType, task.percentProp.value.percentage);
  }

  lemma {:induction false} RunKeepsInv(start: Watch, w: Watch, events: seq<Event>)
    requires Inv(start, w) && Run(w, events)
    ensures Inv(start, After(w, events))
    decreases |events|
  {
    if events != [] {
      StepKeepsInv(start, w, events[0]);
      RunKeepsInv(start, Step(w, events[0]), events[1..]);
    }
  }

  // ---------------------------------------------------------------- what the events alone tell

  // The log, the times of the ticks, and whether the timer is still there.
  ghost predicate Follows(w: Watch, w': Watch, events: seq<Event>) {
    && w'.percentage == w.percentage
    && w'.log == LogAfter(w.log, events)
    && w'.tickLogs == w.tickLogs + TickTimes(|w.log|, events)
    && (w.snapshots == [] ==> w'.snapshots == [])
    && (TickTimes(|w.log|, events) == [] ==> w'.snapshots == w.snapshots)
    && (w'.timer.made <==> w.timer.made && !Removes(events) && (TickTimes(|w.log|, events) == [] || w'.snapshots != []))
  }

  ghost predicate StepTells(w: Watch, w': Watch, e: Event) {
    && w'.percentage == w.percentage
    && w'.log == (if e.Insert? then w.log + [e.item] else w.log)
    && w'.tickLogs == w.tickLogs + (if e.Tick? then [|w.log|] else [])
    && (w.snapshots == [] ==> w'.snapshots == [])
    && (!e.Tick? ==> w'.snapshots == w.snapshots)
    && (w'.timer.made <==> w.timer.made && !e.Remove? && (e.Tick? ==> w'.snapshots != []))
  }

  lemma StepFollows(w: Watch, e: Event)
    requires Enabled(w, e)
    ensures StepTells(w, Step(w, e), e)
  {
    assert w.tickLogs + [] == w.tickLogs;
    hide Hits, HasNameIn;
  }

  lemma FollowsCons(w: Watch, mid: Watch, end: Watch, events: seq<Event>)
    requires events != [] && StepTells(w, mid, events[0]) && Follows(mid, end, events[1..])
    ensures Follows(w, end, events)
  {
    RemovesCons(events);
    hide Removes;
    var e := events[0];
    var now := if e.Tick? then [|w.log|] else [];
    var later := TickTimes(|mid.log|, events[1..]);
    assert TickTimes(|w.log|, events) == now + later;
    assert w.tickLogs + now + later == w.tickLogs + (now + later);
    assert now + later == [] <==> now == [] && later == [];
  }

  lemma {:induction false} RunFollows(w: Watch, events: seq<Event>)
    requires Run(w, events)
    ensures Follows(w, After(w, events), events)
    decreases |events|
  {
    hide StepTells, Step;
    if events == [] {
      NothingFollows(w);
    } else {
      hide Follows;
      StepFollows(w, events[0]);
      RunFollows(Step(w, events[0]), events[1..]);
      FollowsCons(w, Step(w, events[0]), After(w, events), events);
    }
  }

  lemma NothingFollows(w: Watch)
    ensures Follows(w, w, [])
  {
    assert w.tickLogs + [] == w.tickLogs;
  }

  /** A task starts with a snapshot for each of its tokens that the store knows, in order: the latest
      instrument inserted, with the threshold for its price. */
  lemma {:induction false} SnapshotsMeaning(log: seq<Instrument>, tokens: seq<string>, tradeType: nat, percentage: real)
    ensures var snapshots, known := Snapshots(log, tokens, tradeType, percentage), Filter(tokens, Known(log, tradeType));
            && |snapshots| == |known|
            && forall i :: 0 <= i < |known| ==> SnapshotOf(snapshots[i], log, known[i], tradeType, percentage)
  {
    if tokens != [] {
      SnapshotsMeaning(log, tokens[1..], tradeType, percentage);
      KnownIsStored(log, tokens[0], tradeType);
      if Lookup(log, Key(tokens[0], tradeType)).Some? {
        LookupIsLatest(log, tokens[0], tradeType);
        var live := Lookup(log, Key(tokens[0], tradeType)).value;
        assert SnapshotOf(live.(currentPrice := Threshold(live.currentPrice, percentage)), log, tokens[0], tradeType, percentage);
      }
      hide Known, Lookup, Latest, SnapshotOf;
    }
  }

  ghost predicate SnapshotOf(s: Instrument, log: seq<Instrument>, name: string, tradeType: nat, percentage: real) {
    exists x :: Latest(log, name, tradeType, x) && s == x.(currentPrice := Threshold(x.currentPrice, percentage))
  }

  /** Over every run of a scheduled task, however ticks, price updates and removal interleave:
      alerted and remaining tokens partition the initial ones, each alert was sent at the first
      tick at which its token met the threshold, no token that met it was missed, every remaining
      token is known to the store, and at most one tick is on its way: exactly one for as long as the
      task is not removed and has not alerted its last token. */
  lemma EveryRun(log: seq<Instrument>, task: Task, events: seq<Event>)
    requires task.percentProp.Some? && Run(Scheduled(log, task), events)
    ensures var start, w := Scheduled(log, task), After(Scheduled(log, task), events);
            && Inv(start, w)
            && start.snapshots == Snapshots(log, task.tokens, task.tradeType, task.percentProp.value.percentage)
            && w.percentage == task.percentProp.value.percentage
            && w.log == LogAfter(log, events) && w.tickLogs == TickTimes(|log|, events)
            && (w.timer.waiting + w.timer.dispatched == 1
                <== !Removes(events) && (TickTimes(|log|, events) == [] || w.snapshots != []))
  {
    var start := Scheduled(log, task);
    ScheduledInv(log, task);
    RunKeepsInv(start, start, events);
    RunFollows(start, events);
    hide Inv, Snapshots;
    assert start.timer.made;
    assert start.tickLogs + TickTimes(|log|, events) == TickTimes(|log|, events);
    assert OneTick(After(start, events).timer) by {
      SafeTimer(start, After(start, events));
    }
  }

  lemma SafeTimer(start: Watch, w: Watch)
    requires Inv(start, w)
    ensures OneTick(w.timer)
  {
  }

  /** With the distinct tokens that validation asks for, no token is alerted twice, and none is
      alerted and still watched. */
  lemma AtMostOneAlert(log: seq<Instrument>, task: Task, events: seq<Event>, name: string)
    requires task.percentProp.Some? && Run(Scheduled(log, task), events) && Distinct(task.tokens)
    ensures var w := After(Scheduled(log, task), events);
            multiset(AlertedNames(w.alerts))[name] + multiset(NamesOf(w.snapshots))[name] <= 1
  {
    var start := Scheduled(log, task);
    EveryRun(log, task, events);
    SnapshotsAreLookups(log, task.tokens, task.tradeType, task.percentProp.value.percentage);
    DistinctCounts(task.tokens);
    assert name !in task.tokens ==> multiset(task.tokens)[name] == 0;
    assert multiset(NamesOf(start.snapshots))[name] <= multiset(task.tokens)[name];
  }

  lemma {:induction false} NoTimerNoRearm(w: Watch, events: seq<Event>)
    requires !w.timer.made && OneTick(w.timer) && Run(w, events)
    ensures Ticks(events) <= w.timer.dispatched
    ensures !After(w, events).timer.made && After(w, events).timer.waiting == 0
    decreases |events|
  {
    if events != [] {
      NoTimerNoRearm(Step(w, events[0]), events[1..]);
    }
  }

  /** Nothing re-arms once the task is removed, and at most the one tick that was already
      dispatched still runs. */
  lemma AfterRemoval(start: Watch, w: Watch, events: seq<Event>)
    requires Inv(start, w) && Run(Step(w, Remove), events)
    ensures Ticks(events) <= w.timer.dispatched <= 1
    ensures After(Step(w, Remove), events).timer.waiting == 0
  {
    NoTimerNoRearm(Step(w, Remove), events);
  }

  /** Nothing runs any more once a tick has left no tokens. */
  lemma AfterLastAlert(start: Watch, w: Watch, events: seq<Event>)
    requires Inv(start, w) && w.snapshots == [] && w.tickLogs != [] && Run(w, events)
    ensures Ticks(events) == 0 && After(w, events).timer.waiting == 0
  {
    NoTimerNoRearm(w, events);
  }

  /** The one tick that is on its way can come, whatever else happens. */
  lemma TickComes(w: Watch, item: Instrument)
    ensures w.timer.waiting > 0 ==> Enabled(w, Expires) && Enabled(Step(w, Expires), Tick)
    ensures w.timer.dispatched > 0 ==> Enabled(w, Tick)
    ensures Enabled(w, Remove) && Enabled(w, Insert(item))
  {
  }

  // A run is any sequence of steps each of which is enabled.
  lemma RunIsSteps(w: Watch, e: Event, events: seq<Event>)
    ensures Run(w, []) && After(w, []) == w
    ensures Run(w, [e] + events) <==> Enabled(w, e) && Run(Step(w, e), events)
    ensures Run(w, [e] + events) ==> After(w, [e] + events) == After(Step(w, e), events)
  {
    assert ([e] + events)[1..] == events;
    hide Step, Enabled;
  }

  // ---------------------------------------------------------------- the watcher itself

  lemma NoTokens(log: seq<Instrument>, tradeType: nat, percentage: real)
    ensures Snapshots(log, [], tradeType, percentage) == []
  {
  }

  // One turn of the constructor's loop.
  lemma SnapshotsFrom(log: seq<Instrument>, list: seq<Instrument>, tokens: seq<string>, i: nat,
                      tradeType: nat, percentage: real)
    requires Lists(Store(log), list) && i < |tokens|
    ensures var found := Scan(list, tokens[i], tradeType);
            Snapshots(log, tokens[i..], tradeType, percentage)
            == (if found.Some?
                then [found.value.(currentPrice := Threshold(found.value.currentPrice, percentage))]
                else [])
               + Snapshots(log, tokens[i + 1..], tradeType, percentage)
  {
    ScanIsLookup(log, list, tokens[i], tradeType);
    assert tokens[i..][1..] == tokens[i + 1..];
  }

  lemma HitTokens(w: Watch)
    ensures TokensOf(Hits(w)) == Map(TokenOf, Filter(w.snapshots, Firing(w.percentage, w.log)))
    ensures Unnamed(w.snapshots, Hits(w)[..0]) == w.snapshots
  {
    FilterAll(w.snapshots, Not(HasNameIn(Hits(w)[..0])));
  }

  // One turn of the loop that removes what was hit.
  lemma UnnamedStep(snapshots: seq<Instrument>, hits: seq<Alert>, j: nat)
    requires j < |hits|
    ensures Filter(Unnamed(snapshots, hits[..j]), Not(NameIs(hits[j].token.name))) == Unnamed(snapshots, hits[..j + 1])
  {
    var p, q := Not(HasNameIn(hits[..j])), Not(NameIs(hits[j].token.name));
    FilterTwice(snapshots, p, q);
    forall s | s in snapshots
      ensures Named(hits[..j + 1], s.name) == (Named(hits[..j], s.name) || s.name == hits[j].token.name)
    {
      if s.name == hits[j].token.name {
        assert hits[..j + 1][j].token.name == s.name;
      }
      if Named(hits[..j], s.name) {
        var k :| 0 <= k < j && hits[..j][k].token.name == s.name;
        assert hits[..j + 1][k].token.name == s.name;
      }
    }
    FilterSame(snapshots, And(p, q), Not(HasNameIn(hits[..j + 1])));
  }

  class ProgressWatcher {
    const task: Task
    const percentage: real
    const instruments: UniqueElements
    var snapshots: seq<Instrument>
    var timer: Timer
    var outbox: seq<seq<Token>>     // what went to `send_price_task_result`
    ghost var tickLogs: seq<nat>
    ghost var alerts: seq<Alert>

    ghost predicate Valid()
      reads this, instruments
    {
      instruments.Valid()
    }

    ghost function View(): Watch
      reads this, instruments
    {
      Watch(percentage, snapshots, timer, instruments.log, tickLogs, alerts)
    }

    constructor (instruments: UniqueElements, task: Task)
      requires instruments.Valid() && task.percentProp.Some?
      ensures Valid() && this.instruments == instruments && this.task == task
      ensures View() == Constructed(instruments.log, task) && outbox == []
    {
      hide Lists, Store, Snapshots, Scan;
      this.instruments, this.task, this.percentage := instruments, task, task.percentProp.value.percentage;
      snapshots, timer, outbox := [], NO_TIMER, [];
      tickLogs, alerts := [], [];
      new;
      var list := instruments.ToList();
      ghost var log := instruments.log;
      NoTokens(log, task.tradeType, percentage);
      for i := 0 to |task.tokens|
        invariant timer == NO_TIMER && tickLogs == [] && alerts == [] && outbox == []
        invariant Snapshots(log, task.tokens[0..], task.tradeType, percentage)
                  == snapshots + Snapshots(log, task.tokens[i..], task.tradeType, percentage)
      {
        SnapshotsFrom(log, list, task.tokens, i, task.tradeType, percentage);
        var found := Scan(list, task.tokens[i], task.tradeType);
        if found.Some? {
          var x := found.value;
          snapshots := snapshots + [x.(currentPrice := Threshold(x.currentPrice, percentage))];
        }
      }
      assert task.tokens[0..] == task.tokens && task.tokens[|task.tokens|..] == [];
    }

    method NextTimer()
      modifies this`timer
      ensures View() == old(View()).(timer := Arm(old(timer)))
    {
      if !timer.made {
        return;
      }
      timer := timer.(waiting := 0);
      timer := timer.(waiting := timer.waiting + 1);
    }

    method Call()
      modifies this`timer
      ensures View() == Called(old(View()))
    {
      if timer.made {
        return;
      }
      timer := timer.(made := true);
      NextTimer();
    }

    method Stop()
      modifies this`timer
      ensures View() == old(View()).(timer := Timers.Stop(old(timer)))
    {
      if timer.made {
        timer := timer.(waiting := 0);
        timer := timer.(made := false);
      }
    }

    /** `check_prices`: one tick, and one message when anything was hit. */
    method CheckPrices()
      requires Valid()
      modifies this
      ensures Valid() && View() == Ticked(old(View()))
      ensures var hits := Hits(old(View()));
              outbox == old(outbox) + if hits == [] then [] else [TokensOf(hits)]
    {
      hide Lookup, Store, Fires, Filter, Unnamed, Hits;
      ghost var before := View();
      var tokens: seq<Token> := [];
      FilterNone(snapshots[..0], Firing(percentage, instruments.log));
      for i := 0 to |snapshots|
        invariant View() == before && outbox == old(outbox)
        invariant tokens == Map(TokenOf, Filter(snapshots[..i], Firing(percentage, instruments.log)))
      {
        var live := instruments.FindItem(snapshots[i]);
        FilterNext(snapshots, i, Firing(percentage, instruments.log));
        if live.None? {
          continue;
        }
        if Fires(percentage, snapshots[i].currentPrice, live.value.currentPrice) {
          tokens := tokens + [TokenOf(snapshots[i])];
        }
      }
      assert snapshots[..|snapshots|] == snapshots;
      HitTokens(before);
      assert tokens == TokensOf(Hits(before));
      if tokens != [] {
        for j := 0 to |tokens|
          invariant View() == before.(snapshots := snapshots) && outbox == old(outbox)
          invariant snapshots == Unnamed(before.snapshots, Hits(before)[..j])
        {
          UnnamedStep(before.snapshots, Hits(before), j);
          snapshots := Filter(snapshots, Not(NameIs(tokens[j].name)));
        }
        outbox := outbox + [tokens];
      }
      assert Hits(before)[..|tokens|] == Hits(before);
      tickLogs, alerts := tickLogs + [|instruments.log|], alerts + Hits(before);
      if snapshots == [] {
        Stop();
      } else {
        NextTimer();
      }
    }
  }
}
