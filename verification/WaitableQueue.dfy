/** `waitable_container_t` of common/include/container.hpp as a protocol: any number of threads
    call `append`/`append_list`, `clear` and `get`, and every step between taking the mutex and
    giving it back may be interleaved with steps of other threads.  A sleeping consumer is woken
    by `notify_all` or spuriously.
 */
module WaitableQueue {

  import opened Options

  // Where a thread is inside its call.
  datatype Pc<+T> =
    | Idle
    | WantAppend(block: seq<T>)   // before the lock
    | Pushing(block: seq<T>)      // holds the lock
    | Notifying                   // holds the lock, items are in, waiters not yet told
    | WantClear
    | Clearing
    | WantGet
    | Testing                     // holds the lock, about to evaluate the wait predicate
    | FallingAsleep               // holds the lock, the predicate was false
    | Sleeping                    // on the condition variable, lock released
    | Woken                       // has to take the lock again
    | Taking                      // holds the lock, `wait` has returned
    | Leaving(item: Option<T>)    // holds the lock, the body is done
    | Thrown                      // left `get` by its exception

  datatype Removal<+T> = Taken(who: nat, item: T) | Dropped(item: T)

  // `blocks`, `removed` and `results` record history; no step reads them.
  datatype State<+T> = State(
    owner: Option<nat>,
    pcs: seq<Pc<T>>,
    queue: seq<T>,
    blocks: seq<seq<T>>,
    removed: seq<Removal<T>>,
    results: seq<seq<T>>)

  datatype Action<+T> =
    | CallAppend(t: nat, block: seq<T>)
    | CallClear(t: nat)
    | CallGet(t: nat)
    | Acquire(t: nat)
    | Push(t: nat)
    | NotifyAll(t: nat)
    | Clear(t: nat)
    | Test(t: nat)
    | Sleep(t: nat)
    | Spurious(t: nat)
    | Take(t: nat)
    | Unlock(t: nat)

  function Init<T>(threads: nat): State<T> {
    State(None, seq(threads, _ => Idle), [], [], [], seq(threads, _ => []))
  }

  predicate Enabled<T>(s: State<T>, a: Action<T>) {
    && a.t < |s.pcs| == |s.results|
    && var pc := s.pcs[a.t];
       match a
       case CallAppend(_, _) => pc.Idle?
       case CallClear(_) => pc.Idle?
       case CallGet(_) => pc.Idle?
       case Acquire(_) => s.owner.None? && (pc.WantAppend? || pc.WantClear? || pc.WantGet? || pc.Woken?)
       case Push(_) => pc.Pushing?
       case NotifyAll(_) => pc.Notifying?
       case Clear(_) => pc.Clearing?
       case Test(_) => pc.Testing?
       case Sleep(_) => pc.FallingAsleep?
       case Spurious(_) => pc.Sleeping?
       case Take(_) => pc.Taking?
       case Unlock(_) => pc.Leaving?
  }

  function WakeAll<T>(pcs: seq<Pc<T>>): seq<Pc<T>> {
    seq(|pcs|, i requires 0 <= i < |pcs| => if pcs[i].Sleeping? then Woken else pcs[i])
  }

  function Drops<T>(items: seq<T>): seq<Removal<T>> {
    seq(|items|, i requires 0 <= i < |items| => Dropped(items[i]))
  }

  function Step<T>(s: State<T>, a: Action<T>): State<T>
    requires Enabled(s, a)
  {
    var t := a.t;
    match a
    case CallAppend(_, block) => s.(pcs := s.pcs[t := WantAppend(block)])
    case CallClear(_) => s.(pcs := s.pcs[t := WantClear])
    case CallGet(_) => s.(pcs := s.pcs[t := WantGet])
    case Acquire(_) =>
      var inside := match s.pcs[t]
                    case WantAppend(block) => Pushing(block)
                    case WantClear => Clearing
                    case _ => Testing;
      s.(owner := Some(t), pcs := s.pcs[t := inside])
    case Push(_) =>
      s.(pcs := s.pcs[t := Notifying],
         queue := s.queue + s.pcs[t].block,
         blocks := s.blocks + [s.pcs[t].block])
    case NotifyAll(_) => s.(pcs := WakeAll(s.pcs)[t := Leaving(None)])
    case Clear(_) =>
      s.(pcs := s.pcs[t := Leaving(None)], queue := [], removed := s.removed + Drops(s.queue))
    case Test(_) => s.(pcs := s.pcs[t := if s.queue == [] then FallingAsleep else Taking])
    case Sleep(_) => s.(owner := None, pcs := s.pcs[t := Sleeping])
    case Spurious(_) => s.(pcs := s.pcs[t := Woken])
    case Take(_) =>
      if s.queue == [] then s.(owner := None, pcs := s.pcs[t := Thrown])
      else
        s.(pcs := s.pcs[t := Leaving(Some(s.queue[0]))],
           queue := s.queue[1..],
           removed := s.removed + [Taken(t, s.queue[0])])
    case Unlock(_) =>
      s.(owner := None,
         pcs := s.pcs[t := Idle],
         results := match s.pcs[t].item
                    case None => s.results
                    case Some(x) => s.results[t := s.results[t] + [x]])
  }

  // ---------------------------------------------------------------- runs

  predicate Run<T>(s: State<T>, actions: seq<Action<T>>)
    decreases |actions|
  {
    actions == [] || (Enabled(s, actions[0]) && Run(Step(s, actions[0]), actions[1..]))
  }

  function After<T>(s: State<T>, actions: seq<Action<T>>): State<T>
    requires Run(s, actions)
    decreases |actions|
  {
    if actions == [] then s else After(Step(s, actions[0]), actions[1..])
  }

  // ---------------------------------------------------------------- what every step keeps

  predicate HoldsLock<T>(pc: Pc<T>) {
    pc.Pushing? || pc.Notifying? || pc.Clearing? || pc.Testing? || pc.FallingAsleep? || pc.Taking? || pc.Leaving?
  }

  ghost predicate MutualExclusion<T>(s: State<T>) {
    forall t: nat :: t < |s.pcs| ==> (HoldsLock(s.pcs[t]) <==> s.owner == Some(t))
  }

  // Unless a producer is between its push and its notification, items in the queue mean
  // that nobody is asleep.
  ghost predicate NoLostWakeup<T>(s: State<T>) {
    s.queue != [] && (forall t :: 0 <= t < |s.pcs| ==> !s.pcs[t].Notifying?) ==>
      forall t :: 0 <= t < |s.pcs| ==> !s.pcs[t].Sleeping?
  }

  ghost predicate TestsHold<T>(s: State<T>) {
    forall t :: 0 <= t < |s.pcs| ==>
      && (s.pcs[t].Taking? ==> s.queue != [])
      && (s.pcs[t].FallingAsleep? ==> s.queue == [])
      && !s.pcs[t].Thrown?
  }

  function Flatten<T>(blocks: seq<seq<T>>): seq<T> {
    if blocks == [] then [] else Flatten(blocks[..|blocks| - 1]) + blocks[|blocks| - 1]
  }

  function Items<T>(removed: seq<Removal<T>>): seq<T> {
    seq(|removed|, i requires 0 <= i < |removed| => removed[i].item)
  }

  // First in, first out: what left the queue, and then what is still in it, is what went in.
  ghost predicate Fifo<T>(s: State<T>) {
    Items(s.removed) + s.queue == Flatten(s.blocks)
  }

  function TakenBy<T>(removed: seq<Removal<T>>, t: nat): seq<T> {
    if removed == [] then []
    else
      var last := removed[|removed| - 1];
      TakenBy(removed[..|removed| - 1], t) + if last.Taken? && last.who == t then [last.item] else []
  }

  // The item a call of `get` is about to return.
  function Pending<T>(pc: Pc<T>): seq<T> {
    match pc
    case Leaving(Some(x)) => [x]
    case _ => []
  }

  // The calls of `get` of a thread return exactly the items that thread took.
  ghost predicate ReturnsWhatItTook<T>(s: State<T>) {
    && |s.results| == |s.pcs|
    && forall t :: 0 <= t < |s.pcs| ==> TakenBy(s.removed, t) == s.results[t] + Pending(s.pcs[t])
  }

  ghost predicate Inv<T>(s: State<T>) {
    MutualExclusion(s) && NoLostWakeup(s) && TestsHold(s) && Fifo(s) && ReturnsWhatItTook(s)
  }

  // What a step leaves of the other threads' places.
  lemma OthersStay<T>(s: State<T>, a: Action<T>, t: nat)
    requires Enabled(s, a) && t < |s.pcs| && t != a.t
    ensures |Step(s, a).pcs| == |s.pcs|
    ensures Step(s, a).pcs[t] == s.pcs[t] || (s.pcs[t].Sleeping? && Step(s, a).pcs[t] == Woken)
  {
  }

  lemma StepKeepsMutex<T>(s: State<T>, a: Action<T>)
    requires MutualExclusion(s) && TestsHold(s) && Enabled(s, a)
    ensures MutualExclusion(Step(s, a))
  {
    forall t: nat | t < |s.pcs| && t != a.t
      ensures HoldsLock(Step(s, a).pcs[t]) == HoldsLock(s.pcs[t])
    {
      OthersStay(s, a, t);
    }
  }

  lemma StepKeepsTests<T>(s: State<T>, a: Action<T>)
    requires MutualExclusion(s) && TestsHold(s) && Enabled(s, a)
    ensures TestsHold(Step(s, a))
  {
    forall t: nat | t < |s.pcs| && t != a.t
      ensures Step(s, a).pcs[t] == s.pcs[t] || Step(s, a).pcs[t] == Woken
    {
      OthersStay(s, a, t);
    }
  }

  lemma StepKeepsWakeups<T>(s: State<T>, a: Action<T>)
    requires MutualExclusion(s) && TestsHold(s) && NoLostWakeup(s) && Enabled(s, a)
    ensures NoLostWakeup(Step(s, a))
  {
    var s' := Step(s, a);
    if a.Push? {
      assert s'.pcs[a.t].Notifying?;
    } else if !a.NotifyAll? {
      assert forall t :: 0 <= t < |s.pcs| && t != a.t ==> s'.pcs[t] == s.pcs[t];
    }
  }

  lemma StepKeepsOrder<T>(s: State<T>, a: Action<T>)
    requires Fifo(s) && TestsHold(s) && Enabled(s, a)
    ensures Fifo(Step(s, a))
  {
    var s' := Step(s, a);
    if a.Push? {
      assert s'.blocks[..|s'.blocks| - 1] == s.blocks;
    } else if a.Clear? {
      assert Items(s'.removed) == Items(s.removed) + s.queue;
    } else if a.Take? {
      assert Items(s'.removed) == Items(s.removed) + [s.queue[0]];
    }
  }

  lemma {:induction false} DropsTakeNothing<T>(removed: seq<Removal<T>>, items: seq<T>, t: nat)
    ensures TakenBy(removed + Drops(items), t) == TakenBy(removed, t)
  {
    if items == [] {
      assert removed + Drops(items) == removed;
    } else {
      var init := items[..|items| - 1];
      DropsTakeNothing(removed, init, t);
      var all := removed + Drops(items);
      assert all[..|all| - 1] == removed + Drops(init);
    }
  }

  // What the step takes out for thread `t`.
  function TakenNow<T>(s: State<T>, a: Action<T>, t: nat): seq<T> {
    if a.Take? && a.t == t && s.queue != [] then [s.queue[0]] else []
  }

  function RemovedNow<T>(s: State<T>, a: Action<T>): seq<Removal<T>> {
    if a.Clear? then Drops(s.queue)
    else if a.Take? && s.queue != [] then [Taken(a.t, s.queue[0])]
    else []
  }

  lemma StepRemoved<T>(s: State<T>, a: Action<T>)
    requires Enabled(s, a)
    ensures Step(s, a).removed == s.removed + RemovedNow(s, a)
  {
    hide Drops;
  }

  lemma TakenByOneMore<T>(removed: seq<Removal<T>>, one: Removal<T>, t: nat)
    ensures TakenBy(removed + [one], t)
            == TakenBy(removed, t) + if one.Taken? && one.who == t then [one.item] else []
  {
    assert (removed + [one])[..|removed|] == removed;
  }

  lemma StepRemoves<T>(s: State<T>, a: Action<T>, t: nat)
    requires Enabled(s, a)
    ensures TakenBy(Step(s, a).removed, t) == TakenBy(s.removed, t) + TakenNow(s, a, t)
  {
    StepRemoved(s, a);
    hide Step, Enabled, TakenBy;
    if a.Clear? {
      DropsTakeNothing(s.removed, s.queue, t);
    } else if a.Take? && s.queue != [] {
      TakenByOneMore(s.removed, Taken(a.t, s.queue[0]), t);
    } else {
      assert s.removed + [] == s.removed;
    }
  }

  lemma StepReturns<T>(s: State<T>, a: Action<T>, t: nat)
    requires Enabled(s, a) && TestsHold(s) && t < |s.pcs|
    ensures |Step(s, a).results| == |Step(s, a).pcs| == |s.pcs|
    ensures Step(s, a).results[t] + Pending(Step(s, a).pcs[t])
            == s.results[t] + Pending(s.pcs[t]) + TakenNow(s, a, t)
  {
    var s' := Step(s, a);
    if t != a.t {
      assert s'.results[t] == s.results[t] && Pending(s'.pcs[t]) == Pending(s.pcs[t]);
    }
  }

  lemma StepKeepsResults<T>(s: State<T>, a: Action<T>)
    requires ReturnsWhatItTook(s) && TestsHold(s) && Enabled(s, a)
    ensures ReturnsWhatItTook(Step(s, a))
  {
    hide TakenBy, Pending, TakenNow, TestsHold;
    var s' := Step(s, a);
    assert |s'.results| == |s'.pcs| == |s.pcs|;
    hide Step, Enabled;
    forall t | 0 <= t < |s.pcs|
      ensures TakenBy(s'.removed, t) == s'.results[t] + Pending(s'.pcs[t])
    {
      StepRemoves(s, a, t);
      StepReturns(s, a, t);
    }
  }

  lemma StepKeepsInv<T>(s: State<T>, a: Action<T>)
    requires Inv(s) && Enabled(s, a)
    ensures Inv(Step(s, a))
  {
    StepKeepsMutex(s, a);
    StepKeepsTests(s, a);
    StepKeepsWakeups(s, a);
    StepKeepsOrder(s, a);
    StepKeepsResults(s, a);
  }

  lemma {:induction false} RunKeepsInv<T>(s: State<T>, actions: seq<Action<T>>)
    requires Inv(s) && Run(s, actions)
    ensures Inv(After(s, actions))
    decreases |actions|
  {
    if actions != [] {
      StepKeepsInv(s, actions[0]);
      RunKeepsInv(Step(s, actions[0]), actions[1..]);
    }
  }

  /** In every interleaving, from the empty container and with any number of threads: one thread
      at a time holds the mutex, no wake-up is lost, the exception in `get` is never thrown,
      items leave in the order in which their blocks went in, and `get` returns what it took. */
  lemma EveryInterleaving<T>(threads: nat, actions: seq<Action<T>>)
    requires Run(Init(threads), actions)
    ensures Inv(After(Init(threads), actions))
  {
    RunKeepsInv(Init<T>(threads), actions);
  }

  // ---------------------------------------------------------------- an atomic queue

  /** A queue on which each call takes effect at once, as seen from the actions alone: a block goes in as a
      whole, `clear` drops everything, `get` takes the front.  `called` holds the block of each thread's
      latest call. */
  datatype Atomic<+T> = Atomic(called: map<nat, seq<T>>, queue: seq<T>, blocks: seq<seq<T>>, gone: seq<Removal<T>>)

  function AtomicNext<T>(q: Atomic<T>, a: Action<T>): Atomic<T> {
    match a
    case CallAppend(t, block) => q.(called := q.called[t := block])
    case Push(t) =>
      var block := if t in q.called then q.called[t] else [];
      q.(queue := q.queue + block, blocks := q.blocks + [block])
    case Clear(_) =>
      q.(queue := [], gone := q.gone + seq(|q.queue|, i requires 0 <= i < |q.queue| => Dropped(q.queue[i])))
    case Take(t) =>
      if q.queue == [] then q else q.(queue := q.queue[1..], gone := q.gone + [Taken(t, q.queue[0])])
    case _ => q
  }

  function Atomically<T>(q: Atomic<T>, actions: seq<Action<T>>): Atomic<T>
    decreases |actions|
  {
    if actions == [] then q else Atomically(AtomicNext(q, actions[0]), actions[1..])
  }

  ghost predicate Coupled<T>(s: State<T>, q: Atomic<T>) {
    && s.queue == q.queue && s.blocks == q.blocks && s.removed == q.gone
    && forall t: nat :: t < |s.pcs| ==>
         && (s.pcs[t].WantAppend? ==> t in q.called && q.called[t] == s.pcs[t].block)
         && (s.pcs[t].Pushing? ==> t in q.called && q.called[t] == s.pcs[t].block)
  }

  lemma StepCoupled<T>(s: State<T>, q: Atomic<T>, a: Action<T>)
    requires Coupled(s, q) && Enabled(s, a)
    ensures Coupled(Step(s, a), AtomicNext(q, a))
  {
    forall t: nat | t < |s.pcs| && t != a.t
      ensures Step(s, a).pcs[t] == s.pcs[t] || Step(s, a).pcs[t] == Woken
    {
      OthersStay(s, a, t);
    }
  }

  lemma {:induction false} RunCoupled<T>(s: State<T>, q: Atomic<T>, actions: seq<Action<T>>)
    requires Coupled(s, q) && Run(s, actions)
    ensures Coupled(After(s, actions), Atomically(q, actions))
    decreases |actions|
  {
    if actions != [] {
      StepCoupled(s, q, actions[0]);
      RunCoupled(Step(s, actions[0]), AtomicNext(q, actions[0]), actions[1..]);
    }
  }

  /** In every interleaving the container is an atomic queue: the blocks that went in are those of the calls
      in the order of their pushes, the queue and what left it are those of the atomic queue, and `get` has
      returned, or is about to, what the atomic queue gave its thread. */
  lemma IsAtomicQueue<T>(threads: nat, actions: seq<Action<T>>)
    requires Run(Init(threads), actions)
    ensures var s, q := After(Init(threads), actions), Atomically(Atomic(map[], [], [], []), actions);
            && s.queue == q.queue && s.blocks == q.blocks && s.removed == q.gone
            && |s.results| == |s.pcs|
            && forall t :: 0 <= t < |s.pcs| ==> s.results[t] + Pending(s.pcs[t]) == TakenBy(q.gone, t)
  {
    RunCoupled(Init<T>(threads), Atomic(map[], [], [], []), actions);
    EveryInterleaving(threads, actions);
  }

  // A run of four steps, one at a time.
  lemma FourSteps<T>(s: State<T>, a: Action<T>, b: Action<T>, c: Action<T>, d: Action<T>)
    requires Enabled(s, a) && Enabled(Step(s, a), b) && Enabled(Step(Step(s, a), b), c)
    requires Enabled(Step(Step(Step(s, a), b), c), d)
    ensures Run(s, [a, b, c, d])
    ensures After(s, [a, b, c, d]) == Step(Step(Step(Step(s, a), b), c), d)
  {
    hide Enabled, Step;
    var s1 := Step(s, a);
    var s2 := Step(s1, b);
    var s3 := Step(s2, c);
    ThenRun(s3, d, []);
    ThenRun(s2, c, [d]);
    ThenRun(s1, b, [c, d]);
    ThenRun(s, a, [b, c, d]);
    assert [a] + [b, c, d] == [a, b, c, d] && [b] + [c, d] == [b, c, d] && [c] + [d] == [c, d] && [d] + [] == [d];
  }

  lemma ThreeSteps<T>(s: State<T>, a: Action<T>, b: Action<T>, c: Action<T>)
    requires Enabled(s, a) && Enabled(Step(s, a), b) && Enabled(Step(Step(s, a), b), c)
    ensures Run(s, [a, b, c])
    ensures After(s, [a, b, c]) == Step(Step(Step(s, a), b), c)
  {
    hide Enabled, Step;
    var s1 := Step(s, a);
    var s2 := Step(s1, b);
    ThenRun(s2, c, []);
    ThenRun(s1, b, [c]);
    ThenRun(s, a, [b, c]);
    assert [a] + [b, c] == [a, b, c] && [b] + [c] == [b, c] && [c] + [] == [c];
  }

  lemma ThenRun<T>(s: State<T>, a: Action<T>, rest: seq<Action<T>>)
    requires Enabled(s, a) && Run(Step(s, a), rest)
    ensures Run(s, [a] + rest) && After(s, [a] + rest) == After(Step(s, a), rest)
  {
    assert ([a] + rest)[1..] == rest;
  }

  /** Whenever the queue holds an item and the mutex is free, any thread inside `get` can finish
      on its own steps alone, and it returns the front of the queue. */
  lemma ConsumerCanFinish<T>(s: State<T>, t: nat)
    requires Inv(s) && s.owner.None? && s.queue != [] && t < |s.pcs|
    requires s.pcs[t].WantGet? || s.pcs[t].Sleeping? || s.pcs[t].Woken?
    ensures var own: seq<Action<T>> := [Acquire(t), Test(t), Take(t), Unlock(t)];
            && Run(s, own)
            && After(s, own).queue == s.queue[1..]
            && After(s, own).results == s.results[t := s.results[t] + [s.queue[0]]]
            && After(s, own).owner.None?
  {
    assert forall i :: 0 <= i < |s.pcs| ==> !HoldsLock(s.pcs[i]);
    FourSteps(s, Acquire(t), Test(t), Take(t), Unlock(t));
  }

  /** With the mutex free a producer can finish on its own steps alone, and its block is then queued behind
      what there was, with nobody left asleep. */
  lemma ProducerCanFinish<T>(s: State<T>, t: nat, block: seq<T>)
    requires Inv(s) && s.owner.None? && t < |s.pcs| && s.pcs[t] == WantAppend(block)
    ensures var own: seq<Action<T>> := [Acquire(t), Push(t), NotifyAll(t), Unlock(t)];
            && Run(s, own)
            && After(s, own).queue == s.queue + block
            && After(s, own).owner.None?
            && |After(s, own).pcs| == |s.pcs| && After(s, own).pcs[t].Idle?
            && forall i :: 0 <= i < |After(s, own).pcs| ==> !After(s, own).pcs[i].Sleeping?
  {
    FourSteps(s, Acquire(t), Push(t), NotifyAll(t), Unlock(t));
  }

  /** And so can a thread that clears, which leaves the queue empty. */
  lemma ClearCanFinish<T>(s: State<T>, t: nat)
    requires Inv(s) && s.owner.None? && t < |s.pcs| && s.pcs[t].WantClear?
    ensures var own: seq<Action<T>> := [Acquire(t), Clear(t), Unlock(t)];
            && Run(s, own) && After(s, own).queue == [] && After(s, own).owner.None?
            && |After(s, own).pcs| == |s.pcs| && After(s, own).pcs[t].Idle?
  {
    ThreeSteps(s, Acquire(t), Clear(t), Unlock(t));
  }

  /** On an empty queue a consumer goes to sleep and gives the mutex back. */
  lemma ConsumerSleeps<T>(s: State<T>, t: nat)
    requires Inv(s) && s.owner.None? && s.queue == [] && t < |s.pcs|
    requires s.pcs[t].WantGet? || s.pcs[t].Woken?
    ensures var own: seq<Action<T>> := [Acquire(t), Test(t), Sleep(t)];
            && Run(s, own) && After(s, own).owner.None? && After(s, own).queue == []
            && |After(s, own).pcs| == |s.pcs| && After(s, own).pcs[t].Sleeping?
  {
    ThreeSteps(s, Acquire(t), Test(t), Sleep(t));
  }

  /** Every thread that is not in a call can make one. */
  lemma CallsBegin<T>(s: State<T>, t: nat, block: seq<T>)
    requires t < |s.pcs| == |s.results| && s.pcs[t].Idle?
    ensures Enabled(s, CallAppend(t, block)) && Step(s, CallAppend(t, block)) == s.(pcs := s.pcs[t := WantAppend(block)])
    ensures Enabled(s, CallGet(t)) && Step(s, CallGet(t)) == s.(pcs := s.pcs[t := WantGet])
    ensures Enabled(s, CallClear(t)) && Step(s, CallClear(t)) == s.(pcs := s.pcs[t := WantClear])
  {
  }
}
