/** Subscribing for futures prices in batches, across reconnects:
    price_monitor/src/kucoin_price_stream.cpp.  Every callback is one step; which callback comes
    next, and whether the shared sink is empty when a connection is started, is open.
 */
module Subscription {
  import opened Options
  import opened Sequences
  import opened Text

  const BATCH := 100
  const WORD := 0x1_0000_0000_0000_0000

  // Subtraction of `size_t`
  function Minus(a: nat, b: nat): nat
    requires a < WORD && b < WORD
  {
    if a >= b then a - b else a - b + WORD
  }

  /** It is the difference up to a multiple of 2^64. */
  lemma MinusMeaning(a: nat, b: nat)
    requires a < WORD && b < WORD
    ensures Minus(a, b) == (a - b) % 0x1_0000_0000_0000_0000
  {
  }

  function Min(a: nat, b: nat): nat {
    if a <= b then a else b
  }

  // ---------------------------------------------------------------- what is to be sent

  // A list cut into batches; the empty list has one empty batch.
  function Batches(names: seq<string>): (r: seq<seq<string>>)
    ensures r != []
  {
    if |names| <= BATCH then [names] else [names[..BATCH]] + Batches(names[BATCH..])
  }

  function Flat(batches: seq<seq<string>>): seq<string> {
    if batches == [] then [] else batches[0] + Flat(batches[1..])
  }

  /** The batches hold every name once and in order, each holds at most a hundred of them and all but
      the last exactly a hundred, and there are as few as that allows, but at least one. */
  lemma {:induction false} BatchesMeaning(names: seq<string>)
    ensures Flat(Batches(names)) == names
    ensures forall i :: 0 <= i < |Batches(names)| ==> |Batches(names)[i]| <= 100
    ensures forall i :: 0 <= i < |Batches(names)| - 1 ==> |Batches(names)[i]| == 100
    ensures |Batches(names)| == if names == [] then 1 else (|names| + 99) / 100
  {
    if |names| <= BATCH {
      assert Flat([names]) == names + [];
    } else {
      BatchesMeaning(names[BATCH..]);
      assert Batches(names)[1..] == Batches(names[BATCH..]);
    }
  }

  lemma {:induction false} BatchAt(names: seq<string>, k: nat)
    requires k < |Batches(names)|
    ensures BATCH * k <= |names|
    ensures Batches(names)[k] == names[BATCH * k..Min(BATCH * k + BATCH, |names|)]
    ensures k + 1 == |Batches(names)| <==> BATCH * k + BATCH >= |names|
  {
    if |names| > BATCH && k > 0 {
      BatchAt(names[BATCH..], k - 1);
      assert Batches(names)[k] == Batches(names[BATCH..])[k - 1];
    } else if |names| <= BATCH {
      assert names[0..|names|] == names;
    }
  }

  function Topic(names: seq<string>): string {
    "/contractMarket/tickerV2:" + Join(names, ",")
  }

  function Topics(batches: seq<seq<string>>): (r: seq<string>)
    ensures |r| == |batches|
  {
    seq(|batches|, i requires 0 <= i < |batches| => Topic(batches[i]))
  }

  /** A topic tells which names it is for. */
  lemma TopicNames(names: seq<string>)
    requires names != [] && AllFree(names, ',')
    ensures "/contractMarket/tickerV2:" <= Topic(names)
    ensures SplitAll(Topic(names)[|"/contractMarket/tickerV2:"|..], ',') == names
  {
    JoinSplitAll(names, ',');
    assert Topic(names)[|"/contractMarket/tickerV2:"|..] == Join(names, ",");
  }

  // ---------------------------------------------------------------- the machine

  datatype Phase = Idle | Fetching | Connecting | Reading | Writing | Dead

  // `sent` lists the topics composed since the counter was last reset.
  datatype State = State(
    phase: Phase,
    instruments: seq<string>,
    counter: nat,
    subscribed: bool,
    subscription: string,
    sent: seq<string>)

  datatype Event =
    | Run(sinkEmpty: bool)
    | Fetched(names: seq<string>)
    | Handshaken
    | Message
    | Written
    | Error(sinkEmpty: bool)    // `report_error_and_retry`
    | Stops                     // an error that is only logged

  const INITIAL := State(Idle, [], 0, false, "", [])

  // `rest_api_initiate_connection`
  function Connect(s: State, sinkEmpty: bool): State {
    if sinkEmpty then s.(phase := Fetching, subscribed := false) else s.(phase := Connecting)
  }

  // `get_subscription_json`; the names may run past the vector's end if the subtraction wraps.
  function Compose(s: State): State
    requires s.counter < WORD && |s.instruments| < WORD
  {
    var size := |s.instruments|;
    var count := Min(BATCH, Minus(size, s.counter));
    var topic := Topic(if s.counter + count <= size then s.instruments[s.counter..s.counter + count] else []);
    var counter := (s.counter + count) % WORD;
    s.(counter := counter, subscribed := s.subscribed || counter == size,
       subscription := topic, sent := s.sent + [topic])
  }

  predicate Enabled(s: State, e: Event) {
    match e
    case Run(_) => s.phase.Idle?
    case Fetched(names) => s.phase.Fetching? && |names| < WORD
    case Handshaken => s.phase.Connecting?
    case Message => s.phase.Reading?
    case Written => s.phase.Writing?
    case Error(_) => s.phase.Connecting? || s.phase.Reading? || s.phase.Writing?
    case Stops => s.phase.Fetching? || s.phase.Connecting? || s.phase.Reading?
  }

  predicate Fits(s: State) {
    s.counter < WORD && |s.instruments| < WORD
  }

  function Step(s: State, e: Event): State
    requires Fits(s) && Enabled(s, e)
  {
    match e
    case Run(sinkEmpty) => Connect(s, sinkEmpty)
    case Fetched(names) => s.(phase := Connecting, instruments := names)
    case Handshaken => s.(phase := Reading)
    case Message =>
      if s.subscribed then s
      else
        var composed := if s.subscription == "" then Compose(s) else s;
        composed.(phase := Writing)
    case Written => s.(phase := Reading, subscription := "")
    case Error(sinkEmpty) =>
      Connect(s.(counter := 0, subscribed := false, sent := [],
                 subscription := if s.phase.Writing? then "" else s.subscription), sinkEmpty)
    case Stops => s.(phase := Dead)
  }

  /** What holds throughout: the topics sent since the last reset are the first of those to be sent,
      the counter stands behind their names, and "subscribed" says that they are all. */
  ghost predicate Inv(s: State) {
    var batches := Batches(s.instruments);
    && |s.instruments| < WORD
    && |s.sent| <= |batches| && s.sent == Topics(batches)[..|s.sent|]
    && s.counter == Min(BATCH * |s.sent|, |s.instruments|)
    && (s.subscribed <==> |s.sent| == |batches|)
    && (s.phase.Writing? ==> s.sent != [] && s.subscription == s.sent[|s.sent| - 1])
    && (!s.phase.Writing? ==> s.subscription == "")
    && (s.phase.Idle? || s.phase.Fetching? || s.phase.Connecting? ==> s.sent == [])
  }

  /** Composing never wraps and sends the next batch. */
  lemma ComposeKeeps(s: State)
    requires Inv(s) && !s.subscribed
    ensures s.counter <= |s.instruments| && Minus(|s.instruments|, s.counter) == |s.instruments| - s.counter
    ensures Compose(s).sent == s.sent + [Topics(Batches(s.instruments))[|s.sent|]]
    ensures Compose(s).subscription == Topics(Batches(s.instruments))[|s.sent|]
    ensures Inv(Compose(s).(phase := Writing))
  {
    hide Topic, Batches;
    var batches, k := Batches(s.instruments), |s.sent|;
    BatchAt(s.instruments, k);
    assert Topics(batches)[..k + 1] == Topics(batches)[..k] + [Topics(batches)[k]];
  }

  lemma StepKeeps(s: State, e: Event)
    requires Inv(s) && Enabled(s, e)
    ensures Fits(s) && Inv(Step(s, e))
  {
    hide Compose, Topic, Batches;
    if e.Message? && !s.subscribed {
      ComposeKeeps(s);
    }
    if e.Fetched? || e.Error? {
      assert Topics(Batches(Step(s, e).instruments))[..0] == [];
    }
  }

  // Whether the events can happen one after the other.
  ghost predicate Runs(s: State, events: seq<Event>)
    decreases |events|
  {
    events != [] ==> Fits(s) && Enabled(s, events[0]) && Runs(Step(s, events[0]), events[1..])
  }

  function After(s: State, events: seq<Event>): State
    requires Runs(s, events)
    decreases |events|
  {
    if events == [] then s else After(Step(s, events[0]), events[1..])
  }

  lemma {:induction false} RunKeeps(s: State, events: seq<Event>)
    requires Inv(s) && Runs(s, events)
    ensures Inv(After(s, events))
    decreases |events|
  {
    if events != [] {
      StepKeeps(s, events[0]);
      RunKeeps(Step(s, events[0]), events[1..]);
    }
  }

  /** In every run with read and write errors and reconnects: the batches sent since the last reset
      hold exactly the first `counter` instruments in order, at most a hundred in each, the
      subtraction does not wrap, and "subscribed" is set exactly when every instrument was sent, in
      the least number of batches. */
  lemma EveryRun(events: seq<Event>)
    requires Runs(INITIAL, events)
    ensures var s := After(INITIAL, events);
            var batches := Batches(s.instruments);
            && s.counter <= |s.instruments| < 0x1_0000_0000_0000_0000
            && Minus(|s.instruments|, s.counter) == |s.instruments| - s.counter
            && |s.sent| <= |batches| && s.sent == Topics(batches[..|s.sent|])
            && Flat(batches[..|s.sent|]) == s.instruments[..s.counter]
            && (forall i :: 0 <= i < |batches| ==> |batches[i]| <= 100)
            && (s.subscribed <==> s.sent != [] && s.counter == |s.instruments|)
            && (s.subscribed <==> |s.sent| == if s.instruments == [] then 1 else (|s.instruments| + 99) / 100)
  {
    assert Topics(Batches([]))[..0] == [];
    RunKeeps(INITIAL, events);
    var s := After(INITIAL, events);
    var batches, k := Batches(s.instruments), |s.sent|;
    hide Batches, Topic, Flat, After, Runs;
    assert Topics(batches)[..k] == Topics(batches[..k]);
    BatchesMeaning(s.instruments);
    FlatPrefix(s.instruments, k);
    if k > 0 {
      BatchAt(s.instruments, k - 1);
    }
  }

  lemma {:induction false} FlatPrefix(names: seq<string>, k: nat)
    requires k <= |Batches(names)|
    ensures Flat(Batches(names)[..k]) == names[..Min(BATCH * k, |names|)]
  {
    if k > 0 {
      if |names| <= BATCH {
        assert [names][..1] == [names] && Flat([names]) == names + [];
      } else {
        var rest := names[BATCH..];
        FlatPrefix(rest, k - 1);
        assert Batches(names)[..k][1..] == Batches(rest)[..k - 1];
      }
    }
  }

  // ---------------------------------------------------------------- what is subscribed for

  // The names of the last fetch, or what there was before.
  function LastFetched(names: seq<string>, events: seq<Event>): seq<string>
    decreases |events|
  {
    if events == [] then names
    else LastFetched(if events[0].Fetched? then events[0].names else names, events[1..])
  }

  predicate HasFetch(events: seq<Event>) {
    exists i :: 0 <= i < |events| && events[i].Fetched?
  }

  // The sink was found empty when a connection was started.
  predicate FindsEmpty(e: Event) {
    e == Run(true) || e == Error(true)
  }

  predicate HasEmptySink(events: seq<Event>) {
    exists i :: 0 <= i < |events| && FindsEmpty(events[i])
  }

  lemma HasCons(events: seq<Event>)
    requires events != []
    ensures HasFetch(events) <==> events[0].Fetched? || HasFetch(events[1..])
    ensures HasEmptySink(events) <==> FindsEmpty(events[0]) || HasEmptySink(events[1..])
  {
    assert forall i :: 0 <= i < |events| - 1 ==> events[1..][i] == events[i + 1];
    if HasFetch(events) && !events[0].Fetched? {
      var i :| 0 <= i < |events| && events[i].Fetched?;
      assert events[1..][i - 1].Fetched?;
    }
    if HasEmptySink(events) && !FindsEmpty(events[0]) {
      var i :| 0 <= i < |events| && FindsEmpty(events[i]);
      assert FindsEmpty(events[1..][i - 1]);
    }
  }

  lemma ComposeInstruments(s: State)
    requires Fits(s)
    ensures Compose(s).instruments == s.instruments && Compose(s).phase == s.phase
  {
  }

  lemma {:induction false} InstrumentsAreLastFetched(s: State, events: seq<Event>)
    requires Runs(s, events)
    ensures After(s, events).instruments == LastFetched(s.instruments, events)
    decreases |events|
  {
    if events != [] {
      hide Compose;
      ComposeInstruments(s);
      InstrumentsAreLastFetched(Step(s, events[0]), events[1..]);
    }
  }

  /** Instruments are fetched exactly when a connection is started and finds the shared sink empty. */
  lemma FetchingNeedsEmptySink(s: State, e: Event)
    requires Fits(s) && Enabled(s, e) && !s.phase.Fetching?
    ensures Step(s, e).phase.Fetching? <==> FindsEmpty(e)
  {
  }

  predicate Connected(s: State) {
    s.subscribed || s.phase.Connecting? || s.phase.Reading? || s.phase.Writing?
  }

  // Between the two kinds of events: whether the sink was found empty, and whether there was a fetch.
  predicate Tracked(s: State, empty: bool, fetched: bool) {
    && (fetched ==> empty)
    && (s.phase.Idle? ==> !empty && !s.subscribed)
    && (s.phase.Fetching? ==> empty && !s.subscribed)
    && (Connected(s) && empty ==> fetched)
  }

  lemma {:induction false} SinkDecides(s: State, events: seq<Event>, empty: bool, fetched: bool)
    requires Runs(s, events) && Tracked(s, empty, fetched)
    ensures Tracked(After(s, events), empty || HasEmptySink(events), fetched || HasFetch(events))
    decreases |events|
  {
    if events != [] {
      HasCons(events);
      hide HasFetch, HasEmptySink, Compose;
      ComposeInstruments(s);
      SinkDecides(Step(s, events[0]), events[1..], empty || FindsEmpty(events[0]), fetched || events[0].Fetched?);
    }
  }

  lemma {:induction false} LastOfNone(names: seq<string>, events: seq<Event>)
    requires !HasFetch(events)
    ensures LastFetched(names, events) == names
  {
    if events != [] {
      HasCons(events);
      LastOfNone(names, events[1..]);
    }
  }

  lemma TopicOfNothing(names: seq<string>)
    ensures Topics(Batches(names)) == [Topic([])] <==> names == [] || names == [""]
  {
    if names == [] || names == [""] {
      assert Join([""], ",") == "" && Batches(names) == [names];
    } else if |names| == 1 {
      assert Batches(names) == [names];
      assert Join(names, ",") == names[0];
      assert Topics(Batches(names))[0][|"/contractMarket/tickerV2:"|..] == names[0];
    } else {
      var first := Batches(names)[0];
      assert |first| >= 2 && first == names[..|first|];
      assert Join(first, ",") == first[0] + "," + Join(first[1..], ",");
      assert |Topics(Batches(names))[0]| > |Topic([])|;
    }
  }

  /** A subscribed stream has sent a topic without names, and nothing else, if and only if the last
      instruments fetched are none (or a single one without a name).  It did fetch if and only if some
      connection found the shared sink empty; so a stream that always finds it filled takes a
      subscription for nothing for complete. */
  lemma SubscribedForNothing(events: seq<Event>)
    requires Runs(INITIAL, events) && After(INITIAL, events).subscribed
    ensures var s, names := After(INITIAL, events), LastFetched([], events);
            && s.instruments == names && s.sent == Topics(Batches(names))
            && (s.sent == [Topic([])] <==> names == [] || names == [""])
    ensures HasFetch(events) <==> HasEmptySink(events)
    ensures !HasEmptySink(events) ==> After(INITIAL, events).sent == [Topic([])]
  {
    hide After, Runs, Batches, Topic, Topics, HasFetch, HasEmptySink, LastFetched;
    EveryRun(events);
    InstrumentsAreLastFetched(INITIAL, events);
    SinkDecides(INITIAL, events, false, false);
    var s := After(INITIAL, events);
    BatchesMeaning(s.instruments);
    TopicOfNothing(s.instruments);
    assert Batches(s.instruments)[..|s.sent|] == Batches(s.instruments);
    if !HasFetch(events) {
      LastOfNone([], events);
    }
  }

  /** Without a fetch there is nothing to subscribe for, however far the run has got. */
  lemma NothingFetched(events: seq<Event>)
    requires Runs(INITIAL, events) && !HasFetch(events)
    ensures var s := After(INITIAL, events);
            if s.subscribed then s.sent == ["/contractMarket/tickerV2:"] else s.sent == []
  {
    hide After, Runs, HasFetch, LastFetched;
    EveryRun(events);
    InstrumentsAreLastFetched(INITIAL, events);
    LastOfNone([], events);
    assert Batches([]) == [[]] && Topic([]) == "/contractMarket/tickerV2:";
  }

  /** Such a run: the sink is filled at the start, and the first message completes the subscription. */
  lemma FilledSinkSubscribesForNothing()
    ensures var events := [Run(false), Handshaken, Message];
            && Runs(INITIAL, events)
            && After(INITIAL, events).subscribed && After(INITIAL, events).sent == ["/contractMarket/tickerV2:"]
  {
    var events := [Run(false), Handshaken, Message];
    var a := Step(INITIAL, Run(false));
    var b := Step(a, Handshaken);
    var c := Step(b, Message);
    assert events[1..] == [Handshaken, Message] && events[1..][1..] == [Message] && events[1..][1..][1..] == [];
    assert c.subscribed && c.sent == [Topic([])];
    assert Topic([]) == "/contractMarket/tickerV2:";
    assert Runs(c, []) && Runs(b, [Message]) && After(b, [Message]) == c;
    assert [Handshaken, Message][0] == Handshaken && events[0] == Run(false);
    assert Runs(a, [Handshaken, Message]) && After(a, [Handshaken, Message]) == After(b, [Message]);
    assert Runs(INITIAL, events) && After(INITIAL, events) == After(a, [Handshaken, Message]);
  }

  // ---------------------------------------------------------------- what is sent, from the events alone

  // How many messages came since the last error.
  function MessagesSince(n: nat, events: seq<Event>): nat
    decreases |events|
  {
    if events == [] then n
    else MessagesSince(if events[0].Error? then 0 else if events[0].Message? then n + 1 else n, events[1..])
  }

  // What was sent is a batch for each message, until there are no more.
  ghost predicate OneEach(s: State, n: nat) {
    && |s.sent| == Min(n, |Batches(s.instruments)|)
    && (s.phase.Idle? || s.phase.Fetching? || s.phase.Connecting? ==> n == 0)
  }

  lemma StepSends(s: State, n: nat, e: Event)
    requires Inv(s) && Enabled(s, e) && OneEach(s, n)
    ensures Fits(s) && OneEach(Step(s, e), MessagesSince(n, [e]))
  {
    hide Batches, Compose, Topic;
    assert MessagesSince(n, [e]) == if e.Error? then 0 else if e.Message? then n + 1 else n;
    if e.Message? && !s.subscribed {
      ComposeKeeps(s);
      ComposeInstruments(s);
    }
  }

  lemma {:induction false} RunSends(s: State, n: nat, events: seq<Event>)
    requires Inv(s) && Runs(s, events) && OneEach(s, n)
    ensures OneEach(After(s, events), MessagesSince(n, events))
    decreases |events|
  {
    hide OneEach, Inv, Step, Enabled;
    if events != [] {
      StepSends(s, n, events[0]);
      StepKeeps(s, events[0]);
      assert MessagesSince(n, [events[0]]) == if events[0].Error? then 0 else if events[0].Message? then n + 1 else n;
      RunSends(Step(s, events[0]), MessagesSince(n, [events[0]]), events[1..]);
    }
  }

  /** The events alone tell what was sent since the last error: one batch of the instruments last fetched for
      each message since then, in order, until all are sent. */
  lemma EveryRunSends(events: seq<Event>)
    requires Runs(INITIAL, events)
    ensures var names := LastFetched([], events);
            var n := Min(MessagesSince(0, events), |Batches(names)|);
            && After(INITIAL, events).sent == Topics(Batches(names)[..n])
            && After(INITIAL, events).counter == Min(100 * n, |names|)
  {
    assert Topics(Batches([]))[..0] == [];
    RunSends(INITIAL, 0, events);
    RunKeeps(INITIAL, events);
    EveryRun(events);
    InstrumentsAreLastFetched(INITIAL, events);
    hide Batches, Topics, After, Runs;
  }

  /** After a handshake a message can come, after a message the write that it began can end, and errors are
      followed by a new connection. */
  lemma CanGoOn(s: State)
    requires Inv(s)
    ensures s.phase.Idle? ==> Enabled(s, Run(true)) && Enabled(s, Run(false))
    ensures s.phase.Fetching? ==> Enabled(s, Fetched([])) && Step(s, Fetched([])).phase.Connecting?
    ensures s.phase.Connecting? ==> Enabled(s, Handshaken) && Step(s, Handshaken).phase.Reading?
    ensures s.phase.Reading? ==> Enabled(s, Message)
                                 && Step(s, Message).phase == if s.subscribed then Reading else Writing
    ensures s.phase.Writing? ==> Enabled(s, Written) && Step(s, Written).phase.Reading?
    ensures s.phase.Connecting? || s.phase.Reading? || s.phase.Writing? ==>
              forall empty :: Enabled(s, Error(empty)) && Step(s, Error(empty)).phase == if empty then Fetching else Connecting
  {
    hide Compose;
    ComposeInstruments(s);
  }

  // ---------------------------------------------------------------- a quiet connection

  // Rounds of a message and a completed write.
  function Rounds(n: nat): seq<Event> {
    if n == 0 then [] else [Message, Written] + Rounds(n - 1)
  }

  lemma {:induction false} RoundsSend(s: State, n: nat)
    requires Inv(s) && s.phase.Reading? && |s.sent| + n <= |Batches(s.instruments)|
    ensures Runs(s, Rounds(n))
    ensures var s' := After(s, Rounds(n));
            Inv(s') && s'.phase.Reading? && s'.instruments == s.instruments && |s'.sent| == |s.sent| + n
    decreases n
  {
    if n > 0 {
      hide Batches, Inv, Compose;
      assert !s.subscribed && s.subscription == "" by {
        NotYet(s);
      }
      ComposeKeeps(s);
      StepKeeps(s, Message);
      var written := Step(s, Message);
      StepKeeps(written, Written);
      var next := Step(written, Written);
      RoundsSend(next, n - 1);
      TwoSteps(s, Rounds(n - 1));
    }
  }

  lemma NotYet(s: State)
    requires Inv(s) && s.phase.Reading?
    ensures s.subscribed <==> |s.sent| == |Batches(s.instruments)|
    ensures s.subscription == ""
  {
  }

  lemma TwoSteps(s: State, rest: seq<Event>)
    requires Fits(s) && s.phase.Reading? && Enabled(s, Message)
    requires var w := Step(s, Message); Fits(w) && Enabled(w, Written) && Runs(Step(w, Written), rest)
    ensures Runs(s, [Message, Written] + rest)
    ensures After(s, [Message, Written] + rest) == After(Step(Step(s, Message), Written), rest)
  {
    var events := [Message, Written] + rest;
    hide Step, Enabled;
    assert events[1..][1..] == rest && events[1..][0] == Written;
  }

  /** After a handshake, as many messages as there are batches, each followed by a completed write,
      subscribe for every instrument. */
  lemma QuietConnectionSubscribes(s: State)
    requires Inv(s) && s.phase.Connecting?
    ensures var ready, n := Step(s, Handshaken), if s.instruments == [] then 1 else (|s.instruments| + 99) / 100;
            && Runs(ready, Rounds(n))
            && var s' := After(ready, Rounds(n));
            s'.subscribed && s'.counter == |s.instruments| && s'.sent == Topics(Batches(s.instruments))
  {
    var ready := Step(s, Handshaken);
    StepKeeps(s, Handshaken);
    BatchesMeaning(s.instruments);
    var n := |Batches(s.instruments)|;
    RoundsSend(ready, n);
    hide Topics, Topic, Batches, After, Runs;
    var s' := After(ready, Rounds(n));
    BatchAt(s.instruments, n - 1);
    assert Topics(Batches(s.instruments))[..n] == Topics(Batches(s.instruments));
  }

  // ---------------------------------------------------------------- the stream

  datatype Ticker = Ticker(symbol: string, price: Option<real>)

  // A contract that was never traded is not listed.
  function Listed(tickers: seq<Ticker>): seq<string> {
    if tickers == [] then []
    else
      var n := |tickers| - 1;
      Listed(tickers[..n]) + if tickers[n].price.Some? then [tickers[n].symbol] else []
  }

  predicate HasPrice(t: Ticker) {
    t.price.Some?
  }

  /** Listed are the symbols of the contracts with a price, in order. */
  lemma {:induction false} ListedMeaning(tickers: seq<Ticker>)
    ensures Listed(tickers) == Map((t: Ticker) => t.symbol, Filter(tickers, HasPrice))
  {
    if tickers != [] {
      var n := |tickers| - 1;
      ListedMeaning(tickers[..n]);
      FilterNext(tickers, n, HasPrice);
      assert tickers[..n + 1] == tickers;
    }
  }

  class FuturesStream {
    var instruments: seq<string>
    var tokenCounter: nat
    var tokensSubscribedFor: bool
    var subscriptionString: string
    ghost var phase: Phase
    ghost var sent: seq<string>

    ghost function View(): State
      reads this
    {
      State(phase, instruments, tokenCounter, tokensSubscribedFor, subscriptionString, sent)
    }

    ghost predicate Valid()
      reads this
    {
      Inv(View())
    }

    constructor ()
      ensures View() == INITIAL && Valid()
    {
      instruments, tokenCounter, tokensSubscribedFor, subscriptionString := [], 0, false, "";
      phase, sent := Idle, [];
      new;
      assert Topics(Batches([]))[..0] == [];
    }

    method InitiateConnection(sinkEmpty: bool)
      modifies this`phase, this`tokensSubscribedFor
      ensures View() == Connect(old(View()), sinkEmpty)
    {
      if !sinkEmpty {
        phase := Connecting;
        return;
      }
      tokensSubscribedFor := false;
      phase := Fetching;
    }

    method Start(sinkEmpty: bool)
      requires Valid() && Enabled(View(), Run(sinkEmpty))
      modifies this
      ensures Valid() && View() == Step(old(View()), Run(sinkEmpty))
    {
      StepKeeps(View(), Run(sinkEmpty));
      InitiateConnection(sinkEmpty);
    }

    /** `on_instruments_received`; `tickers` are those before a parse error, if there is one. */
    method OnInstrumentsReceived(tickers: seq<Ticker>)
      requires Valid() && Enabled(View(), Fetched(Listed(tickers)))
      modifies this
      ensures Valid() && View() == Step(old(View()), Fetched(Listed(tickers)))
    {
      StepKeeps(View(), Fetched(Listed(tickers)));
      instruments := [];
      var i := 0;
      while i < |tickers|
        invariant 0 <= i <= |tickers|
        invariant instruments == Listed(tickers[..i])
        invariant unchanged(`tokenCounter) && unchanged(`tokensSubscribedFor) && unchanged(`subscriptionString)
        invariant unchanged(`phase) && unchanged(`sent)
      {
        assert tickers[..i + 1][..i] == tickers[..i];
        if tickers[i].price.Some? {
          instruments := instruments + [tickers[i].symbol];
        }
        i := i + 1;
      }
      assert tickers[..i] == tickers;
      phase := Connecting;
    }

    method OnHandshake()
      requires Valid() && Enabled(View(), Handshaken)
      modifies this
      ensures Valid() && View() == Step(old(View()), Handshaken)
    {
      StepKeeps(View(), Handshaken);
      phase := Reading;
    }

    // The names of a batch, separated by commas.
    method BatchText(count: nat) returns (text: string)
      requires tokenCounter + count <= |instruments|
      ensures text == Join(instruments[tokenCounter..tokenCounter + count], ",")
    {
      hide Join;
      ghost var names := instruments[tokenCounter..tokenCounter + count];
      text := "";
      JoinNone();
      assert names[..0] == [];
      var i := 0;
      while i < count
        invariant 0 <= i <= count
        invariant text == Join(names[..i], ",") + if 0 < i < count then "," else ""
      {
        JoinNext(names, i);
        assert instruments[i + tokenCounter] == names[i];
        text := text + instruments[i + tokenCounter];
        if i < count - 1 {
          text := text + ",";
        }
        i := i + 1;
      }
      assert names[..i] == names;
    }

    /** `get_subscription_json` */
    method GetSubscription() returns (topic: string)
      requires Valid() && !tokensSubscribedFor
      modifies this`tokenCounter, this`tokensSubscribedFor, this`sent
      ensures Compose(old(View())) == View().(subscription := topic)
    {
      hide Batches, Topics, Join;
      ComposeKeeps(View());
      var size := |instruments|;
      var count := Min(BATCH, Minus(size, tokenCounter));
      assert tokenCounter + count <= size;
      var text := BatchText(count);
      tokenCounter := tokenCounter + count;
      if tokenCounter == size {
        tokensSubscribedFor := true;
      }
      topic := "/contractMarket/tickerV2:" + text;
      sent := sent + [topic];
    }

    /** `interpret_generic_messages` and `send_ticker_subscription`; writing is whether a write was
        begun, else the stream reads on. */
    method OnMessage() returns (writing: bool)
      requires Valid() && Enabled(View(), Message)
      modifies this
      ensures Valid() && View() == Step(old(View()), Message)
      ensures writing == !old(tokensSubscribedFor)
    {
      StepKeeps(View(), Message);
      if tokensSubscribedFor {
        return false;
      }
      if subscriptionString == "" {
        subscriptionString := GetSubscription();
      }
      phase := Writing;
      writing := true;
    }

    method OnWritten()
      requires Valid() && Enabled(View(), Written)
      modifies this
      ensures Valid() && View() == Step(old(View()), Written)
    {
      StepKeeps(View(), Written);
      subscriptionString := "";
      phase := Reading;
    }

    /** `report_error_and_retry`, out of any callback; that of a write first clears the string. */
    method ReportErrorAndRetry(sinkEmpty: bool)
      requires Valid() && Enabled(View(), Error(sinkEmpty))
      modifies this
      ensures Valid() && View() == Step(old(View()), Error(sinkEmpty))
    {
      StepKeeps(View(), Error(sinkEmpty));
      subscriptionString := "";
      tokenCounter, tokensSubscribedFor := 0, false;
      sent := [];
      InitiateConnection(sinkEmpty);
    }
  }

  lemma JoinNone()
    ensures Join([], ",") == ""
  {
  }

  lemma {:induction false} JoinNext(names: seq<string>, i: nat)
    requires i < |names|
    ensures Join(names[..i + 1], ",") == Join(names[..i], ",") + (if i > 0 then "," else "") + names[i]
  {
    if i == 0 {
      assert names[..1] == [names[0]];
    } else {
      JoinNext(names[1..], i - 1);
      assert names[..i + 1][1..] == names[1..][..i] && names[..i][1..] == names[1..][..i - 1];
    }
  }
}
