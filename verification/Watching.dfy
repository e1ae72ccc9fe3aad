/** What happens to a watcher, whichever kind it is: the events of a run, and what they alone tell. */
module Watching {
  import opened PriceStore
  import opened Sequences

  // A price goes into the shared store, a pending wait runs out, a dispatched handler runs, or the
  // task is removed.
  datatype Event = Insert(item: Instrument) | Expires | Tick | Remove

  function Ticks(events: seq<Event>): nat {
    if events == [] then 0 else (if events[0].Tick? then 1 else 0) + Ticks(events[1..])
  }

  predicate Removes(events: seq<Event>) {
    exists i :: 0 <= i < |events| && events[i].Remove?
  }

  lemma RemovesCons(events: seq<Event>)
    requires events != []
    ensures Removes(events) <==> events[0].Remove? || Removes(events[1..])
  {
    if Removes(events) && !events[0].Remove? {
      var i :| 0 <= i < |events| && events[i].Remove?;
      assert events[1..][i - 1].Remove?;
    }
    if Removes(events[1..]) {
      var i :| 0 <= i < |events[1..]| && events[1..][i].Remove?;
      assert events[i + 1].Remove?;
    }
  }

  // The insert log of the store after some events.
  function LogAfter(log: seq<Instrument>, events: seq<Event>): seq<Instrument>
    decreases |events|
  {
    if events == [] then log
    else LogAfter(if events[0].Insert? then log + [events[0].item] else log, events[1..])
  }

  // How long the log was at each tick.
  function TickTimes(n: nat, events: seq<Event>): seq<nat>
    decreases |events|
  {
    if events == [] then []
    else
      (if events[0].Tick? then [n] else [])
      + TickTimes(if events[0].Insert? then n + 1 else n, events[1..])
  }

  // The tokens that the store knows.
  function Known(log: seq<Instrument>, tradeType: nat): string -> bool {
    (token: string) => exists i :: 0 <= i < |log| && log[i].name == token && log[i].tradeType == tradeType
  }

  lemma KnownIsStored(log: seq<Instrument>, token: string, tradeType: nat)
    ensures Known(log, tradeType)(token) <==> Lookup(log, Key(token, tradeType)).Some?
  {
    StoreHolds(log, Key(token, tradeType));
    if Known(log, tradeType)(token) {
      var i :| 0 <= i < |log| && log[i].name == token && log[i].tradeType == tradeType;
      assert KeyOf(log[i]) == Key(token, tradeType);
    }
  }

  // The instrument of a token that was inserted last.
  ghost predicate Latest(log: seq<Instrument>, token: string, tradeType: nat, x: Instrument) {
    exists i :: 0 <= i < |log| && log[i] == x && x.name == token && x.tradeType == tradeType
                && forall j :: i < j < |log| ==> log[j].name != token || log[j].tradeType != tradeType
  }

  lemma LookupIsLatest(log: seq<Instrument>, token: string, tradeType: nat)
    requires Lookup(log, Key(token, tradeType)).Some?
    ensures Latest(log, token, tradeType, Lookup(log, Key(token, tradeType)).value)
  {
    var i := ValueIsLast(log, Key(token, tradeType));
    assert KeyOf(log[i]) == Key(token, tradeType);
    assert forall j :: i < j < |log| ==> KeyOf(log[j]) != Key(token, tradeType);
  }
}
