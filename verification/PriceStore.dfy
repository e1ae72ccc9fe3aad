/** Instruments and the keyed "latest value" store: common/include/price_stream/commodity.hpp and
    `unique_elements_t` of common/include/container.hpp, checked against the log of inserts.
 */
module PriceStore {

  import opened Options

  datatype Instrument = Instrument(name: string, currentPrice: real, open24h: real, tradeType: nat)

  // An instrument as it is sent to the result service.
  datatype Token = Token(name: string, price: real, open24h: real)

  // What `hash` and `equal_to` of an instrument look at; prices are not part of it.
  datatype Key = Key(name: string, tradeType: nat)

  function KeyOf(item: Instrument): Key {
    Key(item.name, item.tradeType)
  }

  // An instrument as it is sent; a snapshot carries its threshold as the price.
  function TokenOf(x: Instrument): Token {
    Token(x.name, x.currentPrice, x.open24h)
  }

  // An `unordered_map<T, T>`: for each class of equal instruments the key object that was
  // stored, and the mapped instrument.
  type Entries = map<Key, (Instrument, Instrument)>

  // ---------------------------------------------------------------- the log of inserts

  // `m_set[item] = item` for each item in turn.
  function Store(log: seq<Instrument>): Entries {
    if log == [] then map[]
    else
      var before, item := Store(log[..|log| - 1]), log[|log| - 1];
      before[KeyOf(item) := (if KeyOf(item) in before then before[KeyOf(item)].0 else item, item)]
  }

  ghost predicate FirstWith(log: seq<Instrument>, k: Key, i: nat) {
    i < |log| && KeyOf(log[i]) == k && forall j :: 0 <= j < i ==> KeyOf(log[j]) != k
  }

  ghost predicate LastWith(log: seq<Instrument>, k: Key, i: nat) {
    i < |log| && KeyOf(log[i]) == k && forall j :: i < j < |log| ==> KeyOf(log[j]) != k
  }

  lemma {:induction false} StoreHolds(log: seq<Instrument>, k: Key)
    ensures k in Store(log) <==> exists i :: 0 <= i < |log| && KeyOf(log[i]) == k
  {
    if log != [] {
      var n := |log| - 1;
      StoreHolds(log[..n], k);
      assert forall i :: 0 <= i < n ==> log[..n][i] == log[i];
      if KeyOf(log[n]) != k && k in Store(log[..n]) {
        var i :| 0 <= i < n && KeyOf(log[..n][i]) == k;
        assert KeyOf(log[i]) == k;
      }
    }
  }

  lemma {:induction false} KeyIsFirst(log: seq<Instrument>, k: Key) returns (i: nat)
    requires k in Store(log)
    ensures FirstWith(log, k, i) && Store(log)[k].0 == log[i]
  {
    var n := |log| - 1;
    var init := log[..n];
    if k in Store(init) {
      i := KeyIsFirst(init, k);
      assert forall j :: 0 <= j <= i ==> log[j] == init[j];
    } else {
      StoreHolds(init, k);
      i := n;
      assert forall j :: 0 <= j < n ==> KeyOf(log[j]) == KeyOf(init[j]) != k;
    }
  }

  lemma {:induction false} ValueIsLast(log: seq<Instrument>, k: Key) returns (i: nat)
    requires k in Store(log)
    ensures LastWith(log, k, i) && Store(log)[k].1 == log[i]
  {
    var n := |log| - 1;
    if KeyOf(log[n]) == k {
      i := n;
    } else {
      i := ValueIsLast(log[..n], k);
      assert forall j :: 0 <= j < n ==> log[j] == log[..n][j];
    }
  }

  /** The store holds one entry for each class ever inserted.  The entry's key object is the first
      instrument of the class and its value the last. */
  lemma {:induction false} StoreRefinesLog(log: seq<Instrument>, k: Key)
    ensures k in Store(log) <==> exists i :: 0 <= i < |log| && KeyOf(log[i]) == k
    ensures k in Store(log) ==> exists i: nat :: FirstWith(log, k, i) && Store(log)[k].0 == log[i]
    ensures k in Store(log) ==> exists i: nat :: LastWith(log, k, i) && Store(log)[k].1 == log[i]
  {
    StoreHolds(log, k);
    hide Store, FirstWith, LastWith;
    if k in Store(log) {
      var i := KeyIsFirst(log, k);
      var j := ValueIsLast(log, k);
    }
  }

  // What a lookup returns: the last instrument of the class that was inserted.
  function Lookup(log: seq<Instrument>, k: Key): Option<Instrument> {
    if k in Store(log) then Some(Store(log)[k].1) else None
  }

  lemma {:induction false} LookupKey(log: seq<Instrument>, k: Key)
    ensures k in Store(log) ==> KeyOf(Store(log)[k].1) == k
  {
    StoreRefinesLog(log, k);
  }

  /** Entries are never lost: whatever a log finds, a longer log finds something for. */
  lemma {:induction false} StoreOnlyGrows(log: seq<Instrument>, more: seq<Instrument>)
    ensures Store(log).Keys <= Store(log + more).Keys
  {
    if more == [] {
      assert log + more == log;
    } else {
      StoreOnlyGrows(log, more[..|more| - 1]);
      assert (log + more)[..|log + more| - 1] == log + more[..|more| - 1];
    }
  }

  // ---------------------------------------------------------------- listings

  // A list with the value of every entry, once each, in some order.
  ghost predicate Lists(entries: Entries, list: seq<Instrument>) {
    && (forall i :: 0 <= i < |list| ==> KeyOf(list[i]) in entries && entries[KeyOf(list[i])].1 == list[i])
    && (forall i, j :: 0 <= i < j < |list| ==> KeyOf(list[i]) != KeyOf(list[j]))
    && (forall k :: k in entries ==> exists i :: 0 <= i < |list| && KeyOf(list[i]) == k)
  }

  // The same, but for the entries of some keys.
  ghost predicate ListsBut(entries: Entries, list: seq<Instrument>, rest: set<Key>) {
    && (forall i :: 0 <= i < |list| ==>
          KeyOf(list[i]) in entries && KeyOf(list[i]) !in rest && entries[KeyOf(list[i])].1 == list[i])
    && (forall i, j :: 0 <= i < j < |list| ==> KeyOf(list[i]) != KeyOf(list[j]))
    && (forall k :: k in entries && k !in rest ==> exists i :: 0 <= i < |list| && KeyOf(list[i]) == k)
  }

  lemma AddsListed(list: seq<Instrument>, rest: set<Key>, entries: Entries, k: Key)
    requires ListsBut(entries, list, rest) && k in rest && k in entries && KeyOf(entries[k].1) == k
    ensures ListsBut(entries, list + [entries[k].1], rest - {k})
  {
    var more := list + [entries[k].1];
    forall k' | k' in entries && k' !in rest - {k}
      ensures exists i :: 0 <= i < |more| && KeyOf(more[i]) == k'
    {
      if k' == k {
        assert KeyOf(more[|list|]) == k';
      } else {
        var i :| 0 <= i < |list| && KeyOf(list[i]) == k';
        assert KeyOf(more[i]) == k';
      }
    }
  }

  // `std::find_if` for a token of a trade type.
  function Scan(list: seq<Instrument>, name: string, tradeType: nat): Option<Instrument> {
    if list == [] then None
    else if list[0].tradeType == tradeType && list[0].name == name then Some(list[0])
    else Scan(list[1..], name, tradeType)
  }

  lemma {:induction false} ScanFinds(list: seq<Instrument>, name: string, tradeType: nat)
    ensures Scan(list, name, tradeType).None? ==> forall i :: 0 <= i < |list| ==> KeyOf(list[i]) != Key(name, tradeType)
    ensures Scan(list, name, tradeType).Some? ==>
      var x := Scan(list, name, tradeType).value; KeyOf(x) == Key(name, tradeType) && x in list
  {
    if list != [] && KeyOf(list[0]) != Key(name, tradeType) {
      ScanFinds(list[1..], name, tradeType);
      assert list == [list[0]] + list[1..];
    }
  }

  /** The linear scan over any listing finds what the hashed lookup finds. */
  lemma ScanIsLookup(log: seq<Instrument>, list: seq<Instrument>, name: string, tradeType: nat)
    requires Lists(Store(log), list)
    ensures Scan(list, name, tradeType) == Lookup(log, Key(name, tradeType))
  {
    ScanFinds(list, name, tradeType);
  }

  // ---------------------------------------------------------------- the store itself

  class UniqueElements {
    var entries: Entries
    ghost var log: seq<Instrument>

    ghost predicate Valid()
      reads this
    {
      entries == Store(log)
    }

    constructor ()
      ensures Valid() && log == []
    {
      entries, log := map[], [];
    }

    method Insert(item: Instrument)
      requires Valid()
      modifies this
      ensures Valid() && log == old(log) + [item]
    {
      var k := KeyOf(item);
      if k !in entries {
        entries := entries[k := (item, item)];
      } else {
        entries := entries[k := (entries[k].0, item)];
      }
      log := log + [item];
      assert log[..|log| - 1] == old(log);
    }

    method FindItem(item: Instrument) returns (r: Option<Instrument>)
      requires Valid()
      ensures r == Lookup(log, KeyOf(item))
    {
      if KeyOf(item) !in entries {
        return None;
      }
      return Some(entries[KeyOf(item)].1);
    }

    method ToList() returns (list: seq<Instrument>)
      requires Valid()
      ensures Lists(Store(log), list) && |list| == |entries|
    {
      hide Store, KeyOf;
      list := [];
      var rest := entries.Keys;
      while rest != {}
        invariant rest <= entries.Keys && |list| + |rest| == |entries.Keys|
        invariant ListsBut(entries, list, rest)
        decreases rest
      {
        var k :| k in rest;
        LookupKey(log, k);
        AddsListed(list, rest, entries, k);
        list := list + [entries[k].1];
        rest := rest - {k};
      }
      assert |entries.Keys| == |entries|;
    }
  }
}
