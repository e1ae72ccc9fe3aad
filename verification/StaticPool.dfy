/** The bump allocator of common/include/fields_alloc.hpp.  Addresses are offsets from the end of the
    pool's header.
 */
module StaticPool {
  import opened Options

  datatype Block = Block(start: nat, size: nat)

  // `handed` lists the sizes handed out since the last reset, `live` the blocks not given back, both
  // in the order of allocation.
  datatype Pool = Pool(size: nat, cursor: nat, count: nat, live: seq<Block>, handed: seq<nat>)

  function Fresh(size: nat): Pool {
    Pool(size, 0, 0, [], [])
  }

  function Sum(sizes: seq<nat>): nat {
    if sizes == [] then 0 else Sum(sizes[..|sizes| - 1]) + sizes[|sizes| - 1]
  }

  predicate Refuses(s: Pool, n: nat) {
    s.cursor + n >= s.size
  }

  function Alloc(s: Pool, n: nat): Pool {
    if Refuses(s, n) then s
    else s.(cursor := s.cursor + n, count := s.count + 1, live := s.live + [Block(s.cursor, n)], handed := s.handed + [n])
  }

  // The count goes down whichever block is given back.
  function Dealloc(s: Pool, i: nat): Pool
    requires i < |s.live| && s.count > 0
  {
    var s' := s.(count := s.count - 1, live := s.live[..i] + s.live[i + 1..]);
    if s'.count > 0 then s' else s'.(cursor := 0, handed := [])
  }

  datatype Event = Allocate(n: nat) | Deallocate(i: nat)

  predicate Enabled(s: Pool, e: Event) {
    e.Deallocate? ==> e.i < |s.live| && s.count > 0
  }

  function Step(s: Pool, e: Event): Pool
    requires Enabled(s, e)
  {
    match e
    case Allocate(n) => Alloc(s, n)
    case Deallocate(i) => Dealloc(s, i)
  }

  ghost predicate Apart(live: seq<Block>) {
    forall i, j :: 0 <= i < j < |live| ==> live[i].start + live[i].size <= live[j].start
  }

  ghost predicate Inv(s: Pool) {
    && s.count == |s.live| && s.cursor == Sum(s.handed)
    && (s.handed != [] ==> s.cursor < s.size)
    && Apart(s.live)
    && (forall i :: 0 <= i < |s.live| ==> s.live[i].start + s.live[i].size <= s.cursor)
    && (s.live == [] ==> s.handed == [])
    && s.count <= |s.handed|
  }

  lemma RemoveKeepsApart(live: seq<Block>, i: nat)
    requires i < |live| && Apart(live)
    ensures var rest := live[..i] + live[i + 1..];
            Apart(rest) && forall b :: b in rest ==> b in live
  {
    var rest := live[..i] + live[i + 1..];
    forall a, b | 0 <= a < b < |rest|
      ensures rest[a].start + rest[a].size <= rest[b].start
    {
      var a', b' := if a < i then a else a + 1, if b < i then b else b + 1;
      assert rest[a] == live[a'] && rest[b] == live[b'];
    }
  }

  lemma StepKeeps(s: Pool, e: Event)
    requires Inv(s) && Enabled(s, e)
    ensures Inv(Step(s, e)) && Step(s, e).size == s.size
  {
    match e
    case Allocate(n) =>
      assert (s.handed + [n])[..|s.handed|] == s.handed;
    case Deallocate(i) =>
      hide Apart;
      RemoveKeepsApart(s.live, i);
  }

  /** A request that fits gets the bytes at the cursor; one that does not changes nothing; and giving the last
      live block back, and only that, starts the pool afresh. */
  lemma CallsMeaning(s: Pool, n: nat, i: nat)
    requires Inv(s)
    ensures var t := Alloc(s, n);
            if s.cursor + n < s.size then
              t.live == s.live + [Block(s.cursor, n)] && t.cursor == s.cursor + n && t.handed == s.handed + [n]
            else t == s
    ensures i < |s.live| ==>
              var t := Dealloc(s, i);
              && t.live == s.live[..i] + s.live[i + 1..]
              && (if |s.live| == 1 then t.cursor == 0 && t.handed == [] else t.cursor == s.cursor && t.handed == s.handed)
  {
  }

  /** Any request can be made, and any live block given back. */
  lemma CallsCanCome(s: Pool, n: nat, i: nat)
    requires Inv(s)
    ensures Enabled(s, Allocate(n)) && (Enabled(s, Deallocate(i)) <==> i < |s.live|)
  {
  }

  // A history is any sequence of calls each of which can come.
  lemma HistoryIsCalls(s: Pool, e: Event, events: seq<Event>)
    ensures Runs(s, []) && After(s, []) == s
    ensures Runs(s, [e] + events) <==> Enabled(s, e) && Runs(Step(s, e), events)
    ensures Runs(s, [e] + events) ==> After(s, [e] + events) == After(Step(s, e), events)
  {
    assert ([e] + events)[1..] == events;
    hide Step, Enabled;
  }

  // The sizes handed out since the last reset, from the requests alone, with the number of live blocks.
  function HandedOut(size: nat, handed: seq<nat>, live: nat, events: seq<Event>): seq<nat>
    decreases |events|
  {
    if events == [] then handed
    else
      match events[0]
      case Allocate(n) =>
        if Sum(handed) + n < size then HandedOut(size, handed + [n], live + 1, events[1..])
        else HandedOut(size, handed, live, events[1..])
      case Deallocate(_) =>
        if live <= 1 then HandedOut(size, [], 0, events[1..]) else HandedOut(size, handed, live - 1, events[1..])
  }

  lemma {:induction false} RunHandsOut(s: Pool, events: seq<Event>)
    requires Inv(s) && Runs(s, events)
    ensures After(s, events).handed == HandedOut(s.size, s.handed, |s.live|, events)
    decreases |events|
  {
    if events != [] {
      StepKeeps(s, events[0]);
      hide Inv;
      RunHandsOut(Step(s, events[0]), events[1..]);
    }
  }

  ghost predicate Runs(s: Pool, events: seq<Event>)
    decreases |events|
  {
    events != [] ==> Enabled(s, events[0]) && Runs(Step(s, events[0]), events[1..])
  }

  function After(s: Pool, events: seq<Event>): Pool
    requires Runs(s, events)
    decreases |events|
  {
    if events == [] then s else After(Step(s, events[0]), events[1..])
  }

  lemma {:induction false} RunKeeps(s: Pool, events: seq<Event>)
    requires Inv(s) && Runs(s, events)
    ensures Inv(After(s, events)) && After(s, events).size == s.size
    decreases |events|
  {
    if events != [] {
      StepKeeps(s, events[0]);
      RunKeeps(Step(s, events[0]), events[1..]);
    }
  }

  /** In every history in which each deallocation is that of a live block: live blocks are pairwise
      disjoint and inside the pool, the cursor is the sum of the sizes handed out since the last
      reset, it is back at the base whenever no block is live, and a request is refused exactly when
      it would reach the end. */
  lemma EveryHistory(size: nat, events: seq<Event>)
    requires Runs(Fresh(size), events)
    ensures var s := After(Fresh(size), events);
            && s.size == size && s.count == |s.live|
            && (forall i, j :: 0 <= i < |s.live| && 0 <= j < |s.live| && i != j ==>
                  s.live[i].start + s.live[i].size <= s.live[j].start
                  || s.live[j].start + s.live[j].size <= s.live[i].start)
            && (forall i :: 0 <= i < |s.live| ==> s.live[i].start + s.live[i].size < size)
            && s.cursor == Sum(s.handed) && (s.live == [] ==> s.cursor == 0)
            && (forall n: nat :: Refuses(s, n) <==> Sum(s.handed) + n >= size)
            && s.handed == HandedOut(size, [], 0, events)
  {
    RunKeeps(Fresh(size), events);
    RunHandsOut(Fresh(size), events);
    var s := After(Fresh(size), events);
    forall i, j | 0 <= i < |s.live| && 0 <= j < |s.live| && i != j
      ensures s.live[i].start + s.live[i].size <= s.live[j].start
              || s.live[j].start + s.live[j].size <= s.live[i].start
    {
      assert i < j ==> s.live[i].start + s.live[i].size <= s.live[j].start;
      assert j < i ==> s.live[j].start + s.live[j].size <= s.live[i].start;
    }
  }

  // ---------------------------------------------------------------- the class

  class Arena {
    const size: nat
    var count: nat
    var cursor: nat
    ghost var live: seq<Block>
    ghost var handed: seq<nat>

    ghost function View(): Pool
      reads this
    {
      Pool(size, cursor, count, live, handed)
    }

    ghost predicate Valid()
      reads this
    {
      Inv(View())
    }

    /** `construct` */
    constructor (size: nat)
      ensures Valid() && View() == Fresh(size)
    {
      this.size, count, cursor := size, 0, 0;
      live, handed := [], [];
    }

    /** `alloc`; None is `std::bad_alloc`. */
    method Allocate(n: nat) returns (p: Option<nat>)
      requires Valid()
      modifies this
      ensures Valid() && View() == Alloc(old(View()), n)
      ensures p == if Refuses(old(View()), n) then None else Some(old(cursor))
      ensures p.Some? ==> live == old(live) + [Block(p.value, n)]
    {
      StepKeeps(View(), Event.Allocate(n));
      var last := cursor + n;
      if last >= size {
        return None;
      }
      count := count + 1;
      p := Some(cursor);
      live, handed := live + [Block(cursor, n)], handed + [n];
      cursor := last;
    }

    /** `dealloc` of the live block `i`, which only the caller can name. */
    method Deallocate(ghost i: nat)
      requires Valid() && i < |live|
      modifies this
      ensures Valid() && View() == Dealloc(old(View()), i)
      ensures live == old(live)[..i] + old(live)[i + 1..]
      ensures cursor == if live == [] then 0 else old(cursor)
    {
      StepKeeps(View(), Event.Deallocate(i));
      count := count - 1;
      live := live[..i] + live[i + 1..];
      if count > 0 {
        return;
      }
      cursor := 0;
      handed := [];
    }
  }
}
