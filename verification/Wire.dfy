/** The D-Bus forms of a task: common/src/price_stream/adaptor/scheduled_task_adaptor.cpp.
    Enumerations are `size_t` in a task and `int32_t` on the wire.
 */
module Wire {
  import opened Options
  import opened Tasks

  datatype ProgressWire = ProgressWire(
    processAssignedId: nat, percentage: real, direction: int, tradeType: int, exchange: int, status: int,
    taskId: string, userId: string, tokens: seq<string>)

  datatype TimeWire = TimeWire(
    processAssignedId: nat, timeMS: nat, duration: int, tradeType: int, exchange: int, status: int,
    taskId: string, userId: string, tokens: seq<string>)

  // `(int32_t)x` for a `size_t`
  function ToInt32(x: nat): int {
    var low := x % 0x1_0000_0000;
    if low < 0x8000_0000 then low else low - 0x1_0000_0000
  }

  // The cast of an `int32_t` back to an enumeration over `size_t`
  function FromInt32(i: int): (x: nat)
    requires -0x8000_0000 <= i < 0x8000_0000
  {
    if i >= 0 then i else i + 0x1_0000_0000_0000_0000
  }

  predicate Int32(i: int) {
    -0x8000_0000 <= i < 0x8000_0000
  }

  function ToProgress(t: Task): ProgressWire
    requires t.percentProp.Some?
  {
    var p := t.percentProp.value;
    ProgressWire(t.processAssignedId, p.percentage, ToInt32(p.direction), ToInt32(t.tradeType),
                 ToInt32(t.exchange), ToInt32(t.status), t.taskId, t.userId, t.tokens)
  }

  function FromProgress(w: ProgressWire): Task
    requires Int32(w.direction) && Int32(w.tradeType) && Int32(w.exchange) && Int32(w.status)
  {
    Task(w.taskId, w.userId, w.tokens, FromInt32(w.tradeType), FromInt32(w.exchange),
         Some(Percent(w.percentage, FromInt32(w.direction))), None, FromInt32(w.status), w.processAssignedId)
  }

  function ToTime(t: Task): TimeWire
    requires t.timeProp.Some?
  {
    var p := t.timeProp.value;
    TimeWire(t.processAssignedId, p.timeMS, ToInt32(p.duration), ToInt32(t.tradeType),
             ToInt32(t.exchange), ToInt32(t.status), t.taskId, t.userId, t.tokens)
  }

  function FromTime(w: TimeWire): Task
    requires Int32(w.duration) && Int32(w.tradeType) && Int32(w.exchange) && Int32(w.status)
  {
    Task(w.taskId, w.userId, w.tokens, FromInt32(w.tradeType), FromInt32(w.exchange),
         None, Some(Interval(w.timeMS, FromInt32(w.duration))), FromInt32(w.status), w.processAssignedId)
  }

  lemma CastRoundTrip(x: nat)
    ensures Int32(ToInt32(x))
    ensures FromInt32(ToInt32(x)) == x <==> x < 0x8000_0000 || 0xFFFF_FFFF_8000_0000 <= x < 0x1_0000_0000_0000_0000
  {
  }

  predicate SmallEnums(t: Task) {
    && t.tradeType < 0x8000_0000 && t.exchange < 0x8000_0000 && t.status < 0x8000_0000
    && (t.percentProp.Some? ==> t.percentProp.value.direction < 0x8000_0000)
    && (t.timeProp.Some? ==> t.timeProp.value.duration < 0x8000_0000)
  }

  // The enumerations of the source have at most six values each (common/include/enumerations.hpp:10-65).
  lemma EnumsAreSmall(t: Task)
    requires t.tradeType < 6 && t.exchange < 6 && t.status < 6
    requires (t.percentProp.Some? ==> t.percentProp.value.direction < 6) && (t.timeProp.Some? ==> t.timeProp.value.duration < 6)
    ensures SmallEnums(t)
  {
  }

  /** A task survives the wire, except for the property the service does not use; its three ids
      survive whatever the enumerations hold. */
  lemma WireRoundTrip(t: Task)
    ensures t.percentProp.Some? ==>
      var r := FromProgress(ToProgress(t));
      && r.userId == t.userId && r.taskId == t.taskId && r.processAssignedId == t.processAssignedId
      && (SmallEnums(t) ==> r == t.(timeProp := None))
    ensures t.timeProp.Some? ==>
      var r := FromTime(ToTime(t));
      && r.userId == t.userId && r.taskId == t.taskId && r.processAssignedId == t.processAssignedId
      && (SmallEnums(t) ==> r == t.(percentProp := None))
  {
  }
}
