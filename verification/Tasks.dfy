/** The scheduled price task: common/include/price_stream/tasks.hpp.  Enumerations are their
    `size_t` values; prices and percentages are reals.
 */
module Tasks {
  import opened Options

  datatype Percent = Percent(percentage: real, direction: nat)

  datatype Interval = Interval(timeMS: nat, duration: nat)

  datatype Task = Task(
    taskId: string,
    userId: string,
    tokens: seq<string>,
    tradeType: nat,
    exchange: nat,
    percentProp: Option<Percent>,
    timeProp: Option<Interval>,
    status: nat,
    processAssignedId: nat)

  // `trade_type_e::total` and `exchange_e::total`
  const TRADE_TYPE_TOTAL := 3
  const EXCHANGE_TOTAL := 3
}
