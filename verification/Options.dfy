/** An optional value, `std::optional` of the source. */
module Options {
  datatype Option<+T> = None | Some(value: T)
}
