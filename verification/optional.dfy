/** An optional value: the model of `std::optional`. */
module Optional {

  datatype Option<+T> = None | Some(value: T)
}
