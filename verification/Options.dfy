/** An optional value, where the C++ has a null pointer, an end iterator or an empty function object. */
module Options {

  datatype Option<T> = None | Some(value: T)
}
