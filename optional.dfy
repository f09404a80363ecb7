/** An optional value: the model of a null record pointer and of an empty sol::optional. */
module Optional {

  datatype Option<+T> = None | Some(value: T)
}
