/** An optional value: the model's stand-in for Java's "-1" / null / "not found" results. */
module Options {

  datatype Option<+T> = None | Some(value: T)
}
