/** The absence of a value where the Java code yields `null`, `NaN` or throws. */
module Options {

  datatype Option<+T> = None | Some(value: T)

  /** The state of a loop that scans a list for its best entry: the index of
      the entry chosen so far, if any, and the best value seen. */
  datatype Best = Best(at: Option<nat>, most: int)
}
