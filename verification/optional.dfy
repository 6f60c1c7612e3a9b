/** An optional value, standing for the source's `undefined` arguments, its
    `null` results and the frames the model reports as poisoned. */
module Optional {

  datatype Option<+T> = None | Some(value: T)
}
