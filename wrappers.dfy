/** Small optional-value datatype used for controls that a device may not provide. */
module Wrappers {

  /** `None` stands for an absent control (a null control pointer); `Some(v)` for a present one. */
  datatype Option<+T> = None | Some(value: T)
}
