/** Types shared by the other modules. */
module Wrappers {
  datatype Option<+T> = None | Some(value: T)

  /** A camera image. Its pixels are never looked at here, so a number stands for them. */
  datatype Frame = Frame(pixels: int)

  datatype Stamped = Stamped(time: int, frame: Frame)

  lemma Member<T>(xs: set<T>) returns (x: T)
    requires xs != {}
    ensures x in xs
  {
    x :| x in xs;
  }
}
