/** An optional value, shared by the modules of the model. */
module Wrappers {

  /** A value that may be absent: a DOM reference that is not mounted, a
      frame handle that has been released, a search that found nothing. */
  datatype Option<T> = None | Some(value: T)
}
