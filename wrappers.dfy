/** Nullable results: the C code returns NULL (or -1) where this model returns None. */
module Wrappers {

  datatype Option<+T> = None | Some(value: T)

  /** An opaque reference to a callback the registries store but never inspect
      (a component constructor or destructor, a system handler, a state function). */
  datatype Handle = Handle(id: nat)
}
