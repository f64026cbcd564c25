// Failure-compatible wrappers shared by the modules of this project.
module Wrappers {
  datatype Option<+T> = None | Some(value: T)

  datatype Result<+T, +E> = Ok(value: T) | Err(error: E) {
    predicate IsFailure() {
      Err?
    }

    function PropagateFailure<U>(): Result<U, E>
      requires Err?
    {
      Err(error)
    }

    function Extract(): T
      requires Ok?
    {
      value
    }
  }
}

// The content a tenant's routing overlay publishes. A revision is a digest of
// that content, so a revision is identified with the content it names.
module Overlays {
  import StableIds

  type StableId = string

  // own: the tenant's own candidates. attached: the candidates contributed by
  // models of other namespaces. rest: everything else the digest covers, such
  // as weights, credentials and paths.
  datatype Content = Content(own: set<StableIds.Source>, attached: set<StableId>, rest: string)

  type Revision = Content
}
