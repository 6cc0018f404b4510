/** Failure values shared by the whole model.  Every exception the Python
    engine raises, and every `None` it hands back, is a value of these types. */
module Outcomes {

  datatype Option<+T> = None | Some(value: T)

  /** The distinct error conditions of the engine, one per exception site. */
  datatype Error =
    | InnerSpace           // state name with an inner space (ValueError)
    | WrongArgCount        // an event wrapper called with the wrong number of names (TypeError)
    | NoClosingBrace       // "Could not find end of current state"
    | UnknownState         // the registry has no entry for the state label (KeyError, or ValueError from list.index)
    | NoneDocument         // a string method called on a document that is None (AttributeError)
    | StateNotFound        // "Unable to find state"
    | EventNotFound        // "Unable to find event ... in state"
    | SentinelNotFound     // "Unable to find start of event ... in state"
    | BadType              // a function parameter whose type is not one of the seven LSL types
    | BadArity             // a function parameter that is not exactly "<type> <name>"
    | FunctionNotFound     // "Unable to find function"
    | FunctionEndNotFound  // "Unable to find end of function"
    | BadUuid              // "UUID value is not formatted correctly"

  datatype Result<+T> = Ok(value: T) | Err(error: Error)
}
