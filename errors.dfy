/** Failures raised by the object layer, and the result wrappers that carry them.
    Each constructor of Error stands for one exception the Python code raises. */
module Errors {

  datatype Error =
    | InvalidKey          // tree.validate_key refuses the key
    | MissingKey          // KeyError: the path is not in the property tree
    | NotATree            // tree.set meets a non-mapping value where a sub-tree is needed
    | ReservedKey         // ValueError: the property '_id' cannot be modified
    | UnknownIdentifier   // ValueError: the store does not know the identifier
    | InvalidIdentifier   // a string identifier that does not decode to an ObjectId
    | UncommittedObject   // errors.UncommittedObject
    | PatchOnIdentifier   // AssertionError: a commit patch names '_id'

  datatype Option<+T> = None | Some(value: T)

  datatype Result<+T> = Ok(value: T) | Err(error: Error)
}
