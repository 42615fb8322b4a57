/** Outcomes of the generator's stages: every stage either yields a value or
    aborts the whole run with one of the errors the script throws. */
module Results {

  datatype Option<+T> = None | Some(value: T)

  /** One constructor per `throw Exception(...)` of the script that this model keeps. */
  datatype Error =
    | SourceNotFound        // "The specified file does not exist."
    | NoSourceRoot          // "file path should contain src/main/java(or kotlin)"
    | NoSrcSegment          // "file path should contain /src"
    | NoGradleFile          // "Cannot determine gradle file of the provided module"
    | MissingDependencies   // "Required dependencies for unit testing are not added."
    | NoFunctionFound       // "No function found to generate unit tests"
    | CannotCreateTestFile  // "Cannot create test file"

  datatype Result<+T> = Ok(value: T) | Err(error: Error)
}
