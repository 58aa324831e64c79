/** Failure values shared by all modules: each Python exception that can end one
    of the modelled operations becomes one Error constructor. */
module Wrappers {

  datatype Option<+T> = None | Some(value: T)

  datatype Error =
    | FileNotFound(path: string)          // open() of a path that does not exist
    | EmptyFile(path: string)             // lines[-1] on a file without lines
    | AbnormalTermination(path: string)   // readOutput's 'Normal termination' assertion
    | MissingToken(marker: string)        // line.split()[k] past the last token
    | Unreadable(field: string)           // a digit-string assertion, or float() on a bad token
    | Unbound(variable: string)           // a local read before any line assigned it
    | NoCandidates                        // generateGaussianOpt selected nothing

  datatype Result<+T> = Success(value: T) | Failure(error: Error)
}
