/** The `os.path` functions the tools call, left uninterpreted: the model
    only relies on their results being passed along. */
module Paths {
  datatype PathOps = PathOps(
    abspath: string -> string,
    basename: string -> string,
    dirname: string -> string,
    join: (string, string) -> string)
}
