/** The optional value that the extension's functions return where the
    TypeScript code returns `null`, `undefined` or a cancelled prompt. */
module Wrappers {
  datatype Option<+T> = None | Some(value: T)
}
