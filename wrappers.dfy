/** The optional value used wherever the site's TypeScript returns `T | undefined` or `T | null`. */
module Wrappers {

  datatype Option<+T> = None | Some(value: T)

}
