/** What several of the components use: an optional value, and the bytes of a stream that came in chunks. */
module Basics {

  datatype Option<T> = None | Some(value: T)

  function Flatten(chunks: seq<string>): string {
    if chunks == [] then "" else chunks[0] + Flatten(chunks[1..])
  }
}
