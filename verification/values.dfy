/**
 * The decoded XML document that every response becomes. The decoder and its
 * dot-path lookup belong to the mxj library, which is not part of this model:
 * a document is the map from each dot path the core looks up to the value
 * found there.
 */
module Values {
  import opened Wrappers
  import opened Errors

  /** A Go `interface{}` as the XML decoder produces it. */
  datatype Value =
    | Nil                              // the nil interface, also what a missing map key gives
    | Str(text: string)                // the text of a leaf element
    | Node(fields: map<string, Value>) // map[string]interface{}: an element with children
    | List(items: seq<Value>)          // []interface{}: a repeated element

  /** A decoded document: the value at each dot path that is present. */
  type Document = map<string, Value>

  /** mxj's ValueForPath: the value at path, or an error when the path is absent. */
  function ValueForPath(doc: Document, path: string): Result<Value, Error> {
    if path in doc then Success(doc[path]) else Failure(PathNotFound(path))
  }

  /** mxj's ValueForPathString with its error discarded: the text at path, or "" when there is none. */
  function ValueForPathString(doc: Document, path: string): string {
    if path in doc && doc[path].Str? then doc[path].text else ""
  }

  /** Indexing a Go map[string]interface{}: a missing key gives the nil interface. */
  function Field(fields: map<string, Value>, key: string): Value {
    if key in fields then fields[key] else Nil
  }
}
