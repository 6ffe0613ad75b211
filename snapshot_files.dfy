/**
 * The backing file of a store, as the object streams see it. Serialization
 * itself is not modelled: a file either does not exist, holds one serialized
 * list, holds only an object-stream header (what a stream opened and closed
 * without writing leaves behind), or holds anything else that does not read
 * back as a list.
 */
module SnapshotFiles {
  import opened Wrappers

  datatype FileState<T> =
    | Missing
    | Snapshot(contents: seq<T>)
    | HeaderOnly
    | Unreadable

  /** Reading the file back: "Error during deserialization." unless it holds a list. */
  datatype LoadError = DeserializationFailed

  /** What the stores' constructors read: an absent file is an empty list. */
  function Load<T>(f: FileState<T>): (r: Result<seq<T>, LoadError>)
    ensures r.Success? <==> f.Missing? || f.Snapshot?
    ensures f.Snapshot? ==> r == Success(f.contents)
    ensures f.Missing? ==> r == Success([])
  {
    match f
    case Missing => Success([])
    case Snapshot(contents) => Success(contents)
    case HeaderOnly => Failure(DeserializationFailed)
    case Unreadable => Failure(DeserializationFailed)
  }
}
