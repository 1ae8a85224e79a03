/** External text files as one read of them sees them. */
module Files {

  /** What one pass over a file delivers: either the file cannot be opened,
      or it yields `items` one by one, after which the next read either
      reports the end of the file or throws (`readFails`). Closing the file
      may throw as well (`closeFails`). */
  datatype Source<T> =
    | Unreadable
    | Readable(items: seq<T>, readFails: bool, closeFails: bool)

  /** A file that opens, reads to its end and closes without an I/O error. */
  function Clean<T>(items: seq<T>): Source<T>
  {
    Readable(items, false, false)
  }
}
