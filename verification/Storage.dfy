/** How an attempt to write a file can end. */
module Storage {

  /** A failed write keeps the old file or leaves one that cannot be read. */
  datatype WriteResult = Written | Failed(truncated: bool)
}
