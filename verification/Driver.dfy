/** What a driver.Rows delivers: a stream of events. */
module Driver {
  import opened Decoder
  import opened IterSpec

  /** A row; driver.EOQ, the end of one query's rows; or any other error, io.EOF for the end.
      The metadata is what Offset, TotalRows, UpdateSeq, Warning and Bookmark report when they
      are asked, at EOQ and io.EOF.  Crash is a panic, of Next or of one of these. */
  datatype Event = RowEvent(row: Row) | EndOfQuery(meta: Metadata) | End(error: Error, meta: Metadata) | Crash
}
