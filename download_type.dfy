/** The four download strategies a TemporaryRecordTable can pick. */
module DownloadTypes {

  datatype DownloadType =
    | MultiThread   // fresh download split into ranged segments
    | Normal        // fresh download over one stream
    | Continue      // resume the segments left unfinished last time
    | Finished      // nothing to fetch: the earlier download is complete
  {
    /** Starts from byte zero, ignoring whatever is on disk. */
    predicate IsFresh() { MultiThread? || Normal? }

    /** Sends `Range` requests, so needs a server that honours them. */
    predicate UsesRanges() { MultiThread? || Continue? }

    /** Relies on bytes written by an earlier attempt. */
    predicate TrustsPriorBytes() { Continue? || Finished? }
  }
}
