/** One download's record, as TemporaryRecordTable reads and updates it. */
module Records {

  /** The fields of a TemporaryRecord that the table sets, as a value. */
  datatype RecordState = RecordState(
    saveName: string,
    contentLength: int,
    lastModify: string,
    rangeSupport: bool,
    fileChanged: bool)

  /**
   * A server response as the table sees it: the status code, and what the
   * DownloadUtils header helpers `fileName`, `contentLength`, `lastModify`
   * and `notSupportRange` answer for it (for the url it was fetched for).
   */
  datatype Response = Response(
    code: int,
    fileName: string,
    contentLength: int,
    lastModify: string,
    notSupportRange: bool)

  /** HTTP status codes the table tests (RFC 7231 section 6.3.1, RFC 7232 section 4.1). */
  const OK: int := 200
  const NOT_MODIFIED: int := 304

  /** A TemporaryRecord; the table changes its fields in place. */
  class TemporaryRecord {
    var saveName: string
    var contentLength: int
    var lastModify: string
    var rangeSupport: bool
    var fileChanged: bool

    /** A record holding the given state, as its creator builds it. */
    constructor (s: RecordState)
      ensures State() == s
    {
      saveName := s.saveName;
      contentLength := s.contentLength;
      lastModify := s.lastModify;
      rangeSupport := s.rangeSupport;
      fileChanged := s.fileChanged;
    }

    function State(): RecordState
      reads this
    {
      RecordState(saveName, contentLength, lastModify, rangeSupport, fileChanged)
    }
  }

  /**
   * What saveFileInfo leaves in a record: a save name only if it had none,
   * and always the response's length and last-modify value.
   */
  function WithFileInfo(s: RecordState, resp: Response): (r: RecordState)
    ensures s.saveName != "" ==> r.saveName == s.saveName
    ensures s.saveName == "" ==> r.saveName == resp.fileName
    ensures r.contentLength == resp.contentLength && r.lastModify == resp.lastModify
    ensures r.rangeSupport == s.rangeSupport && r.fileChanged == s.fileChanged
  {
    var name := if s.saveName == "" then resp.fileName else s.saveName;
    s.(saveName := name, contentLength := resp.contentLength, lastModify := resp.lastModify)
  }

  /** What saveRangeInfo leaves in a record: only the range flag changes. */
  function WithRangeInfo(s: RecordState, resp: Response): (r: RecordState)
    ensures r.rangeSupport <==> !resp.notSupportRange
    ensures r.(rangeSupport := s.rangeSupport) == s
  {
    s.(rangeSupport := !resp.notSupportRange)
  }

  /**
   * What saveFileState leaves in a record: 304 Not Modified means unchanged,
   * 200 OK means changed, and any other status leaves the record as it was.
   */
  function WithFileState(s: RecordState, code: int): (r: RecordState)
    ensures code == NOT_MODIFIED ==> !r.fileChanged
    ensures code == OK ==> r.fileChanged
    ensures code != NOT_MODIFIED && code != OK ==> r == s
    ensures r.(fileChanged := s.fileChanged) == s
  {
    if code == NOT_MODIFIED then s.(fileChanged := false)
    else if code == OK then s.(fileChanged := true)
    else s
  }

  /** Once a record has a save name, no update of the table replaces it. */
  lemma SaveNameIsStable(s: RecordState, resp: Response, code: int)
    requires s.saveName != ""
    ensures WithFileInfo(s, resp).saveName == s.saveName
    ensures WithRangeInfo(s, resp).saveName == s.saveName
    ensures WithFileState(s, code).saveName == s.saveName
  {
  }

  /**
   * Two saveFileInfo calls: the first non-empty name sticks, while the
   * length and last-modify value of the later response win.
   */
  lemma FileInfoTwice(s: RecordState, first: Response, second: Response)
    ensures var r := WithFileInfo(WithFileInfo(s, first), second);
      && r.saveName == (if s.saveName != "" then s.saveName
                        else if first.fileName != "" then first.fileName
                        else second.fileName)
      && r.contentLength == second.contentLength
      && r.lastModify == second.lastModify
  {
  }

  /** Repeating saveFileInfo with the same response changes nothing more. */
  lemma FileInfoIdempotent(s: RecordState, resp: Response)
    ensures WithFileInfo(WithFileInfo(s, resp), resp) == WithFileInfo(s, resp)
  {
  }

  /** The three updates touch disjoint fields, so their order does not matter. */
  lemma UpdatesCommute(s: RecordState, info: Response, range: Response, code: int)
    ensures WithFileState(WithFileInfo(s, info), code) == WithFileInfo(WithFileState(s, code), info)
    ensures WithRangeInfo(WithFileInfo(s, info), range) == WithFileInfo(WithRangeInfo(s, range), info)
    ensures WithFileState(WithRangeInfo(s, range), code) == WithRangeInfo(WithFileState(s, code), range)
  {
  }

  /** Of several status responses, the last 200 or 304 decides the flag. */
  lemma LastDecisiveStatusWins(s: RecordState, earlier: int, later: int)
    requires later == OK || later == NOT_MODIFIED
    ensures WithFileState(WithFileState(s, earlier), later) == WithFileState(s, later)
  {
  }
}
