/**
 * The download-type decision of TemporaryRecordTable: loop-free branching
 * over the record's flags and the answers of its on-disk queries, where a
 * query that throws IOException is mapped to a fixed, conservative answer.
 */
module Classifier {
  import opened Results
  import opened DownloadTypes
  import opened Records

  /**
   * The answers a record's on-disk queries give at the moment of the
   * decision: `tempFile().exists()`, `tempFileDamaged()` and
   * `fileNotComplete()` (the last two may throw IOException), and
   * `fileComplete()`.
   */
  datatype DiskProbes = DiskProbes(
    tempFileExists: bool,
    tempFileDamaged: Result<bool>,
    fileNotComplete: Result<bool>,
    fileComplete: bool)
  {
    /** The temp file is there and was read and found undamaged. */
    predicate TempFileVerified() {
      tempFileExists && tempFileDamaged == Ok(false)
    }
  }

  /** tempFileDamaged: a query that throws counts as damage. */
  function TempFileDamaged(probe: Result<bool>): (damaged: bool)
    ensures !damaged <==> probe == Ok(false)
  {
    match probe
    case Ok(b) => b
    case IOError => true
  }

  /** needReDownload: the temp file is missing or cannot be trusted. */
  function NeedReDownload(d: DiskProbes): (need: bool)
    ensures need <==> !d.TempFileVerified()
  {
    !d.tempFileExists || TempFileDamaged(d.tempFileDamaged)
  }

  /** getNormalType: a fresh download, segmented exactly when ranges work. */
  function GetNormalType(s: RecordState): (t: DownloadType)
    ensures t.IsFresh()
    ensures t.UsesRanges() <==> s.rangeSupport
  {
    if s.rangeSupport then MultiThread else Normal
  }

  /**
   * supportRangeType: never a single stream; resume or finish only on a
   * verified temp file whose completeness query succeeded.
   */
  function SupportRangeType(d: DiskProbes): (t: DownloadType)
    ensures t != Normal
    ensures t == Continue <==> d.TempFileVerified() && d.fileNotComplete == Ok(true)
    ensures t == Finished <==> d.TempFileVerified() && d.fileNotComplete == Ok(false)
  {
    if NeedReDownload(d) then MultiThread
    else match d.fileNotComplete
      case IOError => MultiThread
      case Ok(notComplete) => if notComplete then Continue else Finished
  }

  /** notSupportRangeType: a single stream unless the file is complete. */
  function NotSupportRangeType(d: DiskProbes): (t: DownloadType)
    ensures t == Normal || t == Finished
    ensures t == Finished <==> d.fileComplete
  {
    if !d.fileComplete then Normal else Finished
  }

  /** getServerFileChangeType: the decision once the server says "unchanged". */
  function GetServerFileChangeType(s: RecordState, d: DiskProbes): (t: DownloadType)
    ensures t.UsesRanges() ==> s.rangeSupport
    ensures t == Normal ==> !s.rangeSupport
    ensures t == Continue <==> s.rangeSupport && d.TempFileVerified() && d.fileNotComplete == Ok(true)
  {
    if s.rangeSupport then SupportRangeType(d) else NotSupportRangeType(d)
  }

  /** generateNonExistsType: no output file yet, so a fresh download. */
  function GenerateNonExistsType(s: RecordState): (t: DownloadType)
    ensures t == MultiThread <==> s.rangeSupport
    ensures t == Normal <==> !s.rangeSupport
  {
    GetNormalType(s)
  }

  /**
   * generateFileExistsType, characterised outcome by outcome: each of the
   * four is returned exactly under the conditions stated here.
   */
  function GenerateFileExistsType(s: RecordState, d: DiskProbes): (t: DownloadType)
    ensures t == Continue <==>
      !s.fileChanged && s.rangeSupport && d.TempFileVerified() && d.fileNotComplete == Ok(true)
    ensures t == Finished <==>
      !s.fileChanged &&
      (if s.rangeSupport then d.TempFileVerified() && d.fileNotComplete == Ok(false)
       else d.fileComplete)
    ensures t == MultiThread <==>
      s.rangeSupport && (s.fileChanged || !d.TempFileVerified() || d.fileNotComplete.IOError?)
    ensures t == Normal <==> !s.rangeSupport && (s.fileChanged || !d.fileComplete)
  {
    if s.fileChanged then GetNormalType(s) else GetServerFileChangeType(s, d)
  }

  /** A changed file is handled as if there were no output file at all. */
  lemma ChangedFileIsTreatedAsAbsent(s: RecordState, d: DiskProbes)
    requires s.fileChanged
    ensures GenerateFileExistsType(s, d) == GenerateNonExistsType(s)
  {
  }

  /**
   * The two safety rules of the decision: ranged requests only go to a
   * server that supports them, and earlier bytes are reused only when the
   * server reported the file unchanged.
   */
  lemma DecisionIsSafe(s: RecordState, d: DiskProbes)
    ensures GenerateNonExistsType(s).IsFresh()
    ensures GenerateFileExistsType(s, d).UsesRanges() ==> s.rangeSupport
    ensures GenerateFileExistsType(s, d).TrustsPriorBytes() ==> !s.fileChanged
  {
  }

  /**
   * An IOException from either temp-file query, whenever range is
   * supported, yields a fresh segmented download.
   */
  lemma ProbeErrorRestartsSegmented(s: RecordState, d: DiskProbes)
    requires s.rangeSupport
    requires d.tempFileDamaged.IOError? || d.fileNotComplete.IOError?
    ensures GenerateFileExistsType(s, d) == MultiThread
  {
  }

  /**
   * A query that throws never makes the decision less conservative:
   * replacing either temp-file answer by IOException keeps a fresh outcome
   * fresh, and turns a resume or finish into a fresh segmented download.
   */
  lemma ErrorsAreConservative(s: RecordState, d: DiskProbes, damagedFails: bool)
    ensures var e := if damagedFails then d.(tempFileDamaged := IOError)
                     else d.(fileNotComplete := IOError);
      && (GenerateFileExistsType(s, d).IsFresh() ==> GenerateFileExistsType(s, e).IsFresh())
      && (GenerateFileExistsType(s, d).TrustsPriorBytes() && s.rangeSupport ==>
            GenerateFileExistsType(s, e) == MultiThread)
  {
  }

  /**
   * The decision reads only what the source queries: nothing on disk when
   * the file changed, not the completeness of the temp file when it is
   * missing or untrusted, not `fileComplete` when range is supported, and
   * only `fileComplete` when it is not.
   */
  lemma DependsOnlyOnQueriedFacts(s: RecordState, d: DiskProbes, e: DiskProbes)
    ensures s.fileChanged ==> GenerateFileExistsType(s, d) == GenerateFileExistsType(s, e)
    ensures s.rangeSupport && !d.tempFileExists && !e.tempFileExists ==>
      GenerateFileExistsType(s, d) == GenerateFileExistsType(s, e)
    ensures (&& s.rangeSupport && !d.TempFileVerified()
             && d.tempFileExists == e.tempFileExists
             && d.tempFileDamaged == e.tempFileDamaged) ==>
      GenerateFileExistsType(s, d) == GenerateFileExistsType(s, e)
    ensures (&& s.rangeSupport
             && d.tempFileExists == e.tempFileExists
             && d.tempFileDamaged == e.tempFileDamaged
             && d.fileNotComplete == e.fileNotComplete) ==>
      GenerateFileExistsType(s, d) == GenerateFileExistsType(s, e)
    ensures !s.rangeSupport && d.fileComplete == e.fileComplete ==>
      GenerateFileExistsType(s, d) == GenerateFileExistsType(s, e)
  {
  }

  /** Every outcome can come out of generateFileExistsType: no branch is dead. */
  lemma EveryTypeIsReachable(t: DownloadType)
    ensures exists s: RecordState, d: DiskProbes :: GenerateFileExistsType(s, d) == t
  {
    var s := RecordState("", 0, "", true, false);
    var d := DiskProbes(true, Ok(false), Ok(true), false);
    match t
    case MultiThread =>
      assert GenerateFileExistsType(s.(fileChanged := true), d) == t;
    case Normal =>
      assert GenerateFileExistsType(s.(rangeSupport := false), d) == t;
    case Continue =>
      assert GenerateFileExistsType(s, d) == t;
    case Finished =>
      assert GenerateFileExistsType(s, d.(fileNotComplete := Ok(false))) == t;
  }

  /**
   * With the status the server sends to a conditional request: 304 on a
   * verified, unfinished temp file resumes; 200 always restarts.
   */
  lemma StatusThenDecision(s: RecordState, d: DiskProbes)
    ensures s.rangeSupport && d.TempFileVerified() && d.fileNotComplete == Ok(true) ==>
      GenerateFileExistsType(WithFileState(s, NOT_MODIFIED), d) == Continue
    ensures GenerateFileExistsType(WithFileState(s, OK), d).IsFresh()
  {
  }
}
