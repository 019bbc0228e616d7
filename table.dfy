/**
 * TemporaryRecordTable: the registry from a download's url to its
 * TemporaryRecord, with the updates that record what the server reported
 * and the queries that pick a download type.
 */
module TemporaryRecordTables {
  import opened Results
  import opened DownloadTypes
  import opened Records
  import Classifier

  class TemporaryRecordTable {
    var records: map<string, TemporaryRecord?>

    constructor ()
      ensures records == map[]
    {
      records := map[];
    }

    /**
     * The map holds a record for url; like `map.get(url) != null`, a key
     * mapped to null does not count. The queries and updates dereference
     * that record with no null check.
     */
    predicate HasRecord(url: string)
      reads this
    {
      url in records && records[url] != null
    }

    /** add: map.put, overwriting any record already stored under url. */
    method Add(url: string, record: TemporaryRecord?)
      modifies this
      ensures records == old(records)[url := record]
      ensures HasRecord(url) <==> record != null
      ensures forall u :: u != url ==> HasRecord(u) == old(HasRecord(u))
      ensures forall u :: u != url && u in old(records) ==> records[u] == old(records)[u]
    {
      records := records[url := record];
    }

    /** contain: whether a record is stored under url. */
    method Contain(url: string) returns (found: bool)
      ensures found == HasRecord(url)
    {
      found := url in records && records[url] != null;
    }

    /** delete: map.remove; a url that was never added is no error. */
    method Delete(url: string)
      modifies this
      ensures records == old(records) - {url}
      ensures !HasRecord(url)
      ensures forall u :: u != url ==> HasRecord(u) == old(HasRecord(u))
      ensures forall u :: u != url && u in old(records) ==> records[u] == old(records)[u]
    {
      records := records - {url};
    }

    /**
     * saveFileInfo: set the save name if the record has none, and always
     * the content length and last-modify value. Records of other urls are
     * untouched, unless they are the very same object.
     */
    method SaveFileInfo(url: string, response: Response)
      requires HasRecord(url)
      modifies records[url]
      ensures records == old(records)
      ensures records[url].State() == WithFileInfo(old(records[url].State()), response)
      ensures forall u :: HasRecord(u) && records[u] != records[url] ==>
        records[u].State() == old(records[u].State())
    {
      var record := records[url];
      if record.saveName == "" {
        record.saveName := response.fileName;
      }
      record.contentLength := response.contentLength;
      record.lastModify := response.lastModify;
    }

    /** saveRangeInfo: the range flag is the negation of notSupportRange. */
    method SaveRangeInfo(url: string, response: Response)
      requires HasRecord(url)
      modifies records[url]
      ensures records == old(records)
      ensures records[url].State() == WithRangeInfo(old(records[url].State()), response)
      ensures forall u :: HasRecord(u) && records[u] != records[url] ==>
        records[u].State() == old(records[u].State())
    {
      records[url].rangeSupport := !response.notSupportRange;
    }

    /**
     * saveFileState: 304 means unchanged, 200 changed, anything else nothing.
     * The record is looked up only for 304 and 200, so any other status is a
     * no-op even for a url that has no record.
     */
    method SaveFileState(url: string, response: Response)
      requires response.code == NOT_MODIFIED || response.code == OK ==> HasRecord(url)
      modifies if HasRecord(url) then {records[url]} else {}
      ensures records == old(records)
      ensures HasRecord(url) ==>
        records[url].State() == WithFileState(old(records[url].State()), response.code)
      ensures forall u :: HasRecord(u) && (!HasRecord(url) || records[u] != records[url]) ==>
        records[u].State() == old(records[u].State())
    {
      if response.code == NOT_MODIFIED {
        records[url].fileChanged := false;
      } else if response.code == OK {
        records[url].fileChanged := true;
      }
    }

    /**
     * readLastModify: the validator stored on disk for url, or "" when
     * reading it throws; the empty validator makes the server answer 200,
     * so a failed read ends as "file changed".
     */
    function ReadLastModify(url: string, stored: Result<string>): (lastModify: string)
      reads this
      requires HasRecord(url)
      ensures stored.Ok? ==> lastModify == stored.value
      ensures stored.IOError? ==> lastModify == ""
    {
      stored.GetOr("")
    }

    /** generateNonExistsType for the record stored under url. */
    function GenerateNonExistsType(url: string): (t: DownloadType)
      reads this, records[url]
      requires HasRecord(url)
      ensures t == MultiThread <==> records[url].rangeSupport
      ensures t == Normal <==> !records[url].rangeSupport
    {
      Classifier.GenerateNonExistsType(records[url].State())
    }

    /**
     * generateFileExistsType for the record stored under url, given the
     * answers of that record's on-disk queries.
     */
    function GenerateFileExistsType(url: string, disk: Classifier.DiskProbes): (t: DownloadType)
      reads this, records[url]
      requires HasRecord(url)
      ensures t.UsesRanges() ==> records[url].rangeSupport
      ensures t.TrustsPriorBytes() ==> !records[url].fileChanged
      ensures records[url].fileChanged ==> t == GenerateNonExistsType(url)
      ensures t == Continue <==>
        && !records[url].fileChanged && records[url].rangeSupport
        && disk.TempFileVerified() && disk.fileNotComplete == Ok(true)
    {
      Classifier.GenerateFileExistsType(records[url].State(), disk)
    }

    /** add then delete: a url the table did not know leaves it as it was. */
    method AddThenDelete(url: string, record: TemporaryRecord?)
      modifies this
      ensures !HasRecord(url)
      ensures url !in old(records) ==> records == old(records)
      ensures url in old(records) ==> records == old(records) - {url}
    {
      Add(url, record);
      Delete(url);
    }

    /** add twice under one url: only the second record remains. */
    method AddTwice(url: string, first: TemporaryRecord?, second: TemporaryRecord?)
      modifies this
      ensures records == old(records)[url := second]
      ensures second != null ==> HasRecord(url) && records[url] == second
    {
      Add(url, first);
      Add(url, second);
    }
  }

  /**
   * A caller's scenario: a record whose server answers 304 and whose temp
   * file is intact and unfinished resumes; the same record object registered
   * under a second url sees every update too; a status other than 200 or
   * 304 for an unknown url changes nothing.
   */
  method AliasedRecordScenario(url: string, alias: string, disk: Classifier.DiskProbes)
    requires url != alias
    requires disk.TempFileVerified() && disk.fileNotComplete == Ok(true)
  {
    var table := new TemporaryRecordTable();
    var record := new TemporaryRecord(RecordState("", 0, "", false, true));
    table.Add(url, record);
    table.Add(alias, record);
    var found := table.Contain(url);
    assert found;

    table.SaveRangeInfo(url, Response(206, "", 1000, "", false));
    table.SaveFileState(url, Response(NOT_MODIFIED, "", 0, "", false));
    assert table.GenerateFileExistsType(url, disk) == Continue;
    assert table.GenerateFileExistsType(alias, disk) == Continue;

    table.SaveFileState(alias, Response(OK, "", 0, "", false));
    assert table.GenerateFileExistsType(url, disk) == MultiThread;

    table.Delete(url);
    found := table.Contain(url);
    assert !found && table.HasRecord(alias);

    table.SaveFileState(url, Response(500, "", 0, "", false));
    assert table.GenerateFileExistsType(alias, disk) == MultiThread;
  }
}
