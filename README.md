# TemporaryRecordTable, modelled in Dafny

This project models the download registry of RxDownloader, which is
`TemporaryRecordTable`. The registry maps each download's url to its
`TemporaryRecord`. It records what the server reported about the download:

- the save name, content length and last-modify value;
- whether the server supports byte ranges;
- whether the file changed since the last attempt.

From those facts and from the record's on-disk state it chooses one of four
download types:

- `MultiThread`: a fresh download in ranged segments.
- `Normal`: a fresh download over a single stream.
- `Continue`: resume the unfinished segments.
- `Finished`: nothing left to fetch.

Files:

- `results.dfy` (`Results`): `Result<T> = Ok(value) | IOError`. It is the
  outcome of a query that may throw `IOException`.
- `download_type.dfy` (`DownloadTypes`): the four download types. It also
  defines three predicates used in contracts:
  - `IsFresh`: the download starts from byte zero.
  - `UsesRanges`: the download sends `Range` requests.
  - `TrustsPriorBytes`: the download reuses bytes from an earlier attempt.
- `records.dfy` (`Records`): the record and the responses.
  - The class `TemporaryRecord` holds the five fields the table sets.
  - Its value `RecordState` is used in specifications.
  - `Response` is a status code plus what the header helpers return.
  - `WithFileInfo`, `WithRangeInfo` and `WithFileState` are pure functions.
    Each gives the state that one table update leaves in a record.
- `classifier.dfy` (`Classifier`): the download-type decision as pure
  functions. It works over a `RecordState` and `DiskProbes`, the answers of
  the record's on-disk queries.
- `table.dfy` (`TemporaryRecordTables`): the class `TemporaryRecordTable`.
  - Its field `records: map<string, TemporaryRecord?>` stands for the Java
    `HashMap`.
  - Its methods change the map or the stored record in place. Their
    `ensures` clauses tie the new state to the pure functions above.
  - Its query functions pass the stored record to the classifier.

Modelling decisions:

- Java's map can hold `null`, and `contain` tests `map.get(url) != null`. So
  the map's values are `TemporaryRecord?`, and `HasRecord(url)` means
  "present and not null". Every use of `map.get(url)` dereferences the
  result with no null check, where a missing url throws
  `NullPointerException`. So a member requires `HasRecord(url)` exactly
  where the code performs that lookup: always for `saveFileInfo`,
  `saveRangeInfo`, `readLastModify` and the two generate functions, but for
  `saveFileState` only when the status is 200 or 304. With any other status,
  `saveFileState` never looks the url up, so it is a no-op even for an
  unknown url.
- Records are objects, as in Java. The same record added under two urls is
  one object, so an update through one url shows through the other.
  `AliasedRecordScenario` uses this. The "other urls unchanged" clauses are stated
  for records that are different objects.
- The on-disk queries are inputs of the model, not computations. Two of them
  can throw `IOException`: `tempFileDamaged()` and `fileNotComplete()`. They
  are `Result<bool>`. `tempFile().exists()` and `fileComplete()` declare no
  exception, so they are plain `bool`.
- The stored last-modify value is read from disk and may throw. It is a
  `Result<string>` input.
- `normalDownloadNotComplete` is `!fileComplete()`. The accessors
  `supportRange`, `fileChanged`, `multiDownloadNotComplete` and
  `tempFileNotExists` are single field reads or query answers. They are
  inlined rather than modelled as separate functions.

- `TemporaryRecord`'s own constructor is not part of this model. The
  constructor that takes a `RecordState` is a modelling convenience, so that
  `AliasedRecordScenario` can create a record.
- `fileChanged` is a boolean. A status other than 200 or 304 keeps its
  previous value.
- A failed read of the stored last-modify value does not set `fileChanged`.
  `readLastModify` only returns `""`, and the flag changes later, when
  `saveFileState` sees the server's 200 answer to that empty validator.
  `StatusThenDecision` proves that a 200 always leads to a fresh download.
- Whether the temp file can be resumed is decided by three separate queries:
  does it exist, is it damaged (may throw), is the download not complete
  (may throw). Each failure is mapped to `MultiThread`. The model keeps these
  three queries.

## Model

| member | source | states |
|---|---|---|
| `TemporaryRecordTables.TemporaryRecordTable.constructor` | app/src/main/java/com/ryanli/rxdownloader/data/retrofit/download/TemporaryRecordTable.java:27-29 | a new table holds no records |
| `TemporaryRecordTables.TemporaryRecordTable.Add` | app/src/main/java/com/ryanli/rxdownloader/data/retrofit/download/TemporaryRecordTable.java:31-33 | the map afterwards is the old map with url bound to the record, overwriting any earlier one; url is contained exactly when the record is non-null; every other url keeps its presence and its record |
| `TemporaryRecordTables.TemporaryRecordTable.Contain` | app/src/main/java/com/ryanli/rxdownloader/data/retrofit/download/TemporaryRecordTable.java:35-37 | true exactly when the url is a key whose value is not null |
| `TemporaryRecordTables.TemporaryRecordTable.Delete` | app/src/main/java/com/ryanli/rxdownloader/data/retrofit/download/TemporaryRecordTable.java:39-41 | the url is removed (no error if absent), so it is no longer contained; every other url keeps its presence and its record |
| `TemporaryRecordTables.TemporaryRecordTable.SaveFileInfo` | app/src/main/java/com/ryanli/rxdownloader/data/retrofit/download/TemporaryRecordTable.java:49-56 | requires url registered (no null check); the map is unchanged, the stored record's state becomes `WithFileInfo` of its old state, and every record that is another object is unchanged |
| `TemporaryRecordTables.TemporaryRecordTable.SaveRangeInfo` | app/src/main/java/com/ryanli/rxdownloader/data/retrofit/download/TemporaryRecordTable.java:64-66 | requires url registered; the stored record's state becomes `WithRangeInfo` of its old state; other records unchanged |
| `TemporaryRecordTables.TemporaryRecordTable.SaveFileState` | app/src/main/java/com/ryanli/rxdownloader/data/retrofit/download/TemporaryRecordTable.java:88-94 | requires url registered only for status 304 or 200, where the record is looked up; if registered, the stored record's state becomes `WithFileState` of its old state and the response code; the map and every other record are unchanged, so any other status on an unknown url is a no-op |
| `TemporaryRecordTables.TemporaryRecordTable.ReadLastModify` | app/src/main/java/com/ryanli/rxdownloader/data/retrofit/download/TemporaryRecordTable.java:128-138 | requires url registered; a successful read returns the stored value, a read that throws IOException returns "" and the error does not escape |
| `TemporaryRecordTables.TemporaryRecordTable.GenerateNonExistsType` | app/src/main/java/com/ryanli/rxdownloader/data/retrofit/download/TemporaryRecordTable.java:102-104 | requires url registered; MultiThread exactly when the stored record supports ranges, Normal exactly when it does not |
| `TemporaryRecordTables.TemporaryRecordTable.GenerateFileExistsType` | app/src/main/java/com/ryanli/rxdownloader/data/retrofit/download/TemporaryRecordTable.java:112-120 | requires url registered; a ranged type only if the record supports ranges, a type reusing earlier bytes only if the file is unchanged, the non-exists type when the file changed, and Continue exactly when unchanged, ranged, temp file verified and the not-complete query answered true |
| `TemporaryRecordTables.TemporaryRecordTable.AddThenDelete` | app/src/main/java/com/ryanli/rxdownloader/data/retrofit/download/TemporaryRecordTable.java:31-41 | add then delete leaves the url without a record; for a url the table did not know, the map is exactly as before |
| `TemporaryRecordTables.TemporaryRecordTable.AddTwice` | app/src/main/java/com/ryanli/rxdownloader/data/retrofit/download/TemporaryRecordTable.java:31-33 | adding twice under one url leaves only the second record, and contain then finds it |
| `Records.WithFileInfo` | app/src/main/java/com/ryanli/rxdownloader/data/retrofit/download/TemporaryRecordTable.java:49-56 | the save name is replaced only when it was empty, otherwise kept; content length and last-modify are always the response's; range and changed flags are kept |
| `Records.WithRangeInfo` | app/src/main/java/com/ryanli/rxdownloader/data/retrofit/download/TemporaryRecordTable.java:64-66 | range support becomes the negation of notSupportRange; every other field is kept |
| `Records.WithFileState` | app/src/main/java/com/ryanli/rxdownloader/data/retrofit/download/TemporaryRecordTable.java:88-94 | status 304 (Not Modified, RFC 7232 section 4.1) clears the changed flag, 200 sets it, any other status leaves the record unchanged; no field other than the changed flag ever changes |
| `Records.SaveNameIsStable` | app/src/main/java/com/ryanli/rxdownloader/data/retrofit/download/TemporaryRecordTable.java:51-53 | once a record has a non-empty save name, none of the three updates replaces it |
| `Records.FileInfoTwice` | app/src/main/java/com/ryanli/rxdownloader/data/retrofit/download/TemporaryRecordTable.java:49-56 | over two saveFileInfo calls the first non-empty name sticks, and the later response's length and last-modify win |
| `Records.FileInfoIdempotent` | app/src/main/java/com/ryanli/rxdownloader/data/retrofit/download/TemporaryRecordTable.java:49-56 | repeating saveFileInfo with the same response changes nothing |
| `Records.UpdatesCommute` | app/src/main/java/com/ryanli/rxdownloader/data/retrofit/download/TemporaryRecordTable.java:49-94 | saveFileInfo, saveRangeInfo and saveFileState touch disjoint fields, so any two commute |
| `Records.LastDecisiveStatusWins` | app/src/main/java/com/ryanli/rxdownloader/data/retrofit/download/TemporaryRecordTable.java:88-94 | after a 200 or 304, the changed flag no longer depends on any earlier status |
| `Classifier.TempFileDamaged` | app/src/main/java/com/ryanli/rxdownloader/data/retrofit/download/TemporaryRecordTable.java:208-215 | the temp file counts as undamaged only when the damage query succeeded and answered false; an IOException counts as damage |
| `Classifier.NeedReDownload` | app/src/main/java/com/ryanli/rxdownloader/data/retrofit/download/TemporaryRecordTable.java:204-206 | a re-download is needed exactly when the temp file is missing or not verified undamaged |
| `Classifier.GetNormalType` | app/src/main/java/com/ryanli/rxdownloader/data/retrofit/download/TemporaryRecordTable.java:156-164 | always a fresh type, and a ranged one exactly when range is supported |
| `Classifier.SupportRangeType` | app/src/main/java/com/ryanli/rxdownloader/data/retrofit/download/TemporaryRecordTable.java:174-186 | never Normal; Continue exactly when the temp file is verified and the not-complete query answered true; Finished exactly when it is verified and the query answered false; MultiThread otherwise, including when the query threw |
| `Classifier.NotSupportRangeType` | app/src/main/java/com/ryanli/rxdownloader/data/retrofit/download/TemporaryRecordTable.java:188-194 | only Normal or Finished, Finished exactly when the normal download is complete |
| `Classifier.GetServerFileChangeType` | app/src/main/java/com/ryanli/rxdownloader/data/retrofit/download/TemporaryRecordTable.java:166-172 | a ranged type only when range is supported, Normal only when it is not, Continue exactly when ranged with a verified, unfinished temp file |
| `Classifier.GenerateNonExistsType` | app/src/main/java/com/ryanli/rxdownloader/data/retrofit/download/TemporaryRecordTable.java:102-104 | MultiThread exactly when range is supported, Normal exactly when not |
| `Classifier.GenerateFileExistsType` | app/src/main/java/com/ryanli/rxdownloader/data/retrofit/download/TemporaryRecordTable.java:112-120 | the condition for each of the four outcomes. Continue: unchanged, ranged, temp file verified, not-complete query answered true. Finished: unchanged, and either ranged with the query answering false, or not ranged with the normal download complete. MultiThread: ranged, and changed, or not verified, or the query threw. Normal: not ranged, and changed or incomplete |
| `Classifier.ChangedFileIsTreatedAsAbsent` | app/src/main/java/com/ryanli/rxdownloader/data/retrofit/download/TemporaryRecordTable.java:112-120 | when the file changed, the file-exists decision equals the non-exists decision |
| `Classifier.DecisionIsSafe` | app/src/main/java/com/ryanli/rxdownloader/data/retrofit/download/TemporaryRecordTable.java:102-194 | no output file always means a fresh download; ranged requests are chosen only with range support; earlier bytes are reused only when the file is unchanged |
| `Classifier.ProbeErrorRestartsSegmented` | app/src/main/java/com/ryanli/rxdownloader/data/retrofit/download/TemporaryRecordTable.java:174-215 | with range support, an IOException from either temp-file query always yields MultiThread, never Continue or Finished |
| `Classifier.ErrorsAreConservative` | app/src/main/java/com/ryanli/rxdownloader/data/retrofit/download/TemporaryRecordTable.java:174-215 | replacing a temp-file answer by IOException keeps a fresh outcome fresh, and turns a ranged resume or finish into MultiThread |
| `Classifier.DependsOnlyOnQueriedFacts` | app/src/main/java/com/ryanli/rxdownloader/data/retrofit/download/TemporaryRecordTable.java:112-219 | the decision ignores the disk when the file changed, ignores the damage and completeness answers when the temp file is missing, ignores the completeness answer when the temp file is damaged or its damage query threw, ignores fileComplete when ranged, and reads only fileComplete when not ranged |
| `Classifier.EveryTypeIsReachable` | app/src/main/java/com/ryanli/rxdownloader/data/retrofit/download/TemporaryRecordTable.java:112-194 | each of the four types is returned for some record and disk state, so no branch is dead |
| `Classifier.StatusThenDecision` | app/src/main/java/com/ryanli/rxdownloader/data/retrofit/download/TemporaryRecordTable.java:88-120 | after a 304, a ranged record with a verified, unfinished temp file resumes; after a 200 the download is always fresh |

## Left out

- `init` (TemporaryRecordTable.java:77-80): it only passes its arguments to `TemporaryRecord.init`, which is not modelled, and the `DownloadApi` client it carries is network plumbing.
- `fileExists` and `getFiles` (TemporaryRecordTable.java:140-146): filesystem access. File existence enters the model only as the input `DiskProbes.tempFileExists`. Whether the output file exists decides which generate function the caller uses.
- The DownloadUtils helpers `fileName`, `contentLength`, `lastModify`, `notSupportRange` and `empty` are not part of this model. The first four are the fields of `Response`. `empty` is modelled as equality with `""`. Strings in the model cannot be null.
- The code of TemporaryRecord itself is not part of this model: its `init`, its setters and its queries. The model has only its five fields. The queries of TemporaryRecord (`tempFile().exists()`, `tempFileDamaged()`, `fileNotComplete()`, `fileComplete()`, `readLastModify()`) are inputs, since their code is not part of this model. Each decision reads them once, at one instant, so the model does not capture the disk changing between two queries. It also does not capture the order in which the code issues them. `DependsOnlyOnQueriedFacts` states which answers matter.
- The `DownloadType` subclasses carry the record they were built from. The model's `DownloadType` carries no payload, because that record is always the one stored under the url. Running a download is not modelled: the transfer itself, RxJava streams and threads.
- `LogUtils` logging, in the IOException handler of `tempFileDamaged`, is output only.
- Concurrent use of the `HashMap` is not modelled. The table is not synchronised, and the model treats every call as running alone.
- A null url key and a null response are not modelled. A Java call with either would throw or be accepted by `HashMap` in ways that do not appear in the table's code.
- `DownloadFlag` holds status constants only, with no behaviour.
- `DownloadApi` is a Retrofit interface declaration with no logic.
