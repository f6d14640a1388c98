/** Where a job's result data lives: small data in the `data` blob column of
    the `result_files` row, large data in an external file of the SQLite
    database's files directory, with files that are no longer referenced
    queued on the session and unlinked after commit. */
module DbStore {
  import opened Wrappers

  type Bytes = seq<bv8>

  /** The contents of the session's files directory, by file name. */
  type Disk = map<string, Bytes>

  /** Data longer than this many bytes goes to an external file when there is
      a files directory. */
  const BlobLimit: nat := 4096

  /** A `ResultFile` row and its in-memory state: `data` is the data the job
      sees, `blob` and `filename` are the two database columns, `dirty` says the
      columns must be rewritten at the next flush, and `delFiles` are file names
      that are no longer referenced and are waiting to be handed to the session. */
  datatype ResultFile = ResultFile(
    data: Option<Bytes>,
    blob: Option<Bytes>,
    filename: Option<string>,
    dirty: bool,
    delFiles: seq<string>)

  /** The part of a session's `info` the result files use: the files directory
      (`None` for a database other than a file-backed SQLite one) and the names
      of files to unlink after the next commit. */
  datatype Session = Session(filesDir: Option<string>, deleteList: seq<string>)

  /** The assertions and the file read of `_loaded` that can fail. */
  datatype LoadError =
    | BlobWithFile   // the row has a file name and a non-empty blob
    | NoFilesDir     // the row has a file name but the session has no files directory
    | FileMissing    // the named file is not in the files directory

  /** `_result_file_after_commit` joins each name to the files directory; with no
      directory and a non-empty list this is a `TypeError`. */
  datatype CommitError = NoDirToUnlinkIn

  /** Python truth of an optional file name: present and non-empty. */
  predicate NameTruthy(n: Option<string>)
  {
    n.Some? && n.value != ""
  }

  /** Python truth of optional bytes: present and non-empty. */
  predicate DataTruthy(d: Option<Bytes>)
  {
    d.Some? && |d.value| > 0
  }

  /** Whether a flush writes `data` to an external file rather than the blob column. */
  predicate GoesToFile(sess: Session, data: Option<Bytes>)
  {
    sess.filesDir.Some? && DataTruthy(data) && |data.value| > BlobLimit
  }

  /** The data the row and the files directory hold for an object: the named
      file's contents when the row names a file, the blob otherwise. */
  function Stored(rf: ResultFile, disk: Disk): Option<Bytes>
  {
    if NameTruthy(rf.filename) then
      if rf.filename.value in disk then Some(disk[rf.filename.value]) else None
    else rf.blob
  }

  /** A new object: it holds the given data, has no columns written yet, must
      be written at the next flush, and has no file to delete. */
  function NewResultFile(data: Option<Bytes>): (r: ResultFile)
    ensures r.data == data && r.dirty && r.delFiles == []
    ensures r.blob.None? && r.filename.None?
  {
    ResultFile(data, None, None, true, [])
  }

  /** Drops the data: a file the row names is queued for deletion, the row no
      longer names a file, and the object must be rewritten. */
  function ClearData(rf: ResultFile): (r: ResultFile)
    ensures r.data.None? && r.filename.None? && r.dirty
    ensures r.blob == rf.blob
    ensures NameTruthy(rf.filename) ==> r.delFiles == rf.delFiles + [rf.filename.value]
    ensures !NameTruthy(rf.filename) ==> r.delFiles == rf.delFiles
  {
    var queued := if NameTruthy(rf.filename) then rf.delFiles + [rf.filename.value] else rf.delFiles;
    rf.(filename := None, dirty := true, data := None, delFiles := queued)
  }

  /** The `data` setter: the old data is cleared as by `ClearData`, then the new
      value is held. */
  function SetData(rf: ResultFile, val: Option<Bytes>): (r: ResultFile)
    ensures r.data == val && r.dirty && r.filename.None? && r.blob == rf.blob
    ensures r.delFiles == ClearData(rf).delFiles
  {
    ClearData(rf).(data := val)
  }

  /** `_before_flush`: a dirty object's data is written either to a new file
      named `newName` or to the blob column, and the object is clean again. */
  function BeforeFlush(rf: ResultFile, sess: Session, disk: Disk, newName: string): (r: (ResultFile, Disk))
    ensures !r.0.dirty
    ensures rf.dirty ==> r.0.blob.None? || r.0.filename.None?
    ensures r.0.data == rf.data && r.0.delFiles == rf.delFiles
    ensures !rf.dirty ==> r == (rf, disk)
    ensures rf.dirty ==> (r.0.filename.Some? <==> GoesToFile(sess, rf.data))
    ensures rf.dirty && GoesToFile(sess, rf.data) ==>
      r.0.filename == Some(newName) && newName in r.1 && r.1[newName] == rf.data.value
    ensures rf.dirty && !GoesToFile(sess, rf.data) ==> r.0.blob == rf.data && r.1 == disk
    ensures forall k :: k in disk && k != newName ==> k in r.1 && r.1[k] == disk[k]
    ensures forall k :: k in r.1 ==> k in disk || k == newName
  {
    if !rf.dirty then (rf, disk)
    else if GoesToFile(sess, rf.data) then
      (rf.(filename := Some(newName), blob := None, dirty := false), disk[newName := rf.data.value])
    else
      (rf.(filename := None, blob := rf.data, dirty := false), disk)
  }

  /** `_after_flush`: the object's queued file names move to the end of the
      session's delete list. */
  function AfterFlush(rf: ResultFile, sess: Session): (r: (ResultFile, Session))
    ensures r.1.deleteList == sess.deleteList + rf.delFiles && r.1.filesDir == sess.filesDir
    ensures r.0 == rf.(delFiles := [])
  {
    (rf.(delFiles := []), sess.(deleteList := sess.deleteList + rf.delFiles))
  }

  /** `_loaded`, run on load and on refresh: the data is rebuilt from the blob
      column or from the named file, and the object is clean with nothing queued. */
  function Loaded(rf: ResultFile, sess: Session, disk: Disk): (r: Result<ResultFile, LoadError>)
    ensures r.Success? <==>
      !NameTruthy(rf.filename) || (!DataTruthy(rf.blob) && sess.filesDir.Some? && rf.filename.value in disk)
    ensures r.Success? ==> r.value == rf.(data := Stored(rf, disk), delFiles := [], dirty := false)
    ensures NameTruthy(rf.filename) && DataTruthy(rf.blob) ==> r == Failure(BlobWithFile)
  {
    var fromBlob := rf.(data := rf.blob, delFiles := [], dirty := false);
    if !NameTruthy(rf.filename) then Success(fromBlob)
    else if DataTruthy(fromBlob.data) then Failure(BlobWithFile)
    else if sess.filesDir.None? then Failure(NoFilesDir)
    else if rf.filename.value !in disk then Failure(FileMissing)
    else Success(fromBlob.(data := Some(disk[rf.filename.value])))
  }

  /** The files directory after unlinking the given names; names that are not
      there are skipped. */
  function Unlinked(disk: Disk, names: seq<string>): (r: Disk)
    ensures forall k :: k in r <==> k in disk && k !in names
    ensures forall k :: k in r ==> r[k] == disk[k]
  {
    map k | k in disk && k !in names :: disk[k]
  }

  /** `_result_file_after_commit`: every file on the session's delete list is
      unlinked from the files directory, ignoring ones already gone, and the list
      is emptied. */
  method AfterCommit(sess: Session, disk: Disk) returns (r: Result<(Session, Disk), CommitError>)
    ensures r.Failure? <==> sess.filesDir.None? && |sess.deleteList| > 0
    ensures r.Success? ==> r.value.0 == sess.(deleteList := [])
    ensures r.Success? ==> forall k :: k in r.value.1 <==> k in disk && k !in sess.deleteList
    ensures r.Success? ==> forall k :: k in r.value.1 ==> r.value.1[k] == disk[k]
    ensures r.Success? ==> r.value.1 == Unlinked(disk, sess.deleteList)
  {
    if sess.filesDir.None? && |sess.deleteList| > 0 {
      return Failure(NoDirToUnlinkIn);
    }
    var left := disk;
    var i := 0;
    while i < |sess.deleteList|
      invariant 0 <= i <= |sess.deleteList|
      invariant forall k :: k in left <==> k in disk && k !in sess.deleteList[..i]
      invariant forall k :: k in left ==> left[k] == disk[k]
    {
      var name := sess.deleteList[i];
      if name in left {
        left := left - {name};
      }
      assert sess.deleteList[..i + 1] == sess.deleteList[..i] + [name];
      i := i + 1;
    }
    assert sess.deleteList[..i] == sess.deleteList;
    return Success((sess.(deleteList := []), left));
  }
}
