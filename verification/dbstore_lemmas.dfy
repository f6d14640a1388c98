/** Properties of the result-file state machine across several steps: the
    invariant that keeps the columns, the files directory and the delete lists
    consistent, and the round trips through flush, commit and load. */
module DbStoreLemmas {
  import opened Wrappers
  import opened DbStore

  /** The consistency the hooks maintain for one object of a session:
      - the row never holds both a blob and a file name;
      - a dirty object names no file (its old file is already queued);
      - a named file exists in the files directory and is queued nowhere;
      - a clean object's data is what the row and the directory hold;
      - with no files directory nothing is ever queued. */
  predicate Inv(rf: ResultFile, sess: Session, disk: Disk)
  {
    && (rf.blob.None? || rf.filename.None?)
    && (rf.dirty ==> rf.filename.None?)
    && (rf.filename.Some? ==>
          && NameTruthy(rf.filename) && sess.filesDir.Some? && rf.filename.value in disk
          && rf.filename.value !in rf.delFiles && rf.filename.value !in sess.deleteList)
    && (!rf.dirty ==> rf.data == Stored(rf, disk))
    && (sess.filesDir.None? ==> |sess.deleteList| == 0 && |rf.delFiles| == 0)
  }

  /** What `uuid4` is relied on for: a name that is non-empty and not in use. */
  predicate Unused(name: string, rf: ResultFile, sess: Session, disk: Disk)
  {
    name != "" && name !in disk && name !in rf.delFiles && name !in sess.deleteList
  }

  lemma NewValid(data: Option<Bytes>, sess: Session, disk: Disk)
    requires sess.filesDir.None? ==> |sess.deleteList| == 0
    ensures Inv(NewResultFile(data), sess, disk)
  {
  }

  lemma ClearPreservesInv(rf: ResultFile, sess: Session, disk: Disk)
    requires Inv(rf, sess, disk)
    ensures Inv(ClearData(rf), sess, disk)
  {
  }

  lemma SetPreservesInv(rf: ResultFile, sess: Session, disk: Disk, val: Option<Bytes>)
    requires Inv(rf, sess, disk)
    ensures Inv(SetData(rf, val), sess, disk)
  {
    ClearPreservesInv(rf, sess, disk);
  }

  lemma FlushPreservesInv(rf: ResultFile, sess: Session, disk: Disk, newName: string)
    requires Inv(rf, sess, disk) && Unused(newName, rf, sess, disk)
    ensures Inv(BeforeFlush(rf, sess, disk, newName).0, sess, BeforeFlush(rf, sess, disk, newName).1)
  {
  }

  lemma AfterFlushPreservesInv(rf: ResultFile, sess: Session, disk: Disk)
    requires Inv(rf, sess, disk)
    ensures Inv(AfterFlush(rf, sess).0, AfterFlush(rf, sess).1, disk)
  {
  }

  /** Under the invariant the commit hook succeeds, keeps the object's file,
      and the invariant holds with the emptied list. */
  lemma CommitPreservesInv(rf: ResultFile, sess: Session, disk: Disk)
    requires Inv(rf, sess, disk)
    ensures !(sess.filesDir.None? && |sess.deleteList| > 0)
    ensures Inv(rf, sess.(deleteList := []), Unlinked(disk, sess.deleteList))
  {
  }

  /** Reloading a clean object gives back the same object, with nothing queued. */
  lemma ReloadUnderInv(rf: ResultFile, sess: Session, disk: Disk)
    requires Inv(rf, sess, disk) && !rf.dirty
    ensures Loaded(rf, sess, disk) == Success(rf.(delFiles := []))
  {
  }

  /** A second flush right after the first changes nothing, whatever name it is offered. */
  lemma FlushIdempotent(rf: ResultFile, sess: Session, disk: Disk, n1: string, n2: string)
    ensures var (rf1, d1) := BeforeFlush(rf, sess, disk, n1);
      BeforeFlush(rf1, sess, d1, n2) == (rf1, d1)
  {
  }

  /** Data written by a flush, to the blob or to a file, is what a load reads back. */
  lemma FlushLoadRoundTrip(rf: ResultFile, sess: Session, disk: Disk, newName: string)
    requires rf.dirty && newName != ""
    ensures var (rf1, d1) := BeforeFlush(rf, sess, disk, newName);
      && Loaded(rf1, sess, d1).Success?
      && Loaded(rf1, sess, d1).value.data == rf.data
      && Loaded(rf1, sess, d1).value.delFiles == []
      && !Loaded(rf1, sess, d1).value.dirty
  {
  }

  /** The boundary of the blob limit: 4096 bytes stay in the row, one byte more
      goes to a file when there is a files directory. */
  lemma BlobLimitBoundary(sess: Session, disk: Disk, newName: string, small: Bytes, large: Bytes)
    requires |small| == 4096 && |large| == 4097
    ensures BeforeFlush(NewResultFile(Some(small)), sess, disk, newName).0.blob == Some(small)
    ensures BeforeFlush(NewResultFile(Some(large)), sess, disk, newName).0.filename.Some? <==> sess.filesDir.Some?
  {
  }

  /** Replacing the data of an object whose data is in a file, then flushing
      and committing: the old file is gone from the directory, the invariant
      holds again, and a load reads the new data. */
  lemma ReplaceFileThenCommit(rf: ResultFile, sess: Session, disk: Disk, val: Option<Bytes>, newName: string)
    requires Inv(rf, sess, disk) && rf.filename.Some? && Unused(newName, rf, sess, disk)
    ensures var rf1 := SetData(rf, val);
      var (rf2, d2) := BeforeFlush(rf1, sess, disk, newName);
      var (rf3, s3) := AfterFlush(rf2, sess);
      var (s4, d4) := (s3.(deleteList := []), Unlinked(d2, s3.deleteList));
      && rf.filename.value !in d4
      && Inv(rf3, s4, d4)
      && Loaded(rf3, s4, d4) == Success(rf3)
      && rf3.data == val
  {
    var rf1 := SetData(rf, val);
    SetPreservesInv(rf, sess, disk, val);
    assert Unused(newName, rf1, sess, disk);
    var (rf2, d2) := BeforeFlush(rf1, sess, disk, newName);
    FlushPreservesInv(rf1, sess, disk, newName);
    var (rf3, s3) := AfterFlush(rf2, sess);
    AfterFlushPreservesInv(rf2, sess, d2);
    assert rf.filename.value in s3.deleteList;
    CommitPreservesInv(rf3, s3, d2);
    ReloadUnderInv(rf3, s3.(deleteList := []), Unlinked(d2, s3.deleteList));
  }
}
