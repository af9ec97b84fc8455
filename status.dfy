/**
 * The status line: line count, character count and the size on disk of the
 * bound file, recomputed from the buffer, the binding and the disk.
 */
module StatusLine {
  import opened Wrappers
  import opened Utf16
  import opened Lines
  import opened Disk

  datatype Status = Status(lines: nat, characters: nat, fileSize: nat)

  /** The size reported for the bound file: that of the file on disk, 0 when nothing is bound. */
  function FileSize(bound: Option<Path>, files: Files, bytes: Text -> nat): (n: nat)
    ensures bound == None ==> n == 0
    ensures bound.Some? && bound.value !in files ==> n == 0
  {
    match bound
    case None => 0
    case Some(p) => FileLength(files, p, bytes)
  }

  /** What `updateStatus` computes. */
  function Snapshot(text: Text, bound: Option<Path>, files: Files, bytes: Text -> nat): (st: Status)
    ensures st.lines == LineCount(text) && st.characters == |text|
    ensures bound == None ==> st.fileSize == 0
    ensures st.fileSize == FileSize(bound, files, bytes)
  {
    Status(LineCount(text), CharacterCount(text), FileSize(bound, files, bytes))
  }

  /** The reported size is read from the disk, never derived from the buffer. */
  lemma FileSizeIgnoresBuffer(t1: Text, t2: Text, bound: Option<Path>, files: Files, bytes: Text -> nat)
    ensures Snapshot(t1, bound, files, bytes).fileSize == Snapshot(t2, bound, files, bytes).fileSize
  {
  }

  /** `"hello\nworld"` with no file bound: 2 lines, 11 characters, 0 bytes. */
  lemma SnapshotExample(files: Files, bytes: Text -> nat)
    ensures Snapshot([104, 101, 108, 108, 111, LF, 119, 111, 114, 108, 100], None, files, bytes)
         == Status(2, 11, 0)
  {
    var hello: Text, world: Text := [104, 101, 108, 108, 111], [119, 111, 114, 108, 100];
    assert hello + [LF] + world == [104, 101, 108, 108, 111, LF, 119, 111, 114, 108, 100];
    SplitAfterNewline(hello, world);
    SplitWithoutNewline(hello);
    LineCountWithoutTrailingNewline(hello + [LF] + world);
  }
}
