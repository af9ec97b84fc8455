/**
 * The document state machine as functions over the editor's whole state:
 * what each menu action does to the buffer, the bound file, the status label
 * and the disk. The editor class is proved to follow these functions.
 */
module Document {
  import opened Wrappers
  import opened Utf16
  import opened Lines
  import opened Disk
  import opened StatusLine
  import opened TextArea

  /** The buffer (`textArea`), the bound file (`currentFile`), the label (`statusLabel`) and the disk. */
  datatype State = State(text: Text, bound: Option<Path>, status: Status, files: Files)

  /**
   * The label's line and character counts are those of the buffer, and its
   * size is 0 when no file is bound. Only the size can lag behind: it is read
   * from the disk when the label is recomputed.
   */
  predicate StatusCurrent(st: State)
  {
    st.status.lines == LineCount(st.text) && st.status.characters == |st.text|
    && (st.bound == None ==> st.status.fileSize == 0)
  }

  /**
   * What holds between actions: the buffer is something the text area can
   * hold, and the label is current for it.
   */
  predicate Valid(st: State)
  {
    Storable(st.text) && StatusCurrent(st)
  }

  /** `updateStatus`: the label is recomputed, nothing else changes. */
  function Refresh(st: State, bytes: Text -> nat): (r: State)
    ensures StatusCurrent(r)
    ensures r.text == st.text && r.bound == st.bound && r.files == st.files
    ensures r.bound.Some? && r.bound.value in r.files ==> r.status.fileSize == bytes(r.files[r.bound.value])
  {
    st.(status := Snapshot(st.text, st.bound, st.files, bytes))
  }

  /** The state `start` sets up: an empty buffer, no file bound, a fresh label. */
  function Initial(files: Files, bytes: Text -> nat): (r: State)
    ensures r.text == [] && r.bound == None && r.files == files
    ensures r.status == Status(1, 0, 0) && Valid(r)
  {
    Refresh(State([], None, Status(0, 0, 0), files), bytes)
  }

  /** `newFile`: the buffer is cleared and the binding dropped, whatever they were. */
  function NewFile(st: State, bytes: Text -> nat): (r: State)
    ensures r.text == [] && r.bound == None && r.files == st.files
    ensures r.status == Status(1, 0, 0) && Valid(r)
  {
    Refresh(st.(text := [], bound := None), bytes)
  }

  /**
   * `openFile` with the chooser's answer `choice` (None when cancelled): on a
   * successful read the buffer takes the file's content, as the text area
   * filters it, the file is bound and the label is recomputed from the disk;
   * on cancel or a failed read nothing changes, since the read comes before
   * any assignment.
   */
  function OpenFile(st: State, choice: Option<Path>, fault: bool, bytes: Text -> nat): (r: State)
    ensures r.files == st.files
    ensures choice == None ==> r == st
    ensures choice.Some? && (fault || choice.value !in st.files) ==> r == st
    ensures choice.Some? && !fault && choice.value in st.files ==>
      r.text == Filtered(st.files[choice.value]) && r.bound == choice
      && r.status == Snapshot(r.text, r.bound, r.files, bytes) && Valid(r)
    ensures StatusCurrent(st) ==> StatusCurrent(r)
    ensures Valid(st) ==> Valid(r)
  {
    match choice
    case None => st
    case Some(p) =>
      match Read(st.files, p, fault)
      case Success(content) => Refresh(st.(text := Filtered(content), bound := Some(p)), bytes)
      case Failure(_) => st
  }

  /**
   * `saveToFile(p)`: the buffer is written to `p`; the buffer and the binding
   * are untouched. The label is recomputed only when the write completed: the
   * exception skips it.
   */
  function SaveToFile(st: State, p: Path, o: WriteOutcome, bytes: Text -> nat): (r: State)
    ensures r.text == st.text && r.bound == st.bound
    ensures r.files == AfterWrite(st.files, p, st.text, o)
    ensures o.Completed? ==> r.status == Snapshot(r.text, r.bound, r.files, bytes)
    ensures o.Completed? && r.bound == Some(p) ==> r.status.fileSize == bytes(st.text)
    ensures !o.Completed? ==> r.status == st.status
    ensures StatusCurrent(st) ==> StatusCurrent(r)
    ensures Valid(st) ==> Valid(r)
  {
    var written := st.(files := AfterWrite(st.files, p, st.text, o));
    if o.Completed? then Refresh(written, bytes) else written
  }

  /**
   * `saveFileAs` with the chooser's answer: on cancel nothing changes;
   * otherwise the buffer is written to the chosen path and that path becomes
   * the bound file, whether or not the write succeeded.
   */
  function SaveFileAs(st: State, choice: Option<Path>, o: WriteOutcome, bytes: Text -> nat): (r: State)
    ensures r.text == st.text
    ensures choice == None ==> r == st
    ensures choice.Some? ==>
      r.bound == choice && r.files == AfterWrite(st.files, choice.value, st.text, o)
      && r.status == Snapshot(r.text, r.bound, r.files, bytes)
    ensures StatusCurrent(st) ==> StatusCurrent(r)
    ensures Valid(st) ==> Valid(r)
  {
    match choice
    case None => st
    case Some(p) => Refresh(SaveToFile(st, p, o, bytes).(bound := Some(p)), bytes)
  }

  /**
   * `saveFile`: with a bound file, the buffer is written there and the
   * binding stays; with none, it is `saveFileAs`.
   */
  function SaveFile(st: State, choice: Option<Path>, o: WriteOutcome, bytes: Text -> nat): (r: State)
    ensures r.text == st.text
    ensures st.bound.Some? ==>
      r.bound == st.bound && r.files == AfterWrite(st.files, st.bound.value, st.text, o)
    ensures st.bound.Some? ==>
      if o.Completed? then r.status == Snapshot(r.text, r.bound, r.files, bytes) else r.status == st.status
    ensures StatusCurrent(st) ==> StatusCurrent(r)
    ensures Valid(st) ==> Valid(r)
  {
    match st.bound
    case Some(p) => SaveToFile(st, p, o, bytes)
    case None => SaveFileAs(st, choice, o, bytes)
  }

  // ---------------------------------------------------------------------
  // Properties relating the actions.

  /** The new document does not depend on the document before it. */
  lemma NewFileForgetsPrior(st1: State, st2: State, bytes: Text -> nat)
    requires st1.files == st2.files
    ensures NewFile(st1, bytes) == NewFile(st2, bytes)
  {
  }

  /** With no file bound, saving is saving-as: same chooser, same outcome, same state. */
  lemma SaveFileDelegates(st: State, choice: Option<Path>, o: WriteOutcome, bytes: Text -> nat)
    requires st.bound == None
    ensures SaveFile(st, choice, o, bytes) == SaveFileAs(st, choice, o, bytes)
  {
  }

  /** With a file bound, saving never asks for a path. */
  lemma SaveFileIgnoresChooserWhenBound(st: State, c1: Option<Path>, c2: Option<Path>, o: WriteOutcome, bytes: Text -> nat)
    requires st.bound.Some?
    ensures SaveFile(st, c1, o, bytes) == SaveFile(st, c2, o, bytes)
  {
  }

  /**
   * Save-as binds the chosen path even when the write failed: after a write
   * that could not open a new file, the editor is bound to a file that does
   * not exist and reports its size as 0.
   */
  lemma SaveFileAsBindsOnFailure(st: State, p: Path, o: WriteOutcome, bytes: Text -> nat)
    requires !o.Completed?
    ensures SaveFileAs(st, Some(p), o, bytes).bound == Some(p)
    ensures o.OpenFailed? ==> SaveFileAs(st, Some(p), o, bytes).files == st.files
    ensures o.OpenFailed? && p !in st.files ==>
      p !in SaveFileAs(st, Some(p), o, bytes).files && SaveFileAs(st, Some(p), o, bytes).status.fileSize == 0
  {
  }

  /**
   * Saving as `p`, then opening `p`: the same buffer, bound to `p`, and
   * nothing else changes. The buffer is one the text area holds, so the
   * filter keeps it as it is.
   */
  lemma SaveFileAsThenOpen(st: State, p: Path, bytes: Text -> nat)
    requires Storable(st.text)
    ensures var saved := SaveFileAs(st, Some(p), Completed, bytes);
      saved.text == st.text && saved.bound == Some(p) && OpenFile(saved, Some(p), false, bytes) == saved
  {
  }

  /** A completed save followed by opening the bound file restores the saved buffer. */
  lemma SaveFileThenOpen(st: State, choice: Option<Path>, bytes: Text -> nat)
    requires Storable(st.text)
    requires st.bound.Some? || choice.Some?
    ensures var saved := SaveFile(st, choice, Completed, bytes);
      saved.text == st.text && saved.bound.Some? && OpenFile(saved, saved.bound, false, bytes) == saved
  {
  }
}
