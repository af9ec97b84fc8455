/**
 * The editor window's document handling: the `TextEditor` object with its
 * buffer, bound file and status label, whose menu actions change them in place.
 */
module Editor {
  import opened Wrappers
  import opened Utf16
  import opened Disk
  import opened StatusLine
  import opened TextArea
  import Document

  class TextEditor {
    /** The content of the text area. */
    var text: Text
    /** `currentFile`: the file the buffer is bound to, if any. */
    var currentFile: Option<Path>
    /** What the status label shows. */
    var status: Status
    const fs: FileSystem

    ghost function State(): Document.State
      reads this, fs
    {
      Document.State(text, currentFile, status, fs.files)
    }

    ghost predicate Valid()
      reads this, fs
    {
      Document.Valid(State())
    }

    /** `start`: an empty text area, no file, and the label computed once. */
    constructor (fs: FileSystem)
      ensures this.fs == fs && State() == Document.Initial(fs.files, fs.bytes) && Valid()
    {
      this.fs := fs;
      text := [];
      currentFile := None;
      status := Status(0, 0, 0);
      new;
      UpdateStatus();
    }

    method UpdateStatus()
      requires Storable(text)
      modifies this`status
      ensures State() == Document.Refresh(old(State()), fs.bytes) && Valid()
    {
      status := Snapshot(text, currentFile, fs.files, fs.bytes);
    }

    method NewFile()
      requires Valid()
      modifies this
      ensures State() == Document.NewFile(old(State()), fs.bytes) && Valid()
    {
      text := [];
      currentFile := None;
      UpdateStatus();
    }

    /** `choice` is what the open dialog returned; `readFault` whether the environment fails the read. */
    method OpenFile(choice: Option<Path>, readFault: bool)
      requires Valid()
      modifies this
      ensures State() == Document.OpenFile(old(State()), choice, readFault, fs.bytes) && Valid()
    {
      if choice.Some? {
        var selected := choice.value;
        var content := fs.ReadString(selected, readFault);
        if content.Success? {
          text := Filtered(content.value);
          currentFile := Some(selected);
          UpdateStatus();
        }
      }
    }

    /** `choice` is what the save dialog would return if it is shown. */
    method SaveFile(choice: Option<Path>, o: WriteOutcome)
      requires Valid()
      modifies this, fs
      ensures State() == Document.SaveFile(old(State()), choice, o, fs.bytes) && Valid()
    {
      if currentFile.Some? {
        SaveToFile(currentFile.value, o);
      } else {
        SaveFileAs(choice, o);
      }
    }

    method SaveFileAs(choice: Option<Path>, o: WriteOutcome)
      requires Valid()
      modifies this, fs
      ensures State() == Document.SaveFileAs(old(State()), choice, o, fs.bytes) && Valid()
    {
      if choice.Some? {
        var selected := choice.value;
        SaveToFile(selected, o);
        currentFile := Some(selected);
        UpdateStatus();
      }
    }

    method SaveToFile(file: Path, o: WriteOutcome)
      requires Valid()
      modifies this`status, fs
      ensures State() == Document.SaveToFile(old(State()), file, o, fs.bytes) && Valid()
    {
      var ok := fs.Write(file, text, o);
      if ok {
        UpdateStatus();
      }
    }
  }
}
