# Text editor document model

A model of the document handling of a small JavaFX text editor (`TextEditor`
in `main.java`): the text buffer, the file it is bound to (`currentFile`),
the four file actions New, Open, Save and Save As with their helper
`saveToFile`, and the status line computed by `updateStatus` (line count,
character count, size of the bound file).

- `utf16.dfy` (`Utf16`): a Java `String` is a sequence of UTF-16 code units,
  so the buffer is `seq<CodeUnit>`; `String.length()` is its length.
- `lines.dfy` (`Lines`): the line count `text.split("\n").length` with Java's
  `split` rules. A text without a line feed is one line. Otherwise it is split
  at every line feed and the trailing empty segments are dropped. `Split` and
  `Join` are proved inverse to each other. The line count is proved equal to a
  reference formula in terms of line feeds.
- `textarea.dfy` (`TextArea`): what the JavaFX `TextArea` keeps of the text
  passed to `setText` (main.java:102). Its input filter drops the control
  characters below 0x20 other than tab and line feed, and DEL (0x7F). So a
  file with CRLF endings is held with LF endings only. The filter is proved
  idempotent and proved to keep every line feed.
- `disk.dfy` (`Disk`): the file system is a map from paths to contents.
  Reads fail on a missing path or when the environment says so. A write
  either completes, fails to open (nothing changes), or is interrupted after
  the file was truncated (a prefix of the text remains). The `FileSystem`
  class holds the map and changes it in place.
- `status.dfy` (`StatusLine`): the numbers `updateStatus` shows.
- `document.dfy` (`Document`): every action as a function over the whole
  state (buffer, binding, status label, disk), with the properties that
  relate the actions.
- `editor.dfy` (`Editor`): the `TextEditor` class. Its fields change in
  place, and each method is proved to follow the function in `Document`.

The file chooser's answer is an `Option<Path>` argument (`None` = cancelled).
Whether a read fails is a `bool` argument, and how a write ends is a
`WriteOutcome` argument. The size in bytes of a text in the platform charset
is the file system's constant `bytes`, left abstract.

Three behaviours of the code that the model keeps:

- Java's `split` drops trailing empty segments, so `"a\nb\n"` has 2 lines
  and `"\n"` has 0 (`Lines.TrailingNewlineAddsNoLine`,
  `Lines.LineCountExamples`).
- `saveFileAs` binds the chosen file even after `saveToFile` has caught the
  `IOException` (main.java:124-125, 136-138). So the editor can end up bound
  to a file that was never written (`Document.SaveFileAsBindsOnFailure`).
- `openFile` and `saveToFile` print I/O errors and do not pass them on. The
  actions return nothing, and a failure shows only in the state after the
  call. After a failed save to the bound file the label is not recomputed and
  keeps its old size.

## Model

| member | source | states |
|---|---|---|
| Lines.Newlines | main.java:142 | the number of line feeds is at most the length, and 0 exactly when there is no line feed |
| Lines.DropTrailing | main.java:142 | the result is the longest prefix not ending in the dropped element; everything after it is that element |
| Lines.Split | main.java:142 | splitting at every line feed gives one more segment than there are line feeds, none containing a line feed |
| Lines.JoinSplit | main.java:142 | joining the segments with line feeds gives back the text |
| Lines.SplitJoin | main.java:142 | splitting a join of line-feed-free segments gives back the segments |
| Lines.SplitLines | main.java:142 | Java's `split("\n")`: a text without a line feed gives itself; otherwise a prefix of all segments that does not end in an empty one, everything after it being empty; no piece holds a line feed |
| Lines.LineCount | main.java:142 | the line count never exceeds the number of line feeds plus one |
| Lines.LineCountReference | main.java:142 | the line count is 1 for the empty text, 0 when the text is only line feeds, else the line feeds left after removing trailing ones, plus one |
| Lines.TrailingNewlineAddsNoLine | main.java:142 | appending a line feed to a non-empty text leaves the line count unchanged |
| Lines.LineCountWithoutTrailingNewline | main.java:142 | a text not ending in a line feed has one more line than line feeds |
| Lines.LineCountZero | main.java:142 | the count is 0 exactly when the text is non-empty and made only of line feeds |
| Lines.LineCountExamples | main.java:142 | `""` has 1 line, `"\n"` 0, `"a\nb"` 2, `"a\nb\n"` 2, `"\na"` 2 |
| Lines.CharacterCount | main.java:143 | the character count is the number of UTF-16 code units, never fewer than the line feeds |
| TextArea.Filtered | main.java:102 | the result can always be held, a text that can be held is kept as it is, no line feed is lost, and a single code unit is kept exactly when it is not a dropped control character |
| TextArea.FilteredConcat | main.java:102 | filtering a concatenation is concatenating the filtered parts, so with the single-unit case the kept text is the input minus exactly its dropped code units, in order |
| TextArea.FilteredIdempotent | main.java:102 | filtering a second time changes nothing |
| TextArea.FilteredCrLf | main.java:102 | `"a\r\nb"` is held as `"a\nb"`, which has 2 lines |
| Disk.Read | main.java:101 | a read succeeds exactly when the file exists and the environment does not fail it; it returns the file's whole content |
| Disk.AfterWrite | main.java:132-134 | a write touches only its path: a completed write stores the text, a write that fails to open changes nothing, an interrupted one leaves a prefix of the text |
| Disk.FileLength | main.java:145 | a missing file has length 0; an existing one has the byte length of its content |
| Disk.WriteThenRead | main.java:132-134 | reading a path after a completed write of a text returns that text |
| Disk.FileSystem.ReadString | main.java:101 | the read method returns what `Disk.Read` specifies for the current files and does not change them |
| Disk.FileSystem.Write | main.java:132-134 | the write method changes the files as `Disk.AfterWrite` says and reports success exactly for a completed write |
| StatusLine.FileSize | main.java:145 | the reported size is 0 when no file is bound or the bound file does not exist |
| StatusLine.Snapshot | main.java:141-146 | the status holds the buffer's line count and character count, and the size `FileSize` gives: 0 when no file is bound or the bound file is missing, otherwise its on-disk size |
| StatusLine.FileSizeIgnoresBuffer | main.java:145 | the reported size does not depend on the buffer |
| StatusLine.SnapshotExample | main.java:141-146 | `"hello\nworld"` with no file bound shows 2 lines, 11 characters, 0 bytes |
| Document.Refresh | main.java:141-150 | recomputing the label makes it current and changes nothing else; a bound existing file's size is its on-disk byte length |
| Document.Initial | main.java:33-43 | the editor starts with an empty buffer, no file, and a label showing 1 line, 0 characters, 0 bytes; the invariant holds |
| Document.NewFile | main.java:89-93 | New empties the buffer, drops the binding, leaves the disk alone, and the label shows 1 line, 0 characters, 0 bytes; the invariant holds |
| Document.OpenFile | main.java:95-109 | Open never changes the disk; cancel or a failed read changes nothing; a successful read puts the file's content, as the text area filters it, in the buffer, binds the file and recomputes the whole label from the disk; the invariant is kept |
| Document.SaveToFile | main.java:130-139 | writing keeps the buffer and the binding and changes the disk as the write outcome says; after a completed write the whole label is recomputed, after a failed one it is unchanged; the invariant is kept |
| Document.SaveFileAs | main.java:119-128 | Save As keeps the buffer; cancel changes nothing; otherwise the chosen path is bound whatever the write outcome, and the whole label is recomputed from the disk at that path; the invariant is kept |
| Document.SaveFile | main.java:111-117 | Save keeps the buffer; with a bound file it writes there and keeps the binding, and the label is recomputed after a completed write and left stale after a failed one; the invariant is kept |
| Document.NewFileForgetsPrior | main.java:89-93 | New gives the same state whatever the buffer, binding and label were before |
| Document.SaveFileDelegates | main.java:111-117 | with no bound file, Save is exactly Save As |
| Document.SaveFileIgnoresChooserWhenBound | main.java:111-117 | with a bound file, Save does not depend on any chooser answer |
| Document.SaveFileAsBindsOnFailure | main.java:121-138 | Save As binds the chosen path even when the write failed; after a failed open of a new file the bound file does not exist and its size shows as 0 |
| Document.SaveFileAsThenOpen | main.java:101-125 | for a buffer the text area can hold, after a completed Save As to p, opening p leaves the state exactly as it is: same buffer, bound to p |
| Document.SaveFileThenOpen | main.java:101-133 | for a buffer the text area can hold, after a completed Save, opening the bound file leaves the state exactly as it is |
| Editor.TextEditor.constructor | main.java:33-43 | the new editor is in the initial state and satisfies the invariant (storable buffer, current label) |
| Editor.TextEditor.UpdateStatus | main.java:141-150 | the method recomputes the label as `Document.Refresh` says, which re-establishes the invariant |
| Editor.TextEditor.NewFile | main.java:89-93 | the method changes the editor as `Document.NewFile` says and keeps the invariant |
| Editor.TextEditor.OpenFile | main.java:95-109 | the method changes the editor as `Document.OpenFile` says, the buffer taking the filtered content, and keeps the invariant |
| Editor.TextEditor.SaveFile | main.java:111-117 | the method changes the editor and the disk as `Document.SaveFile` says and keeps the invariant |
| Editor.TextEditor.SaveFileAs | main.java:119-128 | the method changes the editor and the disk as `Document.SaveFileAs` says and keeps the invariant |
| Editor.TextEditor.SaveToFile | main.java:130-139 | the method changes the label and the disk as `Document.SaveToFile` says and keeps the invariant |

## Left out

- Building the window and menus (`start` beyond its initial state, `createMenuBar`), the language dialog and menu rebuild (`showPreferencesDialog`, `updateLocalizedMenus`), and `System.exit`: user-interface wiring that does not touch the document.
- The file dialogs: each is modelled only by its answer, an `Option<Path>` argument.
- The text-change listener (main.java:34): it only refreshes the label after an edit. Every modelled action that changes the buffer refreshes the label itself afterwards, so the state after each action is the same. Typing in the text area is not modelled.
- Fonts (`changeFont`, the font name in the label): the font family is resolved by the toolkit and cannot be seen.
- The encoding name in the label (`System.getProperty("file.encoding")`) and the `String.format` text of the label: an environment read and formatting.
- Character encodings: `FileWriter` encodes in the platform charset and `Files.readString` decodes UTF-8. The model assumes they agree, and that every code unit of the buffer can be encoded, so a completed write reads back as the same text. That fails for texts `FileWriter` cannot encode: it writes an unpaired surrogate, or in a non-UTF-8 charset any character the charset lacks, as `'?'`. The byte length of a text in that charset is the abstract function `bytes`.
- Disk.AfterWrite: an interrupted write leaves a prefix measured in code units, not bytes, because encoded bytes are not modelled.
- The stack traces printed on I/O errors, and the `FileWriter` left open when a write fails: neither changes the document state.
- Integer widths: the counts are Java `int` and the size is a `long`. A `String` has fewer than 2^31 code units, so none of them can overflow.
