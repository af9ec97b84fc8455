/**
 * A Java `String` is a sequence of UTF-16 code units: `length()` counts code
 * units and `split` matches code units, so the editor's buffer is modelled as
 * such a sequence rather than as Dafny's `string`.
 */
module Utf16 {
  newtype CodeUnit = x: int | 0 <= x < 0x1_0000

  type Text = seq<CodeUnit>

  /** The line feed `'\n'`, the only separator the status line splits on. */
  const LF: CodeUnit := 10
}
