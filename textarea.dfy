/**
 * What the JavaFX text area keeps of a text it is given: `setText` and
 * `clear` store their argument through the control's input filter, which
 * drops the control characters below 0x20 other than tab and line feed, and
 * DEL (0x7F). A carriage return is dropped, so a file with CRLF line endings
 * is held with LF endings only.
 */
module TextArea {
  import opened Utf16
  import opened Lines

  const TAB: CodeUnit := 9
  const DEL: CodeUnit := 0x7F

  /** The code units the text area's filter removes. */
  predicate Dropped(c: CodeUnit)
  {
    c == DEL || (c < 0x20 && c != TAB && c != LF)
  }

  /** A text the text area can hold as it is. */
  predicate Storable(t: Text)
  {
    t == [] || (Storable(t[..|t| - 1]) && !Dropped(t[|t| - 1]))
  }

  /**
   * The text the area holds after `setText(t)`: `t` without its dropped code
   * units. The result can always be held, a text that can be held is kept as
   * it is, and no line feed is lost. A single code unit is kept exactly when
   * it is not dropped; with `FilteredConcat` this fixes the result for every
   * text.
   */
  function Filtered(t: Text): (r: Text)
    ensures Storable(r)
    ensures Storable(t) ==> r == t
    ensures |r| <= |t|
    ensures Newlines(r) == Newlines(t)
    ensures |t| == 1 ==> r == (if Dropped(t[0]) then [] else t)
  {
    if t == [] then []
    else
      var init, c := t[..|t| - 1], t[|t| - 1];
      var r' := Filtered(init);
      FilteredStep(init, c, r');
      if Dropped(c) then r' else r' + [c]
  }

  /** One step of `Filtered`: what holds of the filtered prefix carries over to one more code unit. */
  lemma FilteredStep(init: Text, c: CodeUnit, r': Text)
    requires Storable(r') && (Storable(init) ==> r' == init)
    requires |r'| <= |init| && Newlines(r') == Newlines(init)
    requires init == [] ==> r' == []
    ensures var t, r := init + [c], if Dropped(c) then r' else r' + [c];
      Storable(r) && (Storable(t) ==> r == t) && |r| <= |t| && Newlines(r) == Newlines(t)
      && (|t| == 1 ==> r == (if Dropped(t[0]) then [] else t))
  {
    var t := init + [c];
    assert t[..|init|] == init;
    if !Dropped(c) {
      assert (r' + [c])[..|r'|] == r';
    }
  }

  /** Filtering twice is filtering once. */
  lemma FilteredIdempotent(t: Text)
    ensures Filtered(Filtered(t)) == Filtered(t)
  {
  }

  /** `"a\r\nb"` is held as `"a\nb"`: 2 lines, 3 characters. */
  lemma FilteredCrLf()
    ensures Filtered([97, 13, LF, 98]) == [97, LF, 98]
    ensures LineCount(Filtered([97, 13, LF, 98])) == 2
  {
    FilteredCrLfText();
    var a: Text, b: Text := [97], [98];
    assert a + [LF] + b == [97, LF, 98];
    SplitAfterNewline(a, b);
    SplitWithoutNewline(a);
    LineCountWithoutTrailingNewline(a + [LF] + b);
  }

  /** The filter works code unit by code unit: filtering a concatenation concatenates the filtered parts. */
  lemma {:induction false} FilteredConcat(x: Text, y: Text)
    ensures Filtered(x + y) == Filtered(x) + Filtered(y)
  {
    if y != [] {
      var y', c := y[..|y| - 1], y[|y| - 1];
      assert y == y' + [c];
      assert x + y == (x + y') + [c];
      FilteredConcat(x, y');
      FilteredAppend(x + y', c);
      FilteredAppend(y', c);
    } else {
      assert x + y == x;
    }
  }

  lemma FilteredAppend(x: Text, c: CodeUnit)
    ensures Filtered(x + [c]) == Filtered(x) + (if Dropped(c) then [] else [c])
  {
    assert (x + [c])[..|x|] == x;
  }

  lemma FilteredCrLfText()
    ensures Filtered([97, 13, LF, 98]) == [97, LF, 98]
  {
    var a: Text := [97];
    assert Filtered(a) == a;
    FilteredAppend(a, 13);
    FilteredAppend(a + [13], LF);
    FilteredAppend(a + [13] + [LF], 98);
    assert a + [13] + [LF] + [98] == [97, 13, LF, 98];
  }
}
