/**
 * The status line's metrics over the buffer text: the number of lines, as
 * `text.split("\n").length` computes it in Java, and the number of characters.
 */
module Lines {
  import opened Utf16

  /** Number of line feeds in `s`. */
  function Newlines(s: Text): (n: nat)
    ensures n <= |s|
    ensures n == 0 <==> LF !in s
  {
    if s == [] then 0
    else
      assert s == s[..|s| - 1] + [s[|s| - 1]];
      Newlines(s[..|s| - 1]) + (if s[|s| - 1] == LF then 1 else 0)
  }

  /** The longest prefix of `p` that does not end with `x`: `p` with every trailing `x` removed. */
  function DropTrailing<T(==)>(p: seq<T>, x: T): (r: seq<T>)
    ensures r <= p
    ensures r == [] || r[|r| - 1] != x
    ensures forall i :: |r| <= i < |p| ==> p[i] == x
  {
    if p != [] && p[|p| - 1] == x then DropTrailing(p[..|p| - 1], x) else p
  }

  /**
   * All the segments between line feeds, empty ones included: one more
   * segment than there are line feeds, none of them holding a line feed.
   */
  function Split(s: Text): (r: seq<Text>)
    ensures |r| == Newlines(s) + 1
    ensures forall i :: 0 <= i < |r| ==> LF !in r[i]
  {
    if s == [] then [[]]
    else
      var init := Split(s[..|s| - 1]);
      var c := s[|s| - 1];
      if c == LF then init + [[]]
      else init[..|init| - 1] + [init[|init| - 1] + [c]]
  }

  /** The segments glued back together with a line feed between each two. */
  function Join(parts: seq<Text>): Text
    requires |parts| >= 1
  {
    if |parts| == 1 then parts[0]
    else Join(parts[..|parts| - 1]) + [LF] + parts[|parts| - 1]
  }

  /**
   * Java's `s.split("\n")`: the input itself when it holds no line feed,
   * otherwise every segment with the trailing empty segments removed.
   */
  function SplitLines(s: Text): (r: seq<Text>)
    ensures LF !in s ==> r == [s]
    ensures LF in s ==> r <= Split(s) && (r == [] || r[|r| - 1] != [])
    ensures LF in s ==> forall i :: |r| <= i < |Split(s)| ==> Split(s)[i] == []
    ensures forall i :: 0 <= i < |r| ==> LF !in r[i]
  {
    if LF !in s then [s] else DropTrailing(Split(s), [])
  }

  /** The line count shown in the status line. */
  function LineCount(s: Text): (n: nat)
    ensures n <= Newlines(s) + 1
  {
    |SplitLines(s)|
  }

  /** The character count shown in the status line: UTF-16 code units, as `String.length()`. */
  function CharacterCount(s: Text): (n: nat)
    ensures n >= Newlines(s)
  {
    |s|
  }

  // ---------------------------------------------------------------------
  // Split and Join are inverse to each other.

  lemma JoinAppendsToLast(q: seq<Text>, c: CodeUnit)
    requires |q| >= 1
    ensures Join(q[..|q| - 1] + [q[|q| - 1] + [c]]) == Join(q) + [c]
  {
    var q' := q[..|q| - 1] + [q[|q| - 1] + [c]];
    if |q| > 1 {
      assert q'[..|q'| - 1] == q[..|q| - 1];
    }
  }

  /** Gluing the segments back together gives the text that was split. */
  lemma {:induction false} JoinSplit(s: Text)
    ensures Join(Split(s)) == s
  {
    if s != [] {
      var s', c := s[..|s| - 1], s[|s| - 1];
      assert s == s' + [c];
      var p := Split(s');
      JoinSplit(s');
      if c == LF {
        assert (p + [[]])[..|p|] == p;
      } else {
        JoinAppendsToLast(p, c);
      }
    }
  }

  lemma {:induction false} SplitWithoutNewline(s: Text)
    requires LF !in s
    ensures Split(s) == [s]
  {
    if s != [] {
      assert s == s[..|s| - 1] + [s[|s| - 1]];
      SplitWithoutNewline(s[..|s| - 1]);
    }
  }

  lemma {:induction false} SplitAfterNewline(x: Text, b: Text)
    requires LF !in b
    ensures Split(x + [LF] + b) == Split(x) + [b]
  {
    var s := x + [LF] + b;
    if b == [] {
      assert s[..|s| - 1] == x;
    } else {
      var b', c := b[..|b| - 1], b[|b| - 1];
      assert b == b' + [c];
      assert s[..|s| - 1] == x + [LF] + b';
      SplitAfterNewline(x, b');
    }
  }

  /** Splitting undoes gluing, for any non-empty list of segments free of line feeds. */
  lemma {:induction false} SplitJoin(parts: seq<Text>)
    requires |parts| >= 1
    requires forall i :: 0 <= i < |parts| ==> LF !in parts[i]
    ensures Split(Join(parts)) == parts
  {
    if |parts| == 1 {
      SplitWithoutNewline(parts[0]);
    } else {
      var init, last := parts[..|parts| - 1], parts[|parts| - 1];
      assert forall i :: 0 <= i < |init| ==> init[i] == parts[i];
      SplitJoin(init);
      assert LF !in last;
      assert Join(parts) == Join(init) + [LF] + last;
      SplitAfterNewline(Join(init), last);
      assert init + [last] == parts;
    }
  }

  // ---------------------------------------------------------------------
  // The line count against a reference formula.

  /** Trailing line feeds only add trailing empty segments, which Java drops. */
  lemma {:induction false} TrailingNewlinesDropped(s: Text)
    ensures DropTrailing(Split(s), []) == DropTrailing(Split(DropTrailing(s, LF)), [])
  {
    if s != [] && s[|s| - 1] == LF {
      var s' := s[..|s| - 1];
      var p := Split(s');
      assert (p + [[]])[..|p|] == p;
      TrailingNewlinesDropped(s');
    }
  }

  lemma LastSegmentNotEmpty(s: Text)
    requires s != [] && s[|s| - 1] != LF
    ensures Split(s)[|Split(s)| - 1] != []
  {
  }

  /**
   * The line count is 1 for the empty text, 0 for a text of line feeds only,
   * and otherwise one more than the line feeds left once the trailing line
   * feeds are removed.
   */
  lemma {:induction false} LineCountReference(s: Text)
    ensures LineCount(s) ==
      if s == [] then 1
      else if DropTrailing(s, LF) == [] then 0
      else Newlines(DropTrailing(s, LF)) + 1
  {
    var t := DropTrailing(s, LF);
    if LF !in s {
      assert LineCount(s) == 1;
      if s != [] {
        assert s[|s| - 1] in s;
        assert t == s;
      }
    } else {
      assert LineCount(s) == |DropTrailing(Split(s), [])|;
      TrailingNewlinesDropped(s);
      if t == [] {
        assert Split(t) == [[]];
      } else {
        LastSegmentNotEmpty(t);
        assert DropTrailing(Split(t), []) == Split(t);
      }
    }
  }

  /** A trailing line feed does not add a line, except after the empty text. */
  lemma TrailingNewlineAddsNoLine(s: Text)
    requires s != []
    ensures LineCount(s + [LF]) == LineCount(s)
  {
    assert (s + [LF])[..|s|] == s;
    LineCountReference(s);
    LineCountReference(s + [LF]);
  }

  /** Without a trailing line feed, every line feed starts one more line. */
  lemma {:induction false} LineCountWithoutTrailingNewline(s: Text)
    requires s == [] || s[|s| - 1] != LF
    ensures LineCount(s) == Newlines(s) + 1
  {
    LineCountReference(s);
  }

  /** The count is 0 exactly for a non-empty text made only of line feeds. */
  lemma LineCountZero(s: Text)
    ensures LineCount(s) == 0 <==> s != [] && forall i :: 0 <= i < |s| ==> s[i] == LF
  {
    LineCountReference(s);
  }

  /** The examples `""`, `"\n"`, `"a\nb"`, `"a\nb\n"` and `"\na"`. */
  lemma LineCountExamples()
    ensures LineCount([]) == 1
    ensures LineCount([LF]) == 0
    ensures LineCount([97, LF, 98]) == 2
    ensures LineCount([97, LF, 98, LF]) == 2
    ensures LineCount([LF, 97]) == 2
  {
    LineCountWithoutTrailingNewline([97, LF, 98]);
    TrailingNewlineAddsNoLine([97, LF, 98]);
    assert [97, LF, 98] + [LF] == [97, LF, 98, LF];
    LineCountWithoutTrailingNewline([LF, 97]);
    LineCountZero([LF]);
  }
}
