/** `getParagraph`: from the cursor line, widen up and down to the nearest
    blank lines and return the trimmed text with its bounds. The editor is
    its sequence of lines. */
module Paragraph {
  import opened JsString

  /** `editor.getLine(i).trim() === ""`: by `TrimEmptyIff`, the line is
      all white space. */
  predicate IsBlank(line: string) {
    AllWhitespace(line)
  }

  /** The text the source accumulates: each line followed by "\n". */
  function JoinLines(lines: seq<string>): string
    decreases |lines|
  {
    if lines == [] then "" else JoinLines(lines[..|lines| - 1]) + lines[|lines| - 1] + "\n"
  }

  /** `[start, end]` is the paragraph around line `c`: it holds `c`, every
      other line in it is non-blank, and it cannot be widened. */
  predicate IsParagraphAround(lines: seq<string>, c: nat, start: nat, end: nat) {
    start <= c <= end < |lines|
    && (forall i :: start <= i <= end && i != c ==> !IsBlank(lines[i]))
    && (start == 0 || IsBlank(lines[start - 1]))
    && (end == |lines| - 1 || IsBlank(lines[end + 1]))
  }

  /** Reference definitions of the bounds: step up (down) one line at a
      time until the next line is blank or the note ends. */
  function ParagraphStart(lines: seq<string>, i: nat): nat
    requires i < |lines|
    decreases i
  {
    if i == 0 || IsBlank(lines[i - 1]) then i else ParagraphStart(lines, i - 1)
  }

  function ParagraphEnd(lines: seq<string>, i: nat): nat
    requires i < |lines|
    decreases |lines| - i
  {
    if i == |lines| - 1 || IsBlank(lines[i + 1]) then i else ParagraphEnd(lines, i + 1)
  }

  /** The paragraph text of the cursor line `c`. */
  function ParagraphText(lines: seq<string>, c: nat): string
    requires c < |lines|
  {
    ParagraphBounds(lines, c);
    Trim(JoinLines(lines[ParagraphStart(lines, c)..ParagraphEnd(lines, c) + 1]))
  }

  lemma {:induction false} ParagraphStartSpec(lines: seq<string>, i: nat)
    requires i < |lines|
    ensures var s := ParagraphStart(lines, i);
      s <= i && (s == 0 || IsBlank(lines[s - 1]))
      && forall k :: s <= k < i ==> !IsBlank(lines[k])
    decreases i
  {
    if !(i == 0 || IsBlank(lines[i - 1])) {
      ParagraphStartSpec(lines, i - 1);
    }
  }

  lemma {:induction false} ParagraphEndSpec(lines: seq<string>, i: nat)
    requires i < |lines|
    ensures var e := ParagraphEnd(lines, i);
      i <= e < |lines| && (e == |lines| - 1 || IsBlank(lines[e + 1]))
      && forall k :: i < k <= e ==> !IsBlank(lines[k])
    decreases |lines| - i
  {
    if !(i == |lines| - 1 || IsBlank(lines[i + 1])) {
      ParagraphEndSpec(lines, i + 1);
    }
  }

  /** The reference bounds are the paragraph around `c`. */
  lemma {:induction false} ParagraphBounds(lines: seq<string>, c: nat)
    requires c < |lines|
    ensures IsParagraphAround(lines, c, ParagraphStart(lines, c), ParagraphEnd(lines, c))
  {
    ParagraphStartSpec(lines, c);
    ParagraphEndSpec(lines, c);
  }

  /** `getParagraph(editor, currentLine)`: the three loops of the source,
      one method each. */
  method GetParagraph(lines: seq<string>, currentLine: nat) returns (text: string, start: nat, end: nat)
    requires currentLine < |lines|
    ensures IsParagraphAround(lines, currentLine, start, end)
    ensures text == Trim(JoinLines(lines[start..end + 1]))
    ensures start == ParagraphStart(lines, currentLine) && end == ParagraphEnd(lines, currentLine)
    ensures text == ParagraphText(lines, currentLine)
  {
    start := WidenUp(lines, currentLine);
    end := WidenDown(lines, currentLine);
    var paragraphText := JoinRange(lines, start, end);
    text := Trim(paragraphText);
    BoundsAreReference(lines, currentLine, start, end);
  }

  /** Moves `start` up while the line above is not blank. */
  method WidenUp(lines: seq<string>, currentLine: nat) returns (start: nat)
    requires currentLine < |lines|
    ensures start <= currentLine && (start == 0 || IsBlank(lines[start - 1]))
    ensures forall i :: start <= i < currentLine ==> !IsBlank(lines[i])
  {
    start := currentLine;
    while start > 0
      invariant start <= currentLine
      invariant forall i :: start <= i < currentLine ==> !IsBlank(lines[i])
    {
      var above := lines[start - 1];
      TrimEmptyIff(above);
      if Trim(above) == "" {
        break;
      }
      start := start - 1;
    }
  }

  /** Moves `end` down while the line below is not blank. */
  method WidenDown(lines: seq<string>, currentLine: nat) returns (end: nat)
    requires currentLine < |lines|
    ensures currentLine <= end < |lines| && (end == |lines| - 1 || IsBlank(lines[end + 1]))
    ensures forall i :: currentLine < i <= end ==> !IsBlank(lines[i])
  {
    end := currentLine;
    var totalLines := |lines|;
    while end < totalLines - 1
      invariant currentLine <= end < totalLines
      invariant forall i :: currentLine < i <= end ==> !IsBlank(lines[i])
    {
      TrimEmptyIff(lines[end + 1]);
      if Trim(lines[end + 1]) == "" {
        break;
      }
      end := end + 1;
    }
  }

  /** Appends each line of `[start, end]` and a newline. */
  method JoinRange(lines: seq<string>, start: nat, end: nat) returns (paragraphText: string)
    requires start <= end < |lines|
    ensures paragraphText == JoinLines(lines[start..end + 1])
  {
    paragraphText := "";
    for i := start to end + 1
      invariant paragraphText == JoinLines(lines[start..i])
    {
      JoinLinesSnoc(lines, start, i);
      paragraphText := paragraphText + lines[i] + "\n";
    }
  }

  lemma JoinLinesSnoc(lines: seq<string>, start: nat, i: nat)
    requires start <= i < |lines|
    ensures JoinLines(lines[start..i + 1]) == JoinLines(lines[start..i]) + lines[i] + "\n"
  {
    assert lines[start..i + 1][..i - start] == lines[start..i];
  }

  /** Any paragraph around `c` has the reference bounds. */
  lemma BoundsAreReference(lines: seq<string>, c: nat, start: nat, end: nat)
    requires IsParagraphAround(lines, c, start, end)
    ensures start == ParagraphStart(lines, c) && end == ParagraphEnd(lines, c)
  {
    ParagraphBounds(lines, c);
    ParagraphIsUnique(lines, c, start, end, ParagraphStart(lines, c), ParagraphEnd(lines, c));
  }

  /** The bounds are determined by the lines and the cursor. */
  lemma ParagraphIsUnique(lines: seq<string>, c: nat, s1: nat, e1: nat, s2: nat, e2: nat)
    requires IsParagraphAround(lines, c, s1, e1)
    requires IsParagraphAround(lines, c, s2, e2)
    ensures s1 == s2 && e1 == e2
  {
  }

  /** The joined text is all whitespace exactly when every line is blank. */
  lemma {:induction false} JoinLinesWhitespace(lines: seq<string>)
    ensures AllWhitespace(JoinLines(lines)) <==> forall i :: 0 <= i < |lines| ==> IsBlank(lines[i])
    decreases |lines|
  {
    if lines != [] {
      var init, last := lines[..|lines| - 1], lines[|lines| - 1];
      JoinLinesWhitespace(init);
      TrimEmptyIff(last);
      var j := JoinLines(init);
      assert JoinLines(lines) == j + last + "\n";
      assert AllWhitespace(j + last + "\n") <==> AllWhitespace(j) && AllWhitespace(last) by {
        if AllWhitespace(j + last + "\n") {
          assert forall i :: 0 <= i < |j| ==> (j + last + "\n")[i] == j[i];
          assert forall i :: 0 <= i < |last| ==> (j + last + "\n")[|j| + i] == last[i];
        }
      }
      assert forall i :: 0 <= i < |init| ==> init[i] == lines[i];
    }
  }

  /** The text is empty, so the task command stops, exactly when the
      paragraph is the cursor line alone and that line is blank. */
  lemma {:induction false} ParagraphTextEmpty(lines: seq<string>, c: nat)
    requires c < |lines|
    ensures ParagraphText(lines, c) == [] <==>
      ParagraphStart(lines, c) == ParagraphEnd(lines, c) && IsBlank(lines[c])
  {
    var start, end := ParagraphStart(lines, c), ParagraphEnd(lines, c);
    ParagraphBounds(lines, c);
    JoinedTextEmpty(lines, c, start, end);
  }

  lemma JoinedTextEmpty(lines: seq<string>, c: nat, start: nat, end: nat)
    requires IsParagraphAround(lines, c, start, end)
    ensures Trim(JoinLines(lines[start..end + 1])) == [] <==> start == end && IsBlank(lines[c])
  {
    var ls := lines[start..end + 1];
    TrimEmptyIff(JoinLines(ls));
    JoinLinesWhitespace(ls);
    if start < end {
      var other := if c == start then end else start;
      assert !IsBlank(ls[other - start]);
    } else {
      assert ls[0] == lines[c];
    }
  }
}
