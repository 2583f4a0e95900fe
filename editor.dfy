// The editor buffer: CodeMirror's (line, ch) positions over a flat text, the
// position arithmetic the image widget does by hand before calling
// `posToOffset`, and the edit operations the plugin uses on the buffer.

module Editor {
  import opened Text

  /** `EditorPosition`: a zero-based line and a character offset in that line. */
  datatype Pos = Pos(line: nat, ch: int)

  /** The offset where line `n` starts: just after the `n`-th line break. */
  function LineStart(content: string, n: nat): nat
  {
    if n == 0 then 0
    else
      var p := LineStart(content, n - 1);
      if p > |content| then p else FindChar(content, p, '\n') + 1
  }

  /** `editor.posToOffset(pos)`. */
  function PosToOffset(content: string, pos: Pos): int
  {
    LineStart(content, pos.line) + pos.ch
  }

  /** `editor.offsetToPos(offset)`: the line holding the offset and the distance from
      that line's start. */
  function OffsetToPos(content: string, offset: nat): (r: Pos)
    requires offset <= |content|
    ensures PosToOffset(content, r) == offset
  {
    var line := CountChar(content[..offset], '\n');
    Pos(line, offset - LineStart(content, line))
  }

  /** The position the image widget computes for a match at `index`:
      `line = content.substring(0, index).split('\n').length - 1` and
      `ch = index - content.lastIndexOf('\n', index) - 1`. */
  function SourcePos(content: string, index: nat): Pos
    requires index <= |content|
  {
    Pos(|Split(content[..index], '\n')| - 1, index - LastIndexOf(content, "\n", index) - 1)
  }

  lemma NewlineAt(content: string, j: int)
    requires 0 <= j < |content|
    ensures OccursAt(content, "\n", j) <==> content[j] == '\n'
  {
    if content[j] == '\n' {
      assert content[j..j + 1] == "\n";
    } else {
      assert content[j..j + 1][0] == content[j];
    }
  }

  /** The line holding `i` starts right after the last line break before `i`. */
  lemma {:induction false} LineStartOfCount(content: string, i: nat)
    requires i <= |content|
    ensures LineStart(content, CountChar(content[..i], '\n')) == LastIndexOf(content, "\n", i - 1) + 1
  {
    if i == 0 {
      assert content[..i] == [];
    } else {
      LineStartOfCount(content, i - 1);
      LineStartStep(content, i - 1);
    }
  }

  /** One character further: a line break starts a new line, any other character
      stays on the same line. */
  lemma LineStartStep(content: string, j: nat)
    requires j < |content|
    requires LineStart(content, CountChar(content[..j], '\n')) == LastIndexOf(content, "\n", j - 1) + 1
    ensures LineStart(content, CountChar(content[..j + 1], '\n')) == LastIndexOf(content, "\n", j) + 1
  {
    if content[j] == '\n' {
      StepOverBreak(content, j);
    } else {
      StepWithinLine(content, j);
    }
  }

  lemma StepOverBreak(content: string, j: nat)
    requires j < |content| && content[j] == '\n'
    requires LineStart(content, CountChar(content[..j], '\n')) == LastIndexOf(content, "\n", j - 1) + 1
    ensures LineStart(content, CountChar(content[..j + 1], '\n')) == LastIndexOf(content, "\n", j) + 1
  {
    CountLast(content, j);
    LastBreakStep(content, j);
    NoBreakAfterLast(content, j);
    LineStartAfterBreak(content, j, CountChar(content[..j], '\n'), LastIndexOf(content, "\n", j - 1));
  }

  lemma StepWithinLine(content: string, j: nat)
    requires j < |content| && content[j] != '\n'
    requires LineStart(content, CountChar(content[..j], '\n')) == LastIndexOf(content, "\n", j - 1) + 1
    ensures LineStart(content, CountChar(content[..j + 1], '\n')) == LastIndexOf(content, "\n", j) + 1
  {
    CountLast(content, j);
    LastBreakStep(content, j);
  }

  lemma CountLast(content: string, j: nat)
    requires j < |content|
    ensures CountChar(content[..j + 1], '\n') == CountChar(content[..j], '\n') + (if content[j] == '\n' then 1 else 0)
  {
    assert content[..j + 1][..j] == content[..j];
  }

  lemma LastBreakStep(content: string, j: nat)
    requires j < |content|
    ensures content[j] == '\n' ==> LastIndexOf(content, "\n", j) == j
    ensures content[j] != '\n' ==> LastIndexOf(content, "\n", j) == LastIndexOf(content, "\n", j - 1)
  {
    NewlineAt(content, j);
  }

  lemma NoBreakAfterLast(content: string, j: nat)
    requires j < |content|
    ensures forall m :: LastIndexOf(content, "\n", j - 1) < m < j ==> content[m] != '\n'
  {
    forall m | LastIndexOf(content, "\n", j - 1) < m < j
      ensures content[m] != '\n'
    {
      NewlineAt(content, m);
    }
  }

  lemma LineStartAfterBreak(content: string, j: nat, k: nat, l: int)
    requires j < |content| && content[j] == '\n' && -1 <= l < j
    requires LineStart(content, k) == l + 1
    requires forall m :: l < m < j ==> content[m] != '\n'
    ensures LineStart(content, k + 1) == j + 1
  {
    assert FindChar(content, l + 1, '\n') == j;
  }

  /** The hand-computed position is the editor's own position of the offset whenever the
      offset does not sit on a line break (a match never starts on one), so
      `posToOffset` gives back the match index. */
  lemma SourcePosIsEditorPos(content: string, index: nat)
    requires index <= |content|
    requires index == |content| || content[index] != '\n'
    ensures SourcePos(content, index) == OffsetToPos(content, index)
    ensures PosToOffset(content, SourcePos(content, index)) == index
  {
    SplitCount(content[..index], '\n');
    LineStartOfCount(content, index);
    if index < |content| {
      NewlineAt(content, index);
    }
  }

  /** Text inserted at a position leaves that position, and every line start up to it,
      where it was: a cursor the editor keeps still inserts at the same offset again. */
  lemma InsertKeepsPos(content: string, pos: Pos, ins: string)
    requires 0 <= pos.ch && PosToOffset(content, pos) <= |content|
    ensures var o := PosToOffset(content, pos);
            PosToOffset(Splice(content, o, o, ins), pos) == o
  {
    var o := PosToOffset(content, pos);
    var t := Splice(content, o, o, ins);
    LineStartKept(content, t, o, pos.line);
  }

  lemma {:induction false} LineStartKept(s: string, t: string, o: nat, n: nat)
    requires o <= |s| && o <= |t| && s[..o] == t[..o] && LineStart(s, n) <= o
    ensures LineStart(t, n) == LineStart(s, n)
  {
    if n > 0 {
      var p := LineStart(s, n - 1);
      LineStartKept(s, t, o, n - 1);
      FindCharKept(s, t, o, p);
    }
  }

  /** Below an unchanged prefix, the next line break is found at the same place. */
  lemma FindCharKept(s: string, t: string, o: nat, p: nat)
    requires p <= o <= |s| && o <= |t| && s[..o] == t[..o] && FindChar(s, p, '\n') < o
    ensures FindChar(t, p, '\n') == FindChar(s, p, '\n')
  {
    var f := FindChar(s, p, '\n');
    assert forall j :: 0 <= j < o ==> t[j] == t[..o][j] == s[..o][j] == s[j];
  }

  /** The editor's text, with the two edits the plugin makes. */
  class EditorBuffer {
    var text: string

    constructor(initial: string)
      ensures text == initial
    {
      text := initial;
    }

    /** `editor.setValue(value)`. */
    method SetValue(value: string)
      modifies this
      ensures text == value
    {
      text := value;
    }

    /** `editor.replaceRange(replacement, from, to)`. */
    method ReplaceRange(replacement: string, from: Pos, to: Pos)
      requires 0 <= PosToOffset(text, from) <= PosToOffset(text, to) <= |text|
      modifies this
      ensures text == Splice(old(text), PosToOffset(old(text), from), PosToOffset(old(text), to), replacement)
    {
      text := Splice(text, PosToOffset(text, from), PosToOffset(text, to), replacement);
    }
  }
}
