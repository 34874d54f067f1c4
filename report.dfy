/**
 * Two text rules of the benchmark report `benchmarking/tests/utils/report.py`:
 * the word wrap `add_recordings_to_report` applies to every text value of
 * a recording's meta data, and the border and fill of the rows of
 * `Report._add_table`.
 */
module Report {

  // ---------------------------------------------------------------------
  // str.split(" ") and its inverse

  /** `s.split(" ")`: the pieces between single spaces (empty ones included); never empty. */
  function SplitSpace(s: string): (r: seq<string>)
    ensures |r| >= 1
    decreases |s|
  {
    if |s| == 0 then [""]
    else if s[0] == ' ' then [""] + SplitSpace(s[1..])
    else
      var rest := SplitSpace(s[1..]);
      [[s[0]] + rest[0]] + rest[1..]
  }

  /** `sep.join(ws)`. */
  function Join(ws: seq<string>, sep: string): string
    decreases |ws|
  {
    if |ws| == 0 then "" else if |ws| == 1 then ws[0] else ws[0] + sep + Join(ws[1..], sep)
  }

  /** Joining the pieces with single spaces gives the string back. */
  lemma {:induction false} SplitSpaceJoin(s: string)
    ensures Join(SplitSpace(s), " ") == s
    decreases |s|
  {
    if |s| > 0 {
      SplitSpaceJoin(s[1..]);
      var rest := SplitSpace(s[1..]);
      var r := SplitSpace(s);
      if s[0] == ' ' {
        assert r[1..] == rest;
        assert s == " " + s[1..];
        assert Join(r, " ") == r[0] + " " + Join(r[1..], " ");
      } else {
        assert s == [s[0]] + s[1..];
        if |rest| > 1 {
          assert r[1..] == rest[1..];
          assert Join(r, " ") == r[0] + " " + Join(rest[1..], " ");
          assert Join(rest, " ") == rest[0] + " " + Join(rest[1..], " ");
        } else {
          assert r == [[s[0]] + rest[0]];
        }
        assert Join(r, " ") == [s[0]] + Join(rest, " ");
      }
    }
  }

  /**
   * No piece holds a space, nor any character `ch` that the string does
   * not hold.
   */
  lemma {:induction false} SplitSpacePieces(s: string, ch: char)
    ensures forall k :: 0 <= k < |SplitSpace(s)| ==> ' ' !in SplitSpace(s)[k]
    ensures ch !in s ==> forall k :: 0 <= k < |SplitSpace(s)| ==> ch !in SplitSpace(s)[k]
    decreases |s|
  {
    if |s| > 0 {
      SplitSpacePieces(s[1..], ch);
      var rest := SplitSpace(s[1..]);
      var r := SplitSpace(s);
      if ch !in s {
        assert ch !in s[1..] by {
          if ch in s[1..] {
            InTail(ch, s);
          }
        }
      }
      if s[0] == ' ' {
        assert forall k :: 0 < k < |r| ==> r[k] == rest[k - 1];
      } else {
        assert forall k :: 0 < k < |r| ==> r[k] == rest[k];
      }
    }
  }

  lemma InTail(ch: char, s: string)
    requires |s| > 0 && ch in s[1..]
    ensures ch in s
  {
    var i :| 0 <= i < |s[1..]| && s[1..][i] == ch;
    assert s[i + 1] == ch;
  }

  // ---------------------------------------------------------------------
  // The wrap

  /** The longest a line may grow, in characters other than spaces. */
  const LineWidth := 60

  /**
   * What the wrap loop appends for the words `ws` when the counter starts
   * at `counter`: a word that would bring the counter to `LineWidth` or
   * more starts a new line and restarts the counter at its own length.
   */
  function WrapFrom(ws: seq<string>, counter: int): string
    decreases |ws|
  {
    if |ws| == 0 then ""
    else if counter + |ws[0]| < LineWidth then ws[0] + " " + WrapFrom(ws[1..], counter + |ws[0]|)
    else "\n" + ws[0] + " " + WrapFrom(ws[1..], |ws[0]|)
  }

  /** `ws` with a space after each word. */
  function Spaced(ws: seq<string>): string
    decreases |ws|
  {
    if |ws| == 0 then "" else ws[0] + " " + Spaced(ws[1..])
  }

  /** `s` with its line breaks removed. */
  function DropNewlines(s: string): (r: string)
    ensures |r| <= |s|
    decreases |s|
  {
    if |s| == 0 then "" else (if s[0] == '\n' then "" else [s[0]]) + DropNewlines(s[1..])
  }

  lemma {:induction false} DropNewlinesAppend(a: string, b: string)
    ensures DropNewlines(a + b) == DropNewlines(a) + DropNewlines(b)
    decreases |a|
  {
    if |a| > 0 {
      assert (a + b)[1..] == a[1..] + b;
      DropNewlinesAppend(a[1..], b);
    } else {
      assert a + b == b;
    }
  }

  lemma {:induction false} DropNewlinesNone(s: string)
    requires '\n' !in s
    ensures DropNewlines(s) == s
    decreases |s|
  {
    if |s| > 0 {
      DropNewlinesNone(s[1..]);
      assert s == [s[0]] + s[1..];
    }
  }

  /**
   * The wrap only adds line breaks: without them the output is the words
   * in order, each followed by exactly one space.
   */
  lemma {:induction false} WrapOnlyAddsBreaks(ws: seq<string>, counter: int)
    requires forall k :: 0 <= k < |ws| ==> '\n' !in ws[k]
    ensures DropNewlines(WrapFrom(ws, counter)) == Spaced(ws)
    decreases |ws|
  {
    if |ws| > 0 {
      var c := if counter + |ws[0]| < LineWidth then counter + |ws[0]| else |ws[0]|;
      WrapOnlyAddsBreaks(ws[1..], c);
      if counter + |ws[0]| < LineWidth {
        PlainPieceDrops(ws[0], WrapFrom(ws[1..], c));
      } else {
        BrokenPieceDrops(ws[0], WrapFrom(ws[1..], c));
      }
    }
  }

  /** Dropping the line breaks of a word with its space, then more text. */
  lemma PlainPieceDrops(w: string, rest: string)
    requires '\n' !in w
    ensures DropNewlines(w + " " + rest) == w + " " + DropNewlines(rest)
  {
    DropNewlinesNone(w + " ");
    DropNewlinesAppend(w + " ", rest);
  }

  /** The same after a line break, which is dropped. */
  lemma BrokenPieceDrops(w: string, rest: string)
    requires '\n' !in w
    ensures DropNewlines("\n" + w + " " + rest) == w + " " + DropNewlines(rest)
  {
    PlainPieceDrops(w, rest);
    DropNewlinesAppend("\n", w + " " + rest);
    assert "\n" + w + " " + rest == "\n" + (w + " " + rest);
  }

  /** Spacing the pieces of a split gives the value back with one trailing space. */
  lemma {:induction false} SpacedJoin(ws: seq<string>)
    requires |ws| >= 1
    ensures Spaced(ws) == Join(ws, " ") + " "
    decreases |ws|
  {
    if |ws| > 1 {
      SpacedJoin(ws[1..]);
    }
  }

  /**
   * The wrap loop for one text value: `new_value` accumulates the words of
   * `value.split(" ")` and `counter` the characters on the current line.
   */
  method WrapText(value: string) returns (newValue: string)
    ensures newValue == WrapFrom(SplitSpace(value), 0)
  {
    var words := SplitSpace(value);
    newValue := "";
    var counter := 0;
    for i := 0 to |words|
      invariant newValue + WrapFrom(words[i..], counter) == WrapFrom(words, 0)
    {
      var word := words[i];
      assert words[i..][1..] == words[i + 1..];
      if counter + |word| < LineWidth {
        newValue := newValue + word + " ";
        counter := counter + |word|;
      } else {
        newValue := newValue + "\n";
        newValue := newValue + word + " ";
        counter := |word|;
      }
    }
  }

  /**
   * A wrapped text without line breaks of its own reads, once the added
   * breaks are taken out, as the text with a space appended.
   */
  lemma WrapKeepsText(value: string)
    requires '\n' !in value
    ensures DropNewlines(WrapFrom(SplitSpace(value), 0)) == value + " "
  {
    var ws := SplitSpace(value);
    SplitSpaceJoin(value);
    SplitSpacePieces(value, '\n');
    WrapOnlyAddsBreaks(ws, 0);
    SpacedJoin(ws);
  }

  /** The characters after the last line break. */
  function LastLine(s: string): string
    decreases |s|
  {
    if |s| == 0 then "" else if s[|s| - 1] == '\n' then "" else LastLine(s[..|s| - 1]) + [s[|s| - 1]]
  }

  /** The number of characters other than spaces. */
  function Letters(s: string): (n: nat)
    ensures n <= |s|
    decreases |s|
  {
    if |s| == 0 then 0 else Letters(s[..|s| - 1]) + (if s[|s| - 1] == ' ' then 0 else 1)
  }

  lemma {:induction false} LastLineAppend(s: string, t: string)
    requires '\n' !in t
    ensures LastLine(s + t) == LastLine(s) + t
    decreases |t|
  {
    if |t| == 0 {
      assert s + t == s;
    } else {
      var n := |t| - 1;
      assert (s + t)[..|s + t| - 1] == s + t[..n];
      LastLineAppend(s, t[..n]);
      assert t == t[..n] + [t[n]];
    }
  }

  lemma {:induction false} LettersAppend(s: string, t: string)
    ensures Letters(s + t) == Letters(s) + Letters(t)
    decreases |t|
  {
    if |t| == 0 {
      assert s + t == s;
    } else {
      var n := |t| - 1;
      assert (s + t)[..|s + t| - 1] == s + t[..n];
      LettersAppend(s, t[..n]);
    }
  }

  lemma {:induction false} LettersNoSpace(w: string)
    requires ' ' !in w
    ensures Letters(w) == |w|
    decreases |w|
  {
    if |w| > 0 {
      LettersNoSpace(w[..|w| - 1]);
    }
  }

  /**
   * The counter is the number of non-space characters on the current line:
   * if it is that for the text `acc` written so far, it is that again after
   * the next word is written (spaces never count), and the current line
   * then holds fewer than `LineWidth` such characters or just this one word.
   */
  lemma CounterIsLineLetters(acc: string, w: string, counter: int)
    requires ' ' !in w && '\n' !in w
    requires counter == Letters(LastLine(acc))
    ensures var brk := counter + |w| >= LineWidth;
            var piece := (if brk then "\n" else "") + w + " ";
            Letters(LastLine(acc + piece)) == (if brk then |w| else counter + |w|) &&
            (Letters(LastLine(acc + piece)) < LineWidth || LastLine(acc + piece) == w + " ")
  {
    WordLetters(w);
    if counter + |w| >= LineWidth {
      BreakLine(acc, w);
      assert ("\n" + w + " ") == (if counter + |w| >= LineWidth then "\n" else "") + w + " ";
    } else {
      SameLine(acc, w);
      assert (w + " ") == (if counter + |w| >= LineWidth then "\n" else "") + w + " ";
    }
  }

  /** A word and its space count as the word's length. */
  lemma WordLetters(w: string)
    requires ' ' !in w && '\n' !in w
    ensures Letters(w + " ") == |w| && '\n' !in w + " "
  {
    LettersNoSpace(w);
    LettersAppend(w, " ");
    assert Letters(" ") == 0;
  }

  /** After a break, the current line is the word and its space. */
  lemma BreakLine(acc: string, w: string)
    requires '\n' !in w + " "
    ensures LastLine(acc + ("\n" + w + " ")) == w + " "
  {
    var t := w + " ";
    LastLineAppend(acc + "\n", t);
    assert acc + ("\n" + w + " ") == (acc + "\n") + t;
    var u := acc + "\n";
    assert u[|u| - 1] == '\n';
    assert LastLine(u) == "";
  }

  /** Without a break, the word and its space extend the current line. */
  lemma SameLine(acc: string, w: string)
    requires '\n' !in w + " "
    ensures LastLine(acc + (w + " ")) == LastLine(acc) + (w + " ")
    ensures Letters(LastLine(acc) + (w + " ")) == Letters(LastLine(acc)) + Letters(w + " ")
  {
    LastLineAppend(acc, w + " ");
    LettersAppend(LastLine(acc), w + " ");
  }

  /**
   * One step of the wrap, read against the text written so far: the word
   * starts a new line exactly when the line's non-space characters and the
   * word's would reach `LineWidth`, and the rest is wrapped with the counter
   * at the new line's count.
   */
  lemma WrapStep(acc: string, w: string, ws: seq<string>, counter: int)
    requires ' ' !in w && '\n' !in w
    requires counter == Letters(LastLine(acc))
    ensures var brk := Letters(LastLine(acc)) + |w| >= LineWidth;
            var piece := (if brk then "\n" else "") + w + " ";
            acc + WrapFrom([w] + ws, counter) == (acc + piece) + WrapFrom(ws, Letters(LastLine(acc + piece)))
  {
    CounterIsLineLetters(acc, w, counter);
    var brk := counter + |w| >= LineWidth;
    var piece := (if brk then "\n" else "") + w + " ";
    var rest := WrapFrom(ws, if brk then |w| else counter + |w|);
    WrapFirst(w, ws, counter);
    assert acc + (piece + rest) == (acc + piece) + rest;
  }

  /** The first word of a wrap, with the counter it leaves for the rest. */
  lemma WrapFirst(w: string, ws: seq<string>, counter: int)
    ensures var brk := counter + |w| >= LineWidth;
            WrapFrom([w] + ws, counter) ==
              ((if brk then "\n" else "") + w + " ") + WrapFrom(ws, if brk then |w| else counter + |w|)
  {
    assert ([w] + ws)[1..] == ws && ([w] + ws)[0] == w;
    if counter + |w| >= LineWidth {
      assert "\n" + w + " " + WrapFrom(ws, |w|) == ("\n" + w + " ") + WrapFrom(ws, |w|);
    } else {
      assert w + " " + WrapFrom(ws, counter + |w|) == ("" + w + " ") + WrapFrom(ws, counter + |w|);
    }
  }

  /** Words that fit on one line together are never broken apart. */
  lemma {:induction false} ShortTextUnbroken(ws: seq<string>, counter: int)
    requires forall k :: 0 <= k < |ws| ==> '\n' !in ws[k]
    requires counter + TotalLength(ws) < LineWidth
    ensures WrapFrom(ws, counter) == Spaced(ws)
    decreases |ws|
  {
    if |ws| > 0 {
      ShortTextUnbroken(ws[1..], counter + |ws[0]|);
    }
  }

  /** The summed lengths of the words. */
  function TotalLength(ws: seq<string>): (n: nat)
    decreases |ws|
  {
    if |ws| == 0 then 0 else |ws[0]| + TotalLength(ws[1..])
  }

  // ---------------------------------------------------------------------
  // Meta data

  /** A meta-data value: text is wrapped, anything else is kept as it is. */
  datatype MetaValue = Text(s: string) | Other(repr: string)

  /**
   * The loop over `meta_data.items()`: every text value is replaced by its
   * wrapped form; keys, order and the other values are unchanged.
   */
  method WrapMetaData(meta: seq<(string, MetaValue)>) returns (res: seq<(string, MetaValue)>)
    ensures |res| == |meta|
    ensures forall k :: 0 <= k < |meta| ==> res[k].0 == meta[k].0
    ensures forall k :: 0 <= k < |meta| ==>
              res[k].1 == (if meta[k].1.Text? then Text(WrapFrom(SplitSpace(meta[k].1.s), 0)) else meta[k].1)
  {
    res := meta;
    for i := 0 to |meta|
      invariant |res| == |meta|
      invariant forall k :: 0 <= k < |meta| ==> res[k].0 == meta[k].0
      invariant forall k :: 0 <= k < i ==>
                  res[k].1 == (if meta[k].1.Text? then Text(WrapFrom(SplitSpace(meta[k].1.s), 0)) else meta[k].1)
      invariant forall k :: i <= k < |meta| ==> res[k] == meta[k]
    {
      if res[i].1.Text? {
        var wrapped := WrapText(res[i].1.s);
        res := res[i := (res[i].0, Text(wrapped))];
      }
    }
  }

  // ---------------------------------------------------------------------
  // Table rows

  /** The style of one table row: its border, whether it is filled, and the key cell's height. */
  datatype RowStyle = RowStyle(border: string, fill: bool, keyHeight: int, multiLine: bool)

  /** The number of line breaks in a string: `str.count("\n")`. */
  function Newlines(s: string): (n: nat)
    ensures n <= |s|
    decreases |s|
  {
    if |s| == 0 then 0 else (if s[0] == '\n' then 1 else 0) + Newlines(s[1..])
  }

  /**
   * The row loop of `_add_table` over the rows' printed values: every row
   * but the last has border `"LR"`, the last `"LRB"`; the fill starts off
   * and alternates, so exactly the odd rows are filled; the key cell is 6
   * high per line of the value, and values longer than 60 characters go
   * into a multi-line cell.
   */
  method TableRowStyles(items: seq<string>) returns (styles: seq<RowStyle>)
    ensures |styles| == |items|
    ensures forall i :: 0 <= i < |items| ==> styles[i].border == (if i < |items| - 1 then "LR" else "LRB")
    ensures forall i :: 0 <= i < |items| ==> (styles[i].fill <==> i % 2 == 1)
    ensures forall i :: 0 <= i < |items| ==> styles[i].keyHeight == 6 * (Newlines(items[i]) + 1)
    ensures forall i :: 0 <= i < |items| ==> (styles[i].multiLine <==> |items[i]| > 60)
  {
    styles := [];
    var fill := false;
    for i := 0 to |items|
      invariant |styles| == i
      invariant fill <==> i % 2 == 1
      invariant forall j :: 0 <= j < i ==> styles[j].border == (if j < |items| - 1 then "LR" else "LRB")
      invariant forall j :: 0 <= j < i ==> (styles[j].fill <==> j % 2 == 1)
      invariant forall j :: 0 <= j < i ==> styles[j].keyHeight == 6 * (Newlines(items[j]) + 1)
      invariant forall j :: 0 <= j < i ==> (styles[j].multiLine <==> |items[j]| > 60)
    {
      var border := if i < |items| - 1 then "LR" else "LRB";
      styles := styles + [RowStyle(border, fill, 6 * (Newlines(items[i]) + 1), |items[i]| > 60)];
      fill := !fill;
    }
  }
}
