/** The console table of util/Table.kt: the total width, padded rows, centred titles,
    the greedy word wrap and the rendering of values in the vertical (key/value) layout.
    Printing itself is left out: each operation yields the lines it would print. */
module Tables {
  import opened Text

  /** A column: its heading and its width in characters. */
  datatype Column = Column(name: string, width: nat)

  function SumWidths(columns: seq<Column>): nat {
    if columns == [] then 0 else columns[0].width + SumWidths(columns[1..])
  }

  /** `calculateTotalWidth`: the column widths plus one separating space between
      neighbours; no columns take no width. */
  function TotalWidth(columns: seq<Column>): nat {
    if columns == [] then 0 else SumWidths(columns) + (|columns| - 1)
  }

  function SumLengths(parts: seq<string>): nat {
    if parts == [] then 0 else |parts[0]| + SumLengths(parts[1..])
  }

  lemma {:induction false} JoinLength(parts: seq<string>, sep: string)
    requires parts != []
    ensures |Join(parts, sep)| == SumLengths(parts) + (|parts| - 1) * |sep|
  {
    if |parts| > 1 {
      JoinLength(parts[1..], sep);
    }
  }

  /** Where the `i`-th piece of a join starts. */
  function JoinOffset(parts: seq<string>, sep: string, i: nat): nat
    requires i <= |parts|
  {
    SumLengths(parts[..i]) + i * |sep|
  }

  lemma {:induction false} JoinPlacesPiece(parts: seq<string>, sep: string, i: nat)
    requires i < |parts|
    ensures JoinOffset(parts, sep, i) + |parts[i]| <= |Join(parts, sep)|
    ensures Join(parts, sep)[JoinOffset(parts, sep, i)..JoinOffset(parts, sep, i) + |parts[i]|] == parts[i]
  {
    if i == 0 {
      assert parts[..0] == [];
      if |parts| > 1 {
        assert Join(parts, sep) == parts[0] + (sep + Join(parts[1..], sep));
      }
    } else {
      var rest := parts[1..];
      JoinPlacesPiece(rest, sep, i - 1);
      JoinOffsetStep(parts, sep, i);
      var head := parts[0] + sep;
      assert Join(parts, sep) == head + Join(rest, sep);
      var off := JoinOffset(rest, sep, i - 1);
      assert (head + Join(rest, sep))[|head| + off..|head| + off + |parts[i]|]
          == Join(rest, sep)[off..off + |rest[i - 1]|];
    }
  }

  /** Piece `i` starts after the first piece and its separator, at its place in the rest. */
  lemma JoinOffsetStep(parts: seq<string>, sep: string, i: nat)
    requires 0 < i <= |parts|
    ensures JoinOffset(parts, sep, i) == |parts[0]| + |sep| + JoinOffset(parts[1..], sep, i - 1)
  {
    assert parts[..i][1..] == parts[1..][..i - 1];
    assert SumLengths(parts[..i]) == |parts[0]| + SumLengths(parts[1..][..i - 1]);
    assert i * |sep| == |sep| + (i - 1) * |sep|;
  }

  /** The dashed rule under the header and at the closing of the table. */
  function Rule(c: Column): string {
    PadEnd(Repeat('-', c.width), c.width)
  }

  function SeparatorLine(columns: seq<Column>): string {
    Join(seq(|columns|, i requires 0 <= i < |columns| => Rule(columns[i])), " ")
  }

  lemma {:induction false} SumLengthsOfWidths(columns: seq<Column>, parts: seq<string>)
    requires |parts| == |columns|
    requires forall i :: 0 <= i < |columns| ==> |parts[i]| == columns[i].width
    ensures SumLengths(parts) == SumWidths(columns)
  {
    if columns != [] {
      SumLengthsOfWidths(columns[1..], parts[1..]);
    }
  }

  /** The separator printed by `printHeader` and `printClosing` is exactly as wide as the
      table. */
  lemma SeparatorSpansTotalWidth(columns: seq<Column>)
    ensures |SeparatorLine(columns)| == TotalWidth(columns)
  {
    var parts := seq(|columns|, i requires 0 <= i < |columns| => Rule(columns[i]));
    if columns != [] {
      JoinLength(parts, " ");
      SumLengthsOfWidths(columns, parts);
    }
  }

  /** The cells of a row: each value padded with spaces to its column's width. */
  function Cells(columns: seq<Column>, values: seq<string>): (cells: seq<string>)
    requires |values| == |columns|
    ensures |cells| == |columns|
    ensures forall i :: 0 <= i < |columns| ==> cells[i] == PadEnd(values[i], columns[i].width)
  {
    seq(|columns|, i requires 0 <= i < |columns| => PadEnd(values[i], columns[i].width))
  }

  /** `printRow`: a row with as many values as there are columns is printed as its cells
      joined by single spaces; any other row prints only an error message (None). */
  function RowLine(columns: seq<Column>, values: seq<string>): (r: Option<string>)
    ensures r.Some? <==> |values| == |columns|
  {
    if |values| != |columns| then None else Some(Join(Cells(columns, values), " "))
  }

  predicate Fits(columns: seq<Column>, values: seq<string>)
    requires |values| == |columns|
  {
    forall i :: 0 <= i < |columns| ==> |values[i]| <= columns[i].width
  }

  /** Where column `i` begins in a printed row. */
  function ColumnOffset(columns: seq<Column>, i: nat): nat
    requires i <= |columns|
  {
    SumWidths(columns[..i]) + i
  }

  /** A row whose values all fit is exactly as wide as the table, and every value sits at
      its column's offset followed by spaces up to the column's width. */
  lemma RowLayout(columns: seq<Column>, values: seq<string>, i: nat)
    requires |values| == |columns| && Fits(columns, values) && i < |columns|
    ensures |RowLine(columns, values).value| == TotalWidth(columns)
    ensures var line, off := RowLine(columns, values).value, ColumnOffset(columns, i);
      && off + columns[i].width <= |line|
      && line[off..off + |values[i]|] == values[i]
      && forall k :: off + |values[i]| <= k < off + columns[i].width ==> line[k] == ' '
  {
    RowWidth(columns, values);
    CellAtOffset(columns, values, i);
    var line, off := RowLine(columns, values).value, ColumnOffset(columns, i);
    PaddedAt(line, off, values[i], columns[i].width);
  }

  /** A value padded to `width` at offset `off` of a line: the value, then spaces. */
  lemma PaddedAt(line: string, off: nat, v: string, width: nat)
    requires |v| <= width && off + width <= |line|
    requires line[off..off + width] == PadEnd(v, width)
    ensures line[off..off + |v|] == v
    ensures forall k :: off + |v| <= k < off + width ==> line[k] == ' '
  {
    var cell := line[off..off + width];
    assert line[off..off + |v|] == cell[..|v|];
    forall k | off + |v| <= k < off + width
      ensures line[k] == ' '
    {
      assert line[k] == cell[k - off];
    }
  }

  lemma RowWidth(columns: seq<Column>, values: seq<string>)
    requires |values| == |columns| && Fits(columns, values) && columns != []
    ensures |RowLine(columns, values).value| == TotalWidth(columns)
  {
    var cells := Cells(columns, values);
    JoinLength(cells, " ");
    SumLengthsOfWidths(columns, cells);
  }

  /** Column `i`'s cell sits at the column's offset. */
  lemma CellAtOffset(columns: seq<Column>, values: seq<string>, i: nat)
    requires |values| == |columns| && Fits(columns, values) && i < |columns|
    ensures var line, off := RowLine(columns, values).value, ColumnOffset(columns, i);
      && off + columns[i].width <= |line|
      && line[off..off + columns[i].width] == PadEnd(values[i], columns[i].width)
  {
    var cells := Cells(columns, values);
    JoinPlacesPiece(cells, " ", i);
    SumLengthsOfWidths(columns[..i], cells[..i]);
    assert JoinOffset(cells, " ", i) == ColumnOffset(columns, i);
  }

  /** `center(width)`: a string at least as long as the width is returned unchanged;
      otherwise the padding is split with the smaller half (rounded down) on the left. */
  function Center(s: string, width: int): (r: string)
    ensures |s| >= width ==> r == s
    ensures |s| < width ==>
      var left := (width - |s|) / 2;
      && |r| == width
      && r[left..left + |s|] == s
      && (forall k :: 0 <= k < left ==> r[k] == ' ')
      && (forall k :: left + |s| <= k < width ==> r[k] == ' ')
      && left <= width - |s| - left <= left + 1
  {
    if |s| >= width then s
    else
      var padding := width - |s|;
      var left := padding / 2;
      var right := padding - left;
      Repeat(' ', left) + s + Repeat(' ', right)
  }

  /** The values `printVertical` knows how to render: null, a map (shown by its
      "username" entry, whose own value may be null), a list of already rendered
      elements, or any other value by its `toString`. */
  datatype RawValue =
    | Null
    | MapOf(entries: map<string, Option<string>>)
    | ListOf(items: seq<string>)
    | Scalar(text: string)

  function Render(v: RawValue): (s: string)
    ensures v.Null? ==> s == "N/A"
    ensures v.MapOf? ==> s == if "username" in v.entries && v.entries["username"].Some?
                                then v.entries["username"].value else "N/A"
    ensures v.ListOf? ==> s == Join(v.items, ", ")
    ensures v.Scalar? ==> s == v.text
  {
    match v
    case Null => "N/A"
    case MapOf(m) => if "username" in m && m["username"].Some? then m["username"].value else "N/A"
    case ListOf(items) => Join(items, ", ")
    case Scalar(t) => t
  }

  /** A string with every piece glued together, in order. */
  function Concat(parts: seq<string>): string {
    if parts == [] then "" else parts[0] + Concat(parts[1..])
  }

  lemma {:induction false} ConcatSnoc(parts: seq<string>, x: string)
    ensures Concat(parts + [x]) == Concat(parts) + x
  {
    if parts != [] {
      assert (parts + [x])[1..] == parts[1..] + [x];
      ConcatSnoc(parts[1..], x);
    }
  }

  /** Dropping the separators of a join leaves its pieces, glued together. */
  lemma {:induction false} RemoveSeparators(parts: seq<string>, c: char)
    requires forall k :: 0 <= k < |parts| ==> c !in parts[k]
    ensures RemoveChar(Join(parts, [c]), c) == Concat(parts)
  {
    if parts != [] {
      RemoveCharAbsent(parts[0], c);
      if |parts| == 1 {
        assert Concat(parts) == parts[0] + Concat([]);
      } else {
        RemoveSeparators(parts[1..], c);
        SeparatorDropped(parts[0], Join(parts[1..], [c]), c);
      }
    }
  }

  lemma SeparatorDropped(a: string, b: string, c: char)
    requires c !in a
    ensures RemoveChar(a + [c] + b, c) == a + RemoveChar(b, c)
  {
    RemoveCharAbsent(a, c);
    RemoveCharAppend(a + [c], b, c);
    RemoveCharAppend(a, [c], c);
    RemoveCharOfSelf(c);
    assert RemoveChar(a + [c], c) == a + [] == a;
  }

  /** The first word of a line: what comes before its first space. */
  function FirstWord(s: string): string {
    Split(s, ' ')[0]
  }

  lemma {:induction false} FirstWordOfLonger(a: string, b: string)
    ensures FirstWord(a + " " + b) == FirstWord(a)
  {
    if a == [] {
      assert (a + " " + b)[1..] == b;
    } else {
      assert (a + " " + b)[1..] == a[1..] + " " + b;
      FirstWordOfLonger(a[1..], b);
    }
  }

  lemma FirstWordOfWord(w: string)
    requires ' ' !in w
    ensures FirstWord(w) == w
  {
    SplitOfPiece(w, ' ');
  }

  /** Each line of a wrap starts with a character that is not a space. */
  predicate StartsWithWord(s: string) {
    s != "" && s[0] != ' '
  }

  lemma {:induction false} ConcatKeepsWords(lines: seq<string>)
    requires lines != []
    requires forall k :: 0 <= k < |lines| ==> StartsWithWord(lines[k])
    ensures RemoveChar(Concat(lines), ' ') != ""
  {
    RemoveCharAppend(lines[0], Concat(lines[1..]), ' ');
    assert lines[0] == [lines[0][0]] + lines[0][1..];
    RemoveCharAppend([lines[0][0]], lines[0][1..], ' ');
  }

  /** The state of the wrap after some words: finished lines and the line being built,
      each starting with a word, wider than the limit only as a single word, and every
      finished line closed only because the next word would not fit. */
  predicate PackedLines(lines: seq<string>, lineWidth: int) {
    && (forall k :: 0 <= k < |lines| ==> StartsWithWord(lines[k]))
    && (forall k :: 0 <= k < |lines| ==> |lines[k]| <= lineWidth || ' ' !in lines[k])
    && (forall k :: 0 <= k < |lines| - 1 ==> |lines[k]| + 1 + |FirstWord(lines[k + 1])| > lineWidth)
  }

  predicate Packed(lines: seq<string>, current: string, lineWidth: int) {
    && PackedLines(lines, lineWidth)
    && (current != "" ==> StartsWithWord(current))
    && (|current| <= lineWidth || ' ' !in current)
    && (lines != [] ==> |lines[|lines| - 1]| + 1 + |FirstWord(current)| > lineWidth)
  }

  lemma PackFirstWord(lines: seq<string>, word: string, lineWidth: int)
    requires Packed(lines, "", lineWidth) && ' ' !in word
    ensures Packed(lines, word, lineWidth)
  {
    FirstWordOfWord(word);
  }

  lemma PackNextWord(lines: seq<string>, current: string, word: string, lineWidth: int)
    requires Packed(lines, current, lineWidth) && ' ' !in word
    requires current != "" && |current| + 1 + |word| <= lineWidth
    ensures Packed(lines, current + " " + word, lineWidth)
  {
    FirstWordOfLonger(current, word);
  }

  lemma PackNewLine(lines: seq<string>, current: string, word: string, lineWidth: int)
    requires Packed(lines, current, lineWidth) && ' ' !in word
    requires current != "" && |current| + 1 + |word| > lineWidth
    ensures Packed(lines + [current], word, lineWidth)
  {
    FirstWordOfWord(word);
  }

  lemma PackLast(lines: seq<string>, current: string, lineWidth: int)
    requires Packed(lines, current, lineWidth) && current != ""
    ensures PackedLines(lines + [current], lineWidth)
  {
  }

  /** The pieces that are not empty. */
  function NonEmpty(pieces: seq<string>): (r: seq<string>)
    ensures forall k :: 0 <= k < |r| ==> r[k] != ""
  {
    if pieces == [] then []
    else (if pieces[0] == "" then [] else [pieces[0]]) + NonEmpty(pieces[1..])
  }

  /** The words of a text: what lies between spaces, a run of spaces counting as one
      separator. */
  function Words(s: string): seq<string> {
    NonEmpty(Split(s, ' '))
  }

  /** The words of the lines, line after line. */
  function LineWords(lines: seq<string>): seq<string> {
    if lines == [] then [] else LineWords(lines[..|lines| - 1]) + Words(lines[|lines| - 1])
  }

  lemma {:induction false} NonEmptyAppend(a: seq<string>, b: seq<string>)
    ensures NonEmpty(a + b) == NonEmpty(a) + NonEmpty(b)
  {
    if a == [] {
      assert a + b == b;
    } else {
      assert (a + b)[0] == a[0];
      assert (a + b)[1..] == a[1..] + b;
      NonEmptyAppend(a[1..], b);
    }
  }

  /** A piece without spaces is its own words; a space adds the next piece's. */
  lemma WordsOfPiece(a: string, word: string)
    requires ' ' !in word
    ensures Words(word) == NonEmpty([word])
    ensures Words(a + " " + word) == Words(a) + NonEmpty([word])
  {
    SplitOfPiece(word, ' ');
    SplitAround(a, ' ', word);
    NonEmptyAppend(Split(a, ' '), [word]);
  }

  lemma LineWordsSnoc(lines: seq<string>, line: string)
    ensures LineWords(lines + [line]) == LineWords(lines) + Words(line)
  {
    assert (lines + [line])[..|lines|] == lines;
  }

  /** Where a piece goes, given the closed `lines` and the line `current` being built: it
      starts an empty line, joins the line after a space when the result fits in
      `lineWidth`, and otherwise closes the line and starts the next. */
  function Place(lines: seq<string>, current: string, piece: string, lineWidth: int): (seq<string>, string) {
    if current == "" then (lines, piece)
    else if |current| + 1 + |piece| <= lineWidth then (lines, current + " " + piece)
    else (lines + [current], piece)
  }

  /** The greedy wrap as a function: the pieces still to place after the closed `lines`
      and the line `current` being built, each placed as `Place` says; the last line is
      kept when it is not empty. */
  function WrapFrom(lines: seq<string>, current: string, pieces: seq<string>, lineWidth: int): seq<string>
    decreases |pieces|
  {
    if pieces == [] then (if current != "" then lines + [current] else lines)
    else
      var next := Place(lines, current, pieces[0], lineWidth);
      WrapFrom(next.0, next.1, pieces[1..], lineWidth)
  }

  /** The lines `wrapText` gives: one empty line for the empty text, else the greedy wrap of
      the pieces between single spaces. */
  function Wrapped(text: string, lineWidth: int): seq<string> {
    if text == "" then [""] else WrapFrom([], "", Split(text, ' '), lineWidth)
  }

  /** `wrapText(text, lineWidth)`: the empty text gives one empty line; otherwise the pieces
      between single spaces are placed one after the other, each starting an empty line,
      joining the line being built after a space when that fits, or else closing that line
      and starting the next; the last line is kept when it is not empty. The lines are
      exactly the greedy wrap `Wrapped`, whose guarantees `WrappedGreedy` states. */
  method WrapText(text: string, lineWidth: int) returns (lines: seq<string>)
    ensures lines == Wrapped(text, lineWidth)
  {
    if text == "" {
      return [""];
    }
    var words := Split(text, ' ');
    lines := [];
    var current := "";
    assert words[0..] == words;
    for i := 0 to |words|
      invariant OnGreedyPath(lines, current, words, i, lineWidth)
    {
      ghost var lines0, current0 := lines, current;
      if current == "" {
        current := words[i];
      } else if |current| + 1 + |words[i]| <= lineWidth {
        current := current + " " + words[i];
      } else {
        lines := lines + [current];
        current := words[i];
      }
      GreedyStep(lines0, current0, words, i, lineWidth, lines, current);
    }
    assert words[|words|..] == [];
    if current != "" {
      lines := lines + [current];
    }
  }

  /** The wrap after the words `done`: packed lines, no character lost but spaces, and the
      words of `done` in order. */
  predicate WrapState(lines: seq<string>, current: string, lineWidth: int, done: seq<string>) {
    && Packed(lines, current, lineWidth)
    && RemoveChar(Concat(lines) + current, ' ') == Concat(done)
    && LineWords(lines) + Words(current) == NonEmpty(done)
  }

  lemma WrapStarts(lineWidth: int)
    ensures WrapState([], "", lineWidth, [])
  {
    assert Words("") == NonEmpty([""]) == [];
  }

  lemma NoWords()
    ensures Words("") == [] && LineWords([""]) == []
  {
    assert Words("") == NonEmpty([""]) == [];
    LineWordsSnoc([], "");
    assert [] + [""] == [""];
  }

  /** The wrap so far is on the greedy wrap's path: the pieces from `i` on, placed after
      `lines` and `current`, end in the greedy wrap of all of `words`. */
  predicate OnGreedyPath(lines: seq<string>, current: string, words: seq<string>, i: nat, lineWidth: int) {
    i <= |words| && WrapFrom(lines, current, words[i..], lineWidth) == WrapFrom([], "", words, lineWidth)
  }

  /** Placing piece `i` as `Place` says is the greedy wrap's next step. */
  lemma GreedyStep(lines: seq<string>, current: string, words: seq<string>, i: nat, lineWidth: int,
                   lines': seq<string>, current': string)
    requires OnGreedyPath(lines, current, words, i, lineWidth) && i < |words|
    requires (lines', current') == Place(lines, current, words[i], lineWidth)
    ensures OnGreedyPath(lines', current', words, i + 1, lineWidth)
  {
    var rest := words[i..];
    assert rest != [] && rest[0] == words[i] && rest[1..] == words[i + 1..];
  }

  /** Placing a piece without spaces as `Place` says keeps `WrapState`: the lines stay
      packed, and they gain exactly the piece's characters and words. */
  lemma PlaceKeeps(lines: seq<string>, current: string, word: string, lineWidth: int, done: seq<string>)
    requires ' ' !in word && WrapState(lines, current, lineWidth, done)
    ensures var next := Place(lines, current, word, lineWidth);
      WrapState(next.0, next.1, lineWidth, done + [word])
  {
    NonEmptyAppend(done, [word]);
    WordsOfPiece(current, word);
    if current == "" {
      StartLine(lines, word, lineWidth, done);
    } else if |current| + 1 + |word| <= lineWidth {
      ExtendLine(lines, current, word, lineWidth, done);
    } else {
      BreakLine(lines, current, word, lineWidth, done);
      LineWordsSnoc(lines, current);
    }
  }

  /** What the finished wrap of `pieces` guarantees: packed lines holding exactly the
      pieces' characters and their non-empty pieces as words, in order. */
  predicate WrapClosed(out: seq<string>, lineWidth: int, pieces: seq<string>) {
    && PackedLines(out, lineWidth)
    && RemoveChar(Concat(out), ' ') == Concat(pieces)
    && LineWords(out) == NonEmpty(pieces)
  }

  /** The greedy wrap of the pieces from `i` on, after a state that keeps `WrapState` for
      the pieces before `i`, ends with all of the wrap's guarantees. */
  lemma {:induction false} WrapFromKeeps(lines: seq<string>, current: string, pieces: seq<string>, i: nat, lineWidth: int)
    requires i <= |pieces| && WrapState(lines, current, lineWidth, pieces[..i])
    requires forall k :: 0 <= k < |pieces| ==> ' ' !in pieces[k]
    ensures WrapClosed(WrapFrom(lines, current, pieces[i..], lineWidth), lineWidth, pieces)
    decreases |pieces| - i
  {
    if i == |pieces| {
      assert pieces[..i] == pieces && pieces[i..] == [];
      if current != "" {
        PackLast(lines, current, lineWidth);
        ConcatSnoc(lines, current);
        LineWordsSnoc(lines, current);
      } else {
        assert Concat(lines) + current == Concat(lines);
        assert Words(current) == NonEmpty([""]) == [];
      }
    } else {
      var next := Place(lines, current, pieces[i], lineWidth);
      PlaceKeeps(lines, current, pieces[i], lineWidth, pieces[..i]);
      assert pieces[..i + 1] == pieces[..i] + [pieces[i]];
      assert pieces[i..][0] == pieces[i] && pieces[i..][1..] == pieces[i + 1..];
      WrapFromKeeps(next.0, next.1, pieces, i + 1, lineWidth);
    }
  }

  /** The guarantees of the greedy wrap. The empty text gives one empty line. Otherwise
      every line starts with a word; a line wider than `lineWidth` is a single word; a line
      ends only where the next word would not fit; the text loses nothing but spaces, and
      the lines hold the text's words in order, none split or merged. A text made only of
      spaces gives no line at all. */
  lemma WrappedGreedy(text: string, lineWidth: int)
    ensures text == "" ==> Wrapped(text, lineWidth) == [""]
    ensures LineWords(Wrapped(text, lineWidth)) == Words(text)
    ensures var lines := Wrapped(text, lineWidth);
      text != "" ==> forall k :: 0 <= k < |lines| ==> StartsWithWord(lines[k])
    ensures var lines := Wrapped(text, lineWidth);
      forall k :: 0 <= k < |lines| ==> |lines[k]| <= lineWidth || ' ' !in lines[k]
    ensures var lines := Wrapped(text, lineWidth);
      forall k :: 0 <= k < |lines| - 1 ==> |lines[k]| + 1 + |FirstWord(lines[k + 1])| > lineWidth
    ensures text != "" ==> RemoveChar(Concat(Wrapped(text, lineWidth)), ' ') == RemoveChar(text, ' ')
    ensures text != "" ==> (Wrapped(text, lineWidth) == [] <==> RemoveChar(text, ' ') == "")
  {
    if text == "" {
      NoWords();
    } else {
      var words := Split(text, ' ');
      WrapStarts(lineWidth);
      assert words[..0] == [] && words[0..] == words;
      WrapFromKeeps([], "", words, 0, lineWidth);
      JoinSplit(text, ' ');
      RemoveSeparators(words, ' ');
      if Wrapped(text, lineWidth) != [] {
        ConcatKeepsWords(Wrapped(text, lineWidth));
      }
    }
  }

  /** The greedy wrap is empty exactly for a non-empty text made only of spaces. */
  lemma WrappedBlank(text: string, lineWidth: int)
    ensures Wrapped(text, lineWidth) == [] <==> text != "" && RemoveChar(text, ' ') == ""
  {
    WrappedGreedy(text, lineWidth);
  }

  lemma StartLine(lines: seq<string>, word: string, lineWidth: int, done: seq<string>)
    requires ' ' !in word && Packed(lines, "", lineWidth)
    requires RemoveChar(Concat(lines) + "", ' ') == Concat(done)
    ensures Packed(lines, word, lineWidth)
    ensures RemoveChar(Concat(lines) + word, ' ') == Concat(done + [word])
  {
    PackFirstWord(lines, word, lineWidth);
    assert Concat(lines) + "" == Concat(lines);
    KeptAlone(Concat(lines), word, done);
  }

  lemma ExtendLine(lines: seq<string>, current: string, word: string, lineWidth: int, done: seq<string>)
    requires ' ' !in word && Packed(lines, current, lineWidth)
    requires current != "" && |current| + 1 + |word| <= lineWidth
    requires RemoveChar(Concat(lines) + current, ' ') == Concat(done)
    ensures Packed(lines, current + " " + word, lineWidth)
    ensures RemoveChar(Concat(lines) + (current + " " + word), ' ') == Concat(done + [word])
  {
    PackNextWord(lines, current, word, lineWidth);
    KeptSpaced(Concat(lines) + current, word, done);
    Assoc(Concat(lines), current + " ", word);
    Assoc(Concat(lines), current, " ");
  }

  lemma BreakLine(lines: seq<string>, current: string, word: string, lineWidth: int, done: seq<string>)
    requires ' ' !in word && Packed(lines, current, lineWidth)
    requires current != "" && |current| + 1 + |word| > lineWidth
    requires RemoveChar(Concat(lines) + current, ' ') == Concat(done)
    ensures Packed(lines + [current], word, lineWidth)
    ensures RemoveChar(Concat(lines + [current]) + word, ' ') == Concat(done + [word])
  {
    PackNewLine(lines, current, word, lineWidth);
    KeptAlone(Concat(lines) + current, word, done);
    ConcatSnoc(lines, current);
  }

  /** A word glued to what came before adds no character but spaces. */
  lemma KeptAlone(prefix: string, word: string, done: seq<string>)
    requires ' ' !in word
    requires RemoveChar(prefix, ' ') == Concat(done)
    ensures RemoveChar(prefix + word, ' ') == Concat(done + [word])
  {
    RemoveCharAbsent(word, ' ');
    ConcatSnoc(done, word);
    RemoveCharAppend(prefix, word, ' ');
  }

  lemma KeptSpaced(prefix: string, word: string, done: seq<string>)
    requires ' ' !in word
    requires RemoveChar(prefix, ' ') == Concat(done)
    ensures RemoveChar(prefix + " " + word, ' ') == Concat(done + [word])
  {
    KeptAlone(prefix, word, done);
    RemoveCharAppend(prefix + " ", word, ' ');
    RemoveCharAppend(prefix, " ", ' ');
    RemoveCharOfSelf(' ');
    assert RemoveChar(prefix + " ", ' ') == RemoveChar(prefix, ' ') + [] == RemoveChar(prefix, ' ');
    RemoveCharAppend(prefix, word, ' ');
  }

  /** `printVertical` for one entry, as written: the key padded to `wrapKeys`, a space and
      the first wrapped line, then each further line indented by `wrapKeys + 1` spaces.
      `wrapped.first()` throws on an empty wrap, which a non-empty value made only of
      spaces produces: None stands for that exception. */
  method VerticalEntry(key: string, value: RawValue, width: int, wrapKeys: nat)
    returns (r: Option<seq<string>>)
    ensures r.None? <==> Wrapped(Render(value), width - wrapKeys - 2) == []
    ensures r.Some? ==> r.value == EntryLines(key, Wrapped(Render(value), width - wrapKeys - 2), wrapKeys)
    ensures r.None? <==> Render(value) != "" && RemoveChar(Render(value), ' ') == ""
    ensures r.Some? ==> |r.value| >= 1 && StartsWith(r.value[0], PadEnd(key, wrapKeys) + " ")
    ensures r.Some? ==> forall k :: 1 <= k < |r.value| ==> StartsWith(r.value[k], Repeat(' ', wrapKeys + 1))
  {
    var text := Render(value);
    var wrapped := WrapText(text, width - wrapKeys - 2);
    WrappedBlank(text, width - wrapKeys - 2);
    if wrapped == [] {
      return None;
    }
    r := Some(EntryLines(key, wrapped, wrapKeys));
  }

  function EntryLines(key: string, wrapped: seq<string>, wrapKeys: nat): (ls: seq<string>)
    requires wrapped != []
    ensures |ls| == |wrapped|
    ensures ls[0] == PadEnd(key, wrapKeys) + " " + wrapped[0]
    ensures forall k :: 1 <= k < |ls| ==> ls[k] == Repeat(' ', wrapKeys) + " " + wrapped[k]
    ensures StartsWith(ls[0], PadEnd(key, wrapKeys) + " ")
    ensures forall k :: 1 <= k < |ls| ==> StartsWith(ls[k], Repeat(' ', wrapKeys + 1))
  {
    [PadEnd(key, wrapKeys) + " " + wrapped[0]]
      + seq(|wrapped| - 1, k requires 0 <= k < |wrapped| - 1 => Repeat(' ', wrapKeys) + " " + wrapped[k + 1])
  }

  /** A value of three spaces is not empty and has nothing but spaces, so the entry above
      throws for it. */
  lemma SpacesOnlyValueThrows()
    ensures var v := Render(Scalar("   ")); v != "" && RemoveChar(v, ' ') == ""
  {
    assert RemoveChar("   ", ' ') == RemoveChar("  ", ' ');
    assert RemoveChar("  ", ' ') == RemoveChar(" ", ' ');
  }

  /** The entry as evidently intended: an empty wrap is shown as one empty line, like the
      empty value, so every entry prints its key. */
  method VerticalEntryFixed(key: string, value: RawValue, width: int, wrapKeys: nat)
    returns (ls: seq<string>)
    ensures var wrapped := Wrapped(Render(value), width - wrapKeys - 2);
      ls == EntryLines(key, if wrapped == [] then [""] else wrapped, wrapKeys)
    ensures |ls| >= 1 && StartsWith(ls[0], PadEnd(key, wrapKeys) + " ")
    ensures RemoveChar(Render(value), ' ') == "" ==> ls == [PadEnd(key, wrapKeys) + " "]
    ensures forall k :: 1 <= k < |ls| ==> StartsWith(ls[k], Repeat(' ', wrapKeys + 1))
  {
    var text := Render(value);
    var wrapped := WrapText(text, width - wrapKeys - 2);
    WrappedBlank(text, width - wrapKeys - 2);
    ghost var blank := RemoveChar(text, ' ') == "";
    if blank {
      assert text == "" ==> wrapped == [""];
      assert text != "" ==> wrapped == [];
    }
    if wrapped == [] {
      wrapped := [""];
    }
    ls := EntryLines(key, wrapped, wrapKeys);
    if blank {
      assert wrapped == [""];
      assert PadEnd(key, wrapKeys) + " " + "" == PadEnd(key, wrapKeys) + " ";
    }
  }
}
