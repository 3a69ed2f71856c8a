/** Line-oriented text files, as Kotlin's `File.readLines()` and
    `writeText(lines.joinToString("\n") + "\n")` see them. */
module TextFiles {
  import opened Text
  import opened FileSystem

  /** `readLines()`: the pieces between line feeds, where a final line feed does not start
      another line; an empty text has no lines. */
  function Lines(s: string): (ls: seq<string>)
    ensures forall i :: 0 <= i < |ls| ==> '\n' !in ls[i]
    ensures s != "" ==> |ls| >= 1
  {
    if s == "" then []
    else
      var parts := Split(s, '\n');
      if |parts| > 1 && parts[|parts| - 1] == "" then parts[..|parts| - 1] else parts
  }

  /** The text written back: the lines joined by line feeds, plus a final line feed. */
  function Contents(ls: seq<string>): string {
    Join(ls, "\n") + "\n"
  }

  lemma {:induction false} JoinAppend(ls: seq<string>, x: string, sep: string)
    requires |ls| >= 1
    ensures Join(ls + [x], sep) == Join(ls, sep) + sep + x
  {
    if |ls| == 1 {
      assert (ls + [x])[1..] == [x];
    } else {
      assert (ls + [x])[1..] == ls[1..] + [x];
      JoinAppend(ls[1..], x, sep);
    }
  }

  /** Writing lines and reading them back gives the same lines, as long as there is at
      least one line and none holds a line feed. */
  lemma LinesOfContents(ls: seq<string>)
    requires |ls| >= 1
    requires forall i :: 0 <= i < |ls| ==> '\n' !in ls[i]
    ensures Lines(Contents(ls)) == ls
  {
    JoinAppend(ls, "", "\n");
    var all := ls + [""];
    assert forall k :: 0 <= k < |all| ==> '\n' !in all[k] by {
      forall k | 0 <= k < |all| ensures '\n' !in all[k] {
        if k < |ls| { assert all[k] == ls[k]; }
      }
    }
    SplitJoin(all, '\n');
    assert Contents(ls) == Join(all, "\n");
    assert |Contents(ls)| > 0;
    assert Split(Contents(ls), '\n') == all;
    assert all[..|all| - 1] == ls;
  }

  /** An empty list of lines is written as a single line feed, which reads back as one
      blank line. */
  lemma NoLinesReadBackBlank()
    ensures Lines(Contents([])) == [""]
  {
    assert Contents([]) == "\n";
    assert Split("", '\n') == [""];
    assert Split("\n", '\n') == [""] + Split("", '\n');
  }

  /** `readLines()` on whatever is stored at `p`: a missing file or a directory is a
      `FileNotFoundException`; an archive or a `cfg.json` is not read as lines here. */
  function ReadLines(d: Disk, p: Path): (r: Outcome<seq<string>>)
    ensures r.Returned? <==> IsPlainFile(d, p)
    ensures r.Returned? ==> r.value == Lines(d.tree[p].content)
  {
    if IsPlainFile(d, p) then Returned(Lines(d.tree[p].content))
    else if !Exists(d, p) || IsDirectory(d, p) then Threw(FileNotFound)
    else Threw(IoError)
  }

  /** `writeText(content)`: the file is created or replaced; a directory in its place or a
      missing parent directory is a `FileNotFoundException`. */
  function WriteText(d: Disk, p: Path, content: string): (r: Outcome<Disk>)
    ensures r.Returned? <==> ParentIsDirectory(d, p) && !IsDirectory(d, p)
    ensures r.Returned? ==> r.value == WriteFile(d, p, content)
  {
    if ParentIsDirectory(d, p) && !IsDirectory(d, p) then Returned(WriteFile(d, p, content))
    else Threw(FileNotFound)
  }
}
