/** Rewriting one key of an instance's `server.properties`
    (util/instance/configsApi/updateServerProperties.kt and the older
    util/instance/updateServerProperties.kt, which differ only in their messages). */
module Properties {
  import opened Text
  import opened Configs
  import opened FileSystem
  import opened TextFiles

  function PropertiesPath(cfg: Config, name: string): Path {
    InstanceDir(cfg, name) + ["server.properties"]
  }

  /** The position of the first `c` in `s`. */
  function FirstIndex(s: string, c: char): (i: nat)
    requires c in s
    ensures i < |s| && s[i] == c && c !in s[..i]
  {
    if s[0] == c then 0
    else
      var j := FirstIndex(s[1..], c);
      assert s[..j + 1] == [s[0]] + s[1..][..j];
      j + 1
  }

  /** A line that declares a property: trimmed, it is non-empty, holds a '=' and is not a
      '#' comment. */
  predicate IsPropertyLine(line: string) {
    var s := Trim(line);
    s != "" && '=' in s && !StartsWith(s, "#")
  }

  /** `split('=', limit = 2)` of the trimmed line: the key is the part before the first
      '=', trimmed. */
  function KeyOf(line: string): string
    requires IsPropertyLine(line)
  {
    var s := Trim(line);
    Trim(s[..FirstIndex(s, '=')])
  }

  /** The value is the part after the first '=', trimmed. */
  function ValueOf(line: string): string
    requires IsPropertyLine(line)
  {
    var s := Trim(line);
    Trim(s[FirstIndex(s, '=') + 1..])
  }

  predicate Declares(line: string, key: string) {
    IsPropertyLine(line) && KeyOf(line) == key
  }

  /** The `properties` map the parsing loop fills: each property line in turn sets its
      key, so a later line for the same key wins. */
  function ParsedProperties(lines: seq<string>): map<string, string> {
    if lines == [] then map[]
    else
      var m := ParsedProperties(lines[..|lines| - 1]);
      var line := lines[|lines| - 1];
      if IsPropertyLine(line) then m[KeyOf(line) := ValueOf(line)] else m
  }

  /** The parsing loop. */
  method ParseProperties(lines: seq<string>) returns (properties: map<string, string>)
    ensures properties == ParsedProperties(lines)
  {
    properties := map[];
    for i := 0 to |lines|
      invariant properties == ParsedProperties(lines[..i])
    {
      assert lines[..i + 1][..i] == lines[..i] && lines[..i + 1][i] == lines[i];
      if IsPropertyLine(lines[i]) {
        properties := properties[KeyOf(lines[i]) := ValueOf(lines[i])];
      }
    }
    assert lines[..|lines|] == lines;
  }

  /** A key is known exactly when some line declares it. */
  lemma {:induction false} KnownKeys(lines: seq<string>, key: string)
    ensures key in ParsedProperties(lines) <==> exists i :: 0 <= i < |lines| && Declares(lines[i], key)
  {
    if lines != [] {
      KnownKeys(lines[..|lines| - 1], key);
      SomeOfSnoc(lines, lines[..|lines| - 1], l => Declares(l, key));
    }
  }

  /** Some element of `xs` satisfies `p` when one of all but the last does, or the last
      does. */
  lemma SomeOfSnoc<T>(xs: seq<T>, init: seq<T>, p: T -> bool)
    requires xs != [] && init == xs[..|xs| - 1]
    ensures (exists i :: 0 <= i < |xs| && p(xs[i]))
      <==> (exists i :: 0 <= i < |init| && p(init[i])) || p(xs[|xs| - 1])
  {
    if exists i :: 0 <= i < |init| && p(init[i]) {
      var i :| 0 <= i < |init| && p(init[i]);
      assert xs[i] == init[i];
    }
    if exists i :: 0 <= i < |xs| && p(xs[i]) {
      var i :| 0 <= i < |xs| && p(xs[i]);
      if i < |init| { assert init[i] == xs[i]; }
    }
  }

  /** The last line that declares a key decides its value. */
  lemma {:induction false} LastDeclarationWins(lines: seq<string>, key: string, i: nat)
    requires i < |lines| && Declares(lines[i], key)
    requires forall j :: i < j < |lines| ==> !Declares(lines[j], key)
    ensures key in ParsedProperties(lines) && ParsedProperties(lines)[key] == ValueOf(lines[i])
  {
    var init := lines[..|lines| - 1];
    if i < |lines| - 1 {
      forall j | i < j < |init| ensures !Declares(init[j], key) {
        assert init[j] == lines[j];
      }
      assert init[i] == lines[i];
      LastDeclarationWins(init, key, i);
    }
  }

  /** A line the rewrite replaces: trimmed, it starts with "<key>=" and is not a comment. */
  predicate Targets(line: string, key: string) {
    var s := Trim(line);
    StartsWith(s, key + "=") && !StartsWith(s, "#")
  }

  /** The `lines.map { ... }` of the rewrite. */
  function Rewrite(lines: seq<string>, key: string, value: string): (r: seq<string>)
    ensures |r| == |lines|
    ensures forall i :: 0 <= i < |lines| ==> r[i] == if Targets(lines[i], key) then key + "=" + value else lines[i]
  {
    seq(|lines|, i requires 0 <= i < |lines| => if Targets(lines[i], key) then key + "=" + value else lines[i])
  }

  /** What a key taken from a property line looks like: no '=' and no line feed, and
      neither whitespace at either end nor a leading '#'. */
  predicate PlainKey(key: string) {
    && '=' !in key && '\n' !in key
    && (key != "" ==> !IsWhitespace(key[0]) && key[0] != '#' && !IsWhitespace(key[|key| - 1]))
  }

  /** Every key the parser finds in lines without line feeds is plain. */
  lemma KnownKeyIsPlain(lines: seq<string>, key: string)
    requires forall i :: 0 <= i < |lines| ==> '\n' !in lines[i]
    requires key in ParsedProperties(lines)
    ensures PlainKey(key)
  {
    KnownKeys(lines, key);
    var i :| 0 <= i < |lines| && Declares(lines[i], key);
    var s := Trim(lines[i]);
    var f := FirstIndex(s, '=');
    var x := s[..f];
    TrimChars(lines[i]);
    TrimChars(x);
    assert forall c :: c in x ==> c in s;
    TrimmedHasNoOuterWhitespace(lines[i]);
    if key != "" {
      assert x != [];
      assert x[0] == s[0];
      assert TrimStart(x) == x;
      var t := TrimEnd(x);
      TrimEndPrefix(x);
      assert key == t && t[0] == x[0];
    }
  }

  lemma PlainKeyTrimmed(key: string)
    requires PlainKey(key)
    ensures Trim(key) == key
  {
    if key != [] {
      assert TrimStart(key) == key;
    }
  }

  /** The line written for a plain key trims to itself up to trailing whitespace of the
      value: it keeps its "<key>=" prefix and its first character. */
  lemma WrittenLineTrim(key: string, value: string)
    requires PlainKey(key)
    ensures var line := key + "=" + value; var s := Trim(line);
      && |s| > |key| && s[..|key| + 1] == key + "=" && s[0] == line[0]
  {
    var line := key + "=" + value;
    assert line[|key|] == '=';
    assert TrimStart(line) == line;
    var s := TrimEnd(line);
    TrimEndPrefix(line);
    assert s == line[..|s|];
  }

  /** The line written for a plain key is replaced again by a second rewrite. */
  lemma WrittenLineTargeted(key: string, value: string)
    requires PlainKey(key)
    ensures Targets(key + "=" + value, key)
  {
    WrittenLineTrim(key, value);
  }

  /** The line written for a plain key declares that key. */
  lemma WrittenLineDeclares(key: string, value: string)
    requires PlainKey(key)
    ensures Declares(key + "=" + value, key)
  {
    var line := key + "=" + value;
    WrittenLineTrim(key, value);
    var s := Trim(line);
    assert s[|key|] == '=';
    var f := FirstIndex(s, '=');
    assert s[..|key|] == key;
    assert f == |key|;
    assert s[..f] == key;
    PlainKeyTrimmed(key);
  }

  /** Rewriting twice with the same plain key and value is rewriting once. */
  lemma RewriteIdempotent(lines: seq<string>, key: string, value: string)
    requires PlainKey(key)
    ensures Rewrite(Rewrite(lines, key, value), key, value) == Rewrite(lines, key, value)
  {
    WrittenLineTargeted(key, value);
  }

  /** A known key is still known after the rewrite. */
  lemma KeyStillKnown(lines: seq<string>, key: string, value: string)
    requires forall i :: 0 <= i < |lines| ==> '\n' !in lines[i]
    requires key in ParsedProperties(lines)
    ensures key in ParsedProperties(Rewrite(lines, key, value))
  {
    KnownKeyIsPlain(lines, key);
    KnownKeys(lines, key);
    var i :| 0 <= i < |lines| && Declares(lines[i], key);
    var r := Rewrite(lines, key, value);
    if Targets(lines[i], key) {
      WrittenLineDeclares(key, value);
    }
    assert Declares(r[i], key);
    KnownKeys(r, key);
  }

  /** `updateServerProperties(name, key, value, internal)` as a function of the disk: the
      new disk and the result. A missing file gives false; a file that cannot be read as
      lines throws; an unknown key gives false; "resource-pack" outside an internal call
      gives true; in those cases nothing is written. Otherwise the file is rewritten with
      every line that targets the key replaced by "<key>=<value>", and the result is true. */
  function Update(d: Disk, cfg: Config, name: string, key: string, value: string, internal: bool)
    : (u: (Disk, Outcome<bool>))
    ensures u.1 == Returned(false) <==> (!Exists(d, PropertiesPath(cfg, name))
      || (IsPlainFile(d, PropertiesPath(cfg, name))
          && key !in ParsedProperties(Lines(d.tree[PropertiesPath(cfg, name)].content))))
    ensures u.1.Threw? <==> Exists(d, PropertiesPath(cfg, name)) && !IsPlainFile(d, PropertiesPath(cfg, name))
    ensures u.0 != d ==> u.1 == Returned(true) && !(key == "resource-pack" && !internal)
    ensures (u.1 == Returned(true) && !(key == "resource-pack" && !internal)) ==>
      var lines := Lines(d.tree[PropertiesPath(cfg, name)].content);
      && key in ParsedProperties(lines)
      && u.0 == WriteFile(d, PropertiesPath(cfg, name), Contents(Rewrite(lines, key, value)))
  {
    var p := PropertiesPath(cfg, name);
    if !Exists(d, p) then (d, Returned(false))
    else match ReadLines(d, p)
      case Threw(e) => (d, Threw(e))
      case Returned(lines) =>
        if key !in ParsedProperties(lines) then (d, Returned(false))
        else if key == "resource-pack" && !internal then (d, Returned(true))
        else
          var r := WriteFile(d, p, Contents(Rewrite(lines, key, value)));
          assert p in r.tree && r.tree[p] == File(Contents(Rewrite(lines, key, value)));
          if r == d then (d, Returned(true)) else (r, Returned(true))
  }

  /** The method: the parsing loop, the checks, the rewrite and the write. */
  method UpdateServerProperties(d: Disk, cfg: Config, name: string, key: string, value: string, internal: bool)
    returns (r: Disk, result: Outcome<bool>)
    ensures (r, result) == Update(d, cfg, name, key, value, internal)
  {
    var p := PropertiesPath(cfg, name);
    if !Exists(d, p) {
      return d, Returned(false);
    }
    var read := ReadLines(d, p);
    if read.Threw? {
      return d, Threw(read.error);
    }
    var lines := read.value;
    var properties := ParseProperties(lines);
    if key !in properties {
      return d, Returned(false);
    }
    if key == "resource-pack" && !internal {
      return d, Returned(true);
    }
    r := WriteFile(d, p, Contents(Rewrite(lines, key, value)));
    result := Returned(true);
  }

  /** Only `server.properties` can change. */
  lemma UpdateTouchesOnlyProperties(d: Disk, cfg: Config, name: string, key: string, value: string, internal: bool, q: Path)
    requires q != PropertiesPath(cfg, name)
    ensures At(Update(d, cfg, name, key, value, internal).0, q) == At(d, q)
  {
  }

  /** After a write the file reads back as the old lines with exactly the targeted lines
      replaced, and the key is still declared. */
  lemma UpdateReadsBack(d: Disk, cfg: Config, name: string, key: string, value: string, internal: bool)
    requires '\n' !in value
    requires Update(d, cfg, name, key, value, internal).0 != d
    ensures var p := PropertiesPath(cfg, name); var r := Update(d, cfg, name, key, value, internal).0;
      var lines := Lines(d.tree[p].content);
      && IsPlainFile(r, p)
      && Lines(r.tree[p].content) == Rewrite(lines, key, value)
      && key in ParsedProperties(Lines(r.tree[p].content))
  {
    var p := PropertiesPath(cfg, name);
    var lines := Lines(d.tree[p].content);
    var rw := Rewrite(lines, key, value);
    KnownKeyIsPlain(lines, key);
    KeyStillKnown(lines, key, value);
    KnownKeys(lines, key);
    assert |rw| >= 1;
    assert forall i :: 0 <= i < |rw| ==> '\n' !in rw[i];
    LinesOfContents(rw);
  }

  /** An update of a file whose lines declare the key writes their rewrite. */
  lemma UpdateOfReadableFile(d: Disk, cfg: Config, name: string, key: string, value: string, internal: bool)
    requires IsPlainFile(d, PropertiesPath(cfg, name))
    requires key in ParsedProperties(Lines(d.tree[PropertiesPath(cfg, name)].content))
    requires !(key == "resource-pack" && !internal)
    ensures var p := PropertiesPath(cfg, name);
      Update(d, cfg, name, key, value, internal)
        == (WriteFile(d, p, Contents(Rewrite(Lines(d.tree[p].content), key, value))), Returned(true))
  {
  }

  lemma WriteFileTwice(d: Disk, p: Path, c: string)
    ensures WriteFile(WriteFile(d, p, c), p, c) == WriteFile(d, p, c)
  {
    var w := WriteFile(d, p, c);
    assert WriteFile(w, p, c).archives == w.archives;
    assert WriteFile(w, p, c).configs == w.configs;
  }

  /** Updating twice with the same arguments is updating once. */
  lemma UpdateIdempotent(d: Disk, cfg: Config, name: string, key: string, value: string, internal: bool)
    requires '\n' !in value
    ensures var u := Update(d, cfg, name, key, value, internal);
      Update(u.0, cfg, name, key, value, internal) == u
  {
    var u := Update(d, cfg, name, key, value, internal);
    if u.0 != d {
      var p := PropertiesPath(cfg, name);
      var lines := Lines(d.tree[p].content);
      var rw := Rewrite(lines, key, value);
      var c := Contents(rw);
      UpdateOfReadableFile(d, cfg, name, key, value, internal);
      UpdateReadsBack(d, cfg, name, key, value, internal);
      KnownKeyIsPlain(lines, key);
      RewriteIdempotent(lines, key, value);
      var w := WriteFile(d, p, c);
      assert u == (w, Returned(true));
      UpdateOfReadableFile(w, cfg, name, key, value, internal);
      WriteFileTwice(d, p, c);
    }
  }

  /** A known key written with spaces around its '=' is reported as updated, yet no line
      starts with "<key>=", so the file is written back unchanged. */
  lemma SpacedKeyLeftAlone(key: string, value: string, newValue: string)
    requires PlainKey(key) && key != ""
    requires value != "" && !IsWhitespace(value[|value| - 1])
    ensures var lines := [key + " = " + value];
      && key in ParsedProperties(lines)
      && Rewrite(lines, key, newValue) == lines
  {
    var line := key + " = " + value;
    SpacedLineDeclares(key, value);
    KnownKeys([line], key);
    assert [line][0] == line;
    TrimUntouched(line);
    assert !StartsWith(line, key + "=") by { assert line[|key|] == ' '; }
  }

  /** `<key> = <value>` declares `<key>`: the key is trimmed before the comparison. */
  lemma SpacedLineDeclares(key: string, value: string)
    requires PlainKey(key) && key != ""
    requires value != "" && !IsWhitespace(value[|value| - 1])
    ensures Declares(key + " = " + value, key)
  {
    var line := key + " = " + value;
    assert line[0] == key[0] && line[|line| - 1] == value[|value| - 1];
    TrimUntouched(line);
    assert line[..|key| + 1] == key + " ";
    assert line[|key| + 1] == '=';
    FirstIndexAt(line, '=', |key| + 1);
    KeyThenSpace(key);
  }

  lemma FirstIndexAt(s: string, c: char, j: nat)
    requires j < |s| && s[j] == c && c !in s[..j]
    ensures FirstIndex(s, c) == j
  {
  }

  /** A plain key followed by a space trims back to the key. */
  lemma KeyThenSpace(key: string)
    requires PlainKey(key) && key != ""
    ensures Trim(key + " ") == key
  {
    assert TrimStart(key + " ") == key + " ";
    assert (key + " ")[..|key|] == key;
    assert TrimEnd(key + " ") == TrimEnd(key);
  }
}
