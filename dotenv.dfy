/**
 * Collect from dotenv.go: every line `[export ]KEY=VALUE` of the files
 * in FilenameVariables becomes an environment variable, later files and
 * later lines overriding earlier ones.
 *
 * Reading the files is outside the model: Collect receives, for each file
 * name in order, `Some(content)` when os.ReadFile succeeded and `None`
 * when it failed.
 */
module Dotenv {
  import opened Wrappers
  import opened GoStrings
  import opened Environment
  import opened Utils

  /** The files Collect reads by default, in order. */
  const FilenameVariables: seq<string> := [".env", ".env.local"]

  /** An assignment a line asks for. */
  datatype Entry = Entry(key: string, value: string)

  /** A line that starts with "export " loses the keyword and the white
      space around the rest; any other line is kept as it is. */
  function StripExport(line: string): (l: string)
    ensures !("export " <= line) ==> l == line
    ensures "export " <= line ==> TrimmedOf(l, line[|"export"|..])
  {
    if "export " <= line then TrimSpace(line[|"export"|..]) else line
  }

  /** The classification Collect applies to one line: blank and comment
      lines and lines without `=` set nothing; otherwise the key is the text
      before the first `=` and the value is the rest passed through quotes. */
  function ParseLine(line: string): (e: Option<Entry>)
    ensures e.Some? ==> '=' !in e.value.key
  {
    var l := StripExport(line);
    if l == "" || "#" <= l then None
    else
      var c := Cut(l, '=');
      if c.found then Some(Entry(c.before, Quotes(c.after))) else None
  }

  /** A line yields an assignment exactly when, after export-stripping, it
      is neither blank nor a comment and holds a `=`. */
  lemma ParseLineSome(line: string)
    ensures ParseLine(line).Some? <==>
      (var l := StripExport(line); l != "" && l[0] != '#' && '=' in l)
  {
  }

  /** What a processed line assigns: the exact text before its first `=`
      (untrimmed) gets quotes of the text after it. */
  lemma ParseLineEntry(line: string)
    requires ParseLine(line).Some?
    ensures var e := ParseLine(line).value;
      '=' !in e.key &&
      StripExport(line) == e.key + "=" + StripExport(line)[|e.key| + 1..] &&
      e.value == Quotes(StripExport(line)[|e.key| + 1..])
  {
    var l := StripExport(line);
    var c := Cut(l, '=');
    assert l == c.before + "=" + c.after;
    assert l[|c.before| + 1..] == c.after;
  }

  /** Conversely, a line of that shape is parsed into that assignment. */
  lemma ParseLineOf(line: string, key: string, rest: string)
    requires StripExport(line) == key + "=" + rest
    requires '=' !in key && (key == "" || key[0] != '#')
    ensures ParseLine(line) == Some(Entry(key, Quotes(rest)))
  {
    CutAt(key, '=', rest);
    assert key + "=" + rest == key + ['='] + rest;
  }

  /** Without the export prefix the line is not trimmed: the key starts the
      line. */
  lemma ParseLineNoExport(line: string)
    requires !("export " <= line) && ParseLine(line).Some?
    ensures ParseLine(line).value.key + "=" <= line
  {
    ParseLineEntry(line);
  }

  /** The keyword and the blank after it are dropped. */
  lemma StripExportBlank(x: string)
    requires x != [] && !IsSpace(x[0]) && !IsSpace(x[|x| - 1])
    ensures StripExport("export " + x) == x
  {
    var line := "export " + x;
    assert "export " <= line;
    assert line[|"export"|..] == " " + x;
    TrimSpaceBlankPrefix(x);
  }

  lemma ConcatAssoc(a: string, b: string, c: string, d: string)
    ensures a + b + c + d == a + (b + c + d)
  {
  }

  /** `export KEY=rest` assigns quotes of `rest` to KEY. */
  lemma ParseLineExport(key: string, rest: string)
    requires key != [] && '=' !in key && key[0] != '#' && !IsSpace(key[0])
    requires rest == [] || !IsSpace(rest[|rest| - 1])
    ensures ParseLine("export " + key + "=" + rest) == Some(Entry(key, Quotes(rest)))
  {
    var x := key + "=" + rest;
    assert x[0] == key[0];
    if rest == [] {
      assert x[|x| - 1] == '=';
    } else {
      assert x[|x| - 1] == rest[|rest| - 1];
    }
    StripExportBlank(x);
    ConcatAssoc("export ", key, "=", rest);
    ParseLineOf("export " + x, key, rest);
  }

  /** One line's effect on the environment. */
  function LoadLine(vars: Vars, line: string): (r: Vars)
    ensures ParseLine(line).None? ==> r == vars
  {
    match ParseLine(line)
    case None => vars
    case Some(e) => Setenv(vars, e.key, e.value)
  }

  /** The line assigns `key` (and os.Setenv accepts the assignment). */
  predicate SetsKey(line: string, key: string) {
    ParseLine(line).Some? && ParseLine(line).value.key == key &&
    CanSetenv(key, ParseLine(line).value.value)
  }

  /** `key` is bound the same way in both stores. */
  predicate SameAt(a: Vars, b: Vars, key: string) {
    (key in a <==> key in b) && (key in a ==> a[key] == b[key])
  }

  /** A line changes no variable other than the one it assigns. */
  lemma LoadLineFrame(vars: Vars, line: string, key: string)
    requires !SetsKey(line, key)
    ensures SameAt(LoadLine(vars, line), vars, key)
  {
  }

  /** A line that assigns `key` stores quotes of its raw value there. */
  lemma LoadLineSets(vars: Vars, line: string, key: string)
    requires SetsKey(line, key)
    ensures key in LoadLine(vars, line)
    ensures LoadLine(vars, line)[key] == ParseLine(line).value.value
  {
  }

  /** The lines of one file, applied in order. */
  function LoadLines(vars: Vars, lines: seq<string>): Vars
    decreases |lines|
  {
    if lines == [] then vars
    else LoadLine(LoadLines(vars, lines[..|lines| - 1]), lines[|lines| - 1])
  }

  lemma {:induction false} LoadLinesAppend(vars: Vars, a: seq<string>, b: seq<string>)
    ensures LoadLines(vars, a + b) == LoadLines(LoadLines(vars, a), b)
    decreases |b|
  {
    if b == [] {
      assert a + b == a;
    } else {
      assert (a + b)[..|a + b| - 1] == a + b[..|b| - 1];
      LoadLinesAppend(vars, a, b[..|b| - 1]);
    }
  }

  /** Last write wins: the value of `key` comes from the last line that
      assigns it. */
  lemma {:induction false} LoadLinesLastWins(vars: Vars, lines: seq<string>, key: string, i: nat)
    requires i < |lines| && SetsKey(lines[i], key)
    requires forall j | i < j < |lines| :: !SetsKey(lines[j], key)
    ensures key in LoadLines(vars, lines)
    ensures LoadLines(vars, lines)[key] == ParseLine(lines[i]).value.value
    decreases |lines|
  {
    var init := lines[..|lines| - 1];
    var mid := LoadLines(vars, init);
    if i == |lines| - 1 {
      LoadLineSets(mid, lines[i], key);
    } else {
      LoadLinesLastWins(vars, init, key, i);
      LoadLineFrame(mid, lines[|lines| - 1], key);
    }
  }

  /** A variable that no line assigns keeps its binding, or its absence. */
  lemma {:induction false} LoadLinesUntouched(vars: Vars, lines: seq<string>, key: string)
    requires forall j | 0 <= j < |lines| :: !SetsKey(lines[j], key)
    ensures SameAt(LoadLines(vars, lines), vars, key)
    decreases |lines|
  {
    if lines != [] {
      var init := lines[..|lines| - 1];
      LoadLinesUntouched(vars, init, key);
      LoadLineFrame(LoadLines(vars, init), lines[|lines| - 1], key);
    }
  }

  /** A file is read line by line unless reading failed or it has at most
      one byte. */
  predicate Accepted(content: Option<string>) {
    content.Some? && ByteLen(content.value) > 1
  }

  /** One file's effect on the environment. */
  function LoadFile(vars: Vars, content: Option<string>): (r: Vars)
    ensures !Accepted(content) ==> r == vars
  {
    if !Accepted(content) then vars else LoadLines(vars, Split(content.value, '\n'))
  }

  /** A failed read, an empty file or a one-byte file changes nothing. */
  lemma LoadFileSkipped(vars: Vars, content: Option<string>)
    requires content.None? || |content.value| == 0 || (|content.value| == 1 && content.value[0] < '\U{80}')
    ensures LoadFile(vars, content) == vars
  {
  }

  /** What Collect leaves in the environment: the files in order. */
  function LoadFiles(vars: Vars, contents: seq<Option<string>>): (r: Vars)
    ensures (forall i | 0 <= i < |contents| :: !Accepted(contents[i])) ==> r == vars
    decreases |contents|
  {
    if contents == [] then vars
    else LoadFile(LoadFiles(vars, contents[..|contents| - 1]), contents[|contents| - 1])
  }

  /** Every line Collect processes, across the files in order. */
  function CollectedLines(contents: seq<Option<string>>): seq<string>
    decreases |contents|
  {
    if contents == [] then []
    else
      var last := contents[|contents| - 1];
      CollectedLines(contents[..|contents| - 1]) +
        (if Accepted(last) then Split(last.value, '\n') else [])
  }

  /** Loading the files one after another is loading all their lines in
      sequence. */
  lemma {:induction false} LoadFilesLines(vars: Vars, contents: seq<Option<string>>)
    ensures LoadFiles(vars, contents) == LoadLines(vars, CollectedLines(contents))
    decreases |contents|
  {
    if contents != [] {
      var init := contents[..|contents| - 1];
      var last := contents[|contents| - 1];
      LoadFilesLines(vars, init);
      LoadLinesAppend(vars, CollectedLines(init), if Accepted(last) then Split(last.value, '\n') else []);
    }
  }

  /** Last write wins across files: the final value of `key` comes from the
      last line, in file order and then line order, that assigns it; a key no
      line assigns is left as it was. */
  lemma CollectLastWins(vars: Vars, contents: seq<Option<string>>, key: string, i: nat)
    requires i < |CollectedLines(contents)| && SetsKey(CollectedLines(contents)[i], key)
    requires forall j | i < j < |CollectedLines(contents)| :: !SetsKey(CollectedLines(contents)[j], key)
    ensures key in LoadFiles(vars, contents)
    ensures LoadFiles(vars, contents)[key] == ParseLine(CollectedLines(contents)[i]).value.value
  {
    LoadFilesLines(vars, contents);
    LoadLinesLastWins(vars, CollectedLines(contents), key, i);
  }

  lemma CollectUntouched(vars: Vars, contents: seq<Option<string>>, key: string)
    requires forall j | 0 <= j < |CollectedLines(contents)| :: !SetsKey(CollectedLines(contents)[j], key)
    ensures SameAt(LoadFiles(vars, contents), vars, key)
  {
    LoadFilesLines(vars, contents);
    LoadLinesUntouched(vars, CollectedLines(contents), key);
  }

  lemma LoadLinesNext(vars: Vars, lines: seq<string>, j: nat)
    requires j < |lines|
    ensures LoadLines(vars, lines[..j + 1]) == LoadLine(LoadLines(vars, lines[..j]), lines[j])
  {
    assert lines[..j + 1][..j] == lines[..j];
  }

  lemma LoadFilesNext(vars: Vars, contents: seq<Option<string>>, i: nat)
    requires i < |contents|
    ensures LoadFiles(vars, contents[..i + 1]) == LoadFile(LoadFiles(vars, contents[..i]), contents[i])
  {
    assert contents[..i + 1][..i] == contents[..i];
  }

  /** Collect(): `contents[i]` is the result of reading the i-th file name
      of the list (FilenameVariables by default); each assignment is set
      with os.Setenv, whose error is ignored. */
  method Collect(env: Env, contents: seq<Option<string>>)
    modifies env
    ensures env.vars == LoadFiles(old(env.vars), contents)
  {
    for i := 0 to |contents|
      invariant env.vars == LoadFiles(old(env.vars), contents[..i])
    {
      LoadFilesNext(old(env.vars), contents, i);
      var content := contents[i];
      if content.None? {
        continue;
      }
      if ByteLen(content.value) <= 1 {
        continue;
      }
      var lines := Split(content.value, '\n');
      SetLines(env, lines);
    }
    assert contents[..|contents|] == contents;
  }

  /** The inner loop of Collect over the lines of one file. */
  method SetLines(env: Env, lines: seq<string>)
    modifies env
    ensures env.vars == LoadLines(old(env.vars), lines)
  {
    for j := 0 to |lines|
      invariant env.vars == LoadLines(old(env.vars), lines[..j])
    {
      LoadLinesNext(old(env.vars), lines, j);
      var entry := ParseLine(lines[j]);
      if entry.None? {
        continue;
      }
      var _ := env.Set(entry.value.key, entry.value.value);
    }
    assert lines[..|lines|] == lines;
  }
}
