/** Config.toml as a file: read into lines, edited, and written back. */
module ConfigFile {
  import opened ConfigEditor
  import opened ConfigTheorems
  import opened FileTree
  import opened PortablePaths
  import opened Wrappers

  predicate NewlineFree(s: string) {
    '\r' !in s && '\n' !in s
  }

  predicate AllNewlineFree(lines: seq<string>) {
    forall i | 0 <= i < |lines| :: NewlineFree(lines[i])
  }

  /** The end of the first line: the first carriage return or line feed, or the end of the text. */
  function LineEnd(text: string): (n: nat)
    ensures n <= |text| && NewlineFree(text[..n])
    ensures n < |text| ==> text[n] == '\r' || text[n] == '\n'
  {
    if text == [] || text[0] == '\r' || text[0] == '\n' then 0
    else
      var n := 1 + LineEnd(text[1..]);
      assert text[..n] == [text[0]] + text[1..][..n - 1];
      n
  }

  /** Lines end at a carriage return, a line feed, or the pair; a final terminator starts no line. */
  function ReadAllLines(text: string): (lines: seq<string>)
    ensures AllNewlineFree(lines)
    decreases |text|
  {
    if text == [] then []
    else
      var n := LineEnd(text);
      if n == |text| then [text]
      else [text[..n]] + ReadAllLines(text[n + (if NEW_LINE <= text[n..] then 2 else 1)..])
  }

  const NEW_LINE := "\r\n"

  function WriteAllLines(lines: seq<string>): string {
    if |lines| <= 1 then (if lines == [] then "" else lines[0]) + NEW_LINE
    else lines[0] + NEW_LINE + WriteAllLines(lines[1..])
  }

  const DEFAULT_COMMENT := "# WiiCompiled user configuration"

  const DEFAULT_LINES := [DEFAULT_COMMENT, "", SectionHeader("paths")]

  lemma {:induction false} LineEndAfter(line: string, rest: string)
    requires NewlineFree(line)
    ensures LineEnd(line + NEW_LINE + rest) == |line|
  {
    var text := line + NEW_LINE + rest;
    if line != [] {
      assert text[1..] == line[1..] + NEW_LINE + rest;
      LineEndAfter(line[1..], rest);
    }
  }

  lemma {:induction false} FirstLineRead(line: string, rest: string)
    requires NewlineFree(line)
    ensures ReadAllLines(line + NEW_LINE + rest) == [line] + ReadAllLines(rest)
  {
    var text := line + NEW_LINE + rest;
    LineEndAfter(line, rest);
    assert text[|line|..] == NEW_LINE + rest && text[|line| + 2..] == rest && text[..|line|] == line;
  }

  /** Any lines without line breaks survive being written and read back. */
  lemma {:induction false} WriteThenRead(lines: seq<string>)
    requires lines != [] && AllNewlineFree(lines)
    ensures ReadAllLines(WriteAllLines(lines)) == lines
  {
    var rest := if |lines| == 1 then "" else WriteAllLines(lines[1..]);
    assert WriteAllLines(lines) == lines[0] + NEW_LINE + rest;
    FirstLineRead(lines[0], rest);
    if |lines| > 1 {
      WriteThenRead(lines[1..]);
    }
    assert lines == [lines[0]] + lines[1..];
  }

  // ---- The edited file ----------------------------------------------------------------------------------

  function LinesOf(file: Option<string>): seq<string> {
    if file.Some? then ReadAllLines(file.value) else DEFAULT_LINES
  }

  /** What a reader of the file gets for a key; a missing file has none. */
  function GetFrom(file: Option<string>, section: string, key: string): Option<string> {
    if file.Some? then Get(ReadAllLines(file.value), section, key) else None
  }

  lemma {:induction false} ReplaceNewlineFree(s: string, c: char, with: string)
    requires NewlineFree(s) && NewlineFree(with)
    ensures NewlineFree(Replace(s, c, with))
  {
    if s != [] {
      ReplaceNewlineFree(s[1..], c, with);
    }
  }

  lemma AssignmentNewlineFree(key: string, value: string)
    requires BareKey(key) && NewlineFree(value)
    ensures NewlineFree(Assignment(key, QuoteToml(value)))
  {
    ReplaceNewlineFree(value, '\\', "\\\\");
    ReplaceNewlineFree(Replace(value, '\\', "\\\\"), '"', "\\\"");
  }

  lemma PutNewlineFree(lines: seq<string>, p: Place, line: string)
    requires AllNewlineFree(lines) && NewlineFree(line) && if p.over then p.at < |lines| else p.at <= |lines|
    ensures AllNewlineFree(PutLine(lines, p, line)) && PutLine(lines, p, line) != []
  {}

  lemma HeaderNewlineFree(section: string)
    requires BareKey(section)
    ensures NewlineFree(SectionHeader(section))
  {}

  lemma SetNewlineFree(lines: seq<string>, section: string, key: string, value: string)
    requires AllNewlineFree(lines) && BareKey(section) && BareKey(key) && NewlineFree(value)
    ensures AllNewlineFree(SetLines(lines, section, key, QuoteToml(value)))
    ensures SetLines(lines, section, key, QuoteToml(value)) != []
  {
    var line := Assignment(key, QuoteToml(value));
    AssignmentNewlineFree(key, value);
    HeaderNewlineFree(section);
    if HasSection(lines, section) {
      PutNewlineFree(lines, PlaceFor(lines, View(lines), SectionHeader(section), key), line);
    } else {
      var blank := if lines != [] && lines[|lines| - 1] != "" then [""] else [];
      assert AllNewlineFree(lines + blank + [SectionHeader(section), line]);
    }
  }

  /** Config.toml after storing one path. */
  function Stored(file: Option<string>, key: string, value: string): string {
    WriteAllLines(SetLines(LinesOf(file), "paths", key, QuoteToml(value)))
  }

  lemma {:induction false} NothingSet(v: seq<Line>, header: string, key: string, inSection: bool)
    requires forall i | 0 <= i < |v| :: !v[i].Pair?
    ensures Find(v, header, key, inSection) == |v|
  {
    if v != [] {
      NothingSet(v[1..], header, key, InSectionAfter(v[0], header, inSection));
    }
  }

  lemma CommentReads(line: string)
    requires line != [] && line[0] == '#'
    ensures Classified(line) == Other
  {
    assert Kept(line, false, false, false) == "";
    EmptyReads();
  }

  lemma HeaderHoldsNothing(lines: seq<string>, section: string, key: string)
    requires |lines| == 3 && Classified(lines[0]).Other? && Classified(lines[1]).Other? && Classified(lines[2]).Header?
    ensures Get(lines, section, key) == None
  {
    NothingSet(View(lines), SectionHeader(section), key, false);
  }

  /** A file that does not exist yet starts from lines that hold no key. */
  lemma DefaultLinesAreEmpty(section: string, key: string)
    ensures Get(DEFAULT_LINES, section, key) == None
  {
    CommentReads(DEFAULT_COMMENT);
    EmptyReads();
    HeaderReads("paths");
    HeaderHoldsNothing(DEFAULT_LINES, section, key);
  }

  lemma EditedRead(file: Option<string>, key: string, value: string)
    requires BareKey(key) && NewlineFree(value)
    ensures ReadAllLines(Stored(file, key, value)) == SetLines(LinesOf(file), "paths", key, QuoteToml(value))
  {
    PathsIsBare();
    var lines := LinesOf(file);
    assert AllNewlineFree(lines);
    SetNewlineFree(lines, "paths", key, value);
    WriteThenRead(SetLines(lines, "paths", key, QuoteToml(value)));
  }

  lemma ReadBeforeStoring(file: Option<string>, section: string, key: string)
    ensures GetFrom(file, section, key) == Get(LinesOf(file), section, key)
  {
    if file.None? {
      DefaultLinesAreEmpty(section, key);
    }
  }

  /** The written file holds the edited lines: it reads back the value for its key, and what the file
      held before for every other section and key. */
  lemma StoredReads(file: Option<string>, key: string, value: string, section': string, key': string)
    requires BareKey(key) && NewlineFree(value)
    ensures GetFrom(Some(Stored(file, key, value)), section', key')
            == if section' == "paths" && key' == key then Some(value) else GetFrom(file, section', key')
  {
    EditedRead(file, key, value);
    ReadBeforeStoring(file, section', key');
    PathsIsBare();
    SetThenRead(LinesOf(file), "paths", key, value, section', key');
    QuoteRoundTrip(value);
  }

  lemma PathsIsBare()
    ensures BareKey("paths")
  {}

  // ---- Paths in the file -----------------------------------------------------------------------------------

  predicate AllWhite(s: string) {
    forall i | 0 <= i < |s| :: White(s[i])
  }

  /** The path the runtime uses for a key: the stored value against the file's own directory. */
  function GetResolvedPath(directory: Path, file: Option<string>, key: string): Option<Path>
    requires directory != []
  {
    var stored := GetFrom(file, "paths", key);
    if stored.None? || AllWhite(stored.value) then None else Some(ResolveAgainst(directory, stored.value))
  }

  /** Storing a path gives that path back, wherever the file and the path lie, exactly unless its
      relative spelling is nothing but white space; every other key keeps its path. */
  lemma StoredPathReads(directory: Path, portable: Option<Path>, file: Option<string>, key: string, full: Path,
                        key': string)
    requires BareKey(key) && Absolute(directory) && Absolute(full)
    ensures var value := FormatPathValue(directory, portable, full);
            GetResolvedPath(directory, Some(Stored(file, key, value)), key')
            == if key' != key then GetResolvedPath(directory, file, key')
               else if forall c | c in value :: White(c) then None else Some(full)
  {
    var value := FormatPathValue(directory, portable, full);
    StoredPathIsPrintable(directory, portable, full);
    StoredPathResolves(directory, portable, full);
    StoredReads(file, key, value, "paths", key');
  }

  /** A folder named by a no-break space inside the UserData directory of a portable root is stored as
      that name, and read back as nothing. */
  lemma WhiteNameIsLost(file: Option<string>, key: string)
    requires BareKey(key)
    ensures var root, directory := ["C:", "R"], ["C:", "R", "UserData"];
            var full := directory + [['\U{00A0}']];
            && Absolute(directory) && Absolute(full) && root <= directory
            && GetResolvedPath(directory, Some(Stored(file, key, FormatPathValue(directory, Some(root), full))), key) == None
  {
    var root, directory := ["C:", "R"], ["C:", "R", "UserData"];
    var full := directory + [['\U{00A0}']];
    InsideIsOneName(directory, ['\U{00A0}']);
    assert Absolute(directory) && Absolute(full) && root <= full;
    assert FormatPathValue(directory, Some(root), full) == ['\U{00A0}'];
    StoredPathReads(directory, Some(root), file, key, full, key);
  }

  /** A path right inside the directory of Config.toml is stored as its last name. */
  lemma {:induction false} InsideIsOneName(directory: Path, name: string)
    ensures RelativeParts(directory, directory + [name]) == [name]
  {
    CommonWithInside(directory, [name]);
    assert Ups(0) + (directory + [name])[|directory|..] == [name];
  }

  lemma {:induction false} CommonWithInside(directory: Path, rest: Path)
    ensures CommonLength(directory, directory + rest) == |directory|
  {
    if directory != [] {
      assert (directory + rest)[1..] == directory[1..] + rest;
      CommonWithInside(directory[1..], rest);
    }
  }

  /** An absolute spelling is never mistaken for an empty one. */
  lemma AbsoluteIsNotWhite(directory: Path, portable: Option<Path>, full: Path)
    requires Absolute(directory) && Absolute(full)
    ensures portable.None? || !PathContains(portable.value, full) ==> !AllWhite(FormatPathValue(directory, portable, full))
  {
    if portable.None? || !PathContains(portable.value, full) {
      var text := FormatPathValue(directory, portable, full);
      if Share(full[0]) {
        ShareParts(full);
        JoinedRoot(Split(full[0]) + full[1..], '\\');
      }
      assert text[0] == '\\' || text[1] == ':';
    }
  }

  class ConfigFile {
    const directory: Path
    const portable: Option<Path>
    var text: Option<string>

    constructor (directory: Path, portable: Option<Path>, text: Option<string>)
      ensures this.directory == directory && this.portable == portable && this.text == text
    {
      this.directory, this.portable, this.text := directory, portable, text;
    }

    /** Stores one path, in its portable spelling. */
    method SetPath(key: string, full: Path)
      requires BareKey(key) && Absolute(directory) && Absolute(full)
      modifies this
      ensures text == Some(Stored(old(text), key, FormatPathValue(directory, portable, full)))
    {
      var list := new LineList(LinesOf(text));
      list.SetSectionValue("paths", key, QuoteToml(FormatPathValue(directory, portable, full)));
      text := Some(WriteAllLines(list.lines));
    }

    /** Removes the key a reader would use if its stored value resolves to the expected path, letter
        case aside as `same` has it. */
    method RemovePathIfOwned(key: string, expected: Path, same: (Path, Path) -> bool)
      requires directory != []
      modifies this
      ensures text == if old(text).None? then None
                      else
                        var was := ReadAllLines(old(text).value);
                        var now := RemovedIfOwned(was, "paths", key, Owns(directory, expected, same));
                        if now == was then old(text) else Some(WriteAllLines(now))
    {
      if text.None? {
        return;
      }
      var list := new LineList(ReadAllLines(text.value));
      var changed := list.RemovePathIfOwned("paths", key, Owns(directory, expected, same));
      if changed {
        text := Some(WriteAllLines(list.lines));
      }
    }
  }

  /** Ownership is decided on the path the runtime would resolve, not on the stored text. */
  function Owns(directory: Path, expected: Path, same: (Path, Path) -> bool): string -> bool
    requires directory != []
  {
    stored => same(ResolveAgainst(directory, stored), expected)
  }

  /** What SetPath stores, RemovePathIfOwned owns. */
  lemma StoredIsOwned(directory: Path, portable: Option<Path>, full: Path, same: (Path, Path) -> bool)
    requires Absolute(directory) && Absolute(full) && same(full, full)
    ensures Owns(directory, full, same)(FormatPathValue(directory, portable, full))
  {
    StoredPathResolves(directory, portable, full);
  }
}
