/** The line editor behind Config.toml: comments, quoting, lookup and in-place edits. */
module ConfigEditor {
  import opened Wrappers

  // ---- Characters -----------------------------------------------------------------------------------

  /** Unicode white space, as string trimming sees it. */
  predicate White(c: char) {
    var n := c as int;
    || 0x09 <= n <= 0x0D || n == 0x20 || n == 0x85 || n == 0xA0 || n == 0x1680 || 0x2000 <= n <= 0x200A
    || n == 0x2028 || n == 0x2029 || n == 0x202F || n == 0x205F || n == 0x3000
  }

  function TrimStart(s: string): string {
    if s != [] && White(s[0]) then TrimStart(s[1..]) else s
  }

  function TrimEnd(s: string): string {
    if s != [] && White(s[|s| - 1]) then TrimEnd(s[..|s| - 1]) else s
  }

  function Trim(s: string): string {
    TrimEnd(TrimStart(s))
  }

  predicate BareKeyChar(c: char) {
    'a' <= c <= 'z' || 'A' <= c <= 'Z' || '0' <= c <= '9' || c == '_' || c == '-'
  }

  predicate BareKey(s: string) {
    s != [] && forall i | 0 <= i < |s| :: BareKeyChar(s[i])
  }

  // ---- Comments ---------------------------------------------------------------------------------------

  /** The text before the first '#' outside quotes, from a given quoting state. */
  function Kept(line: string, inSingle: bool, inDouble: bool, escaped: bool): string {
    if line == [] then []
    else if inDouble && line[0] == '\\' && !escaped then [line[0]] + Kept(line[1..], inSingle, inDouble, true)
    else if line[0] == '\'' && !inDouble then [line[0]] + Kept(line[1..], !inSingle, inDouble, false)
    else if line[0] == '"' && !inSingle && !escaped then [line[0]] + Kept(line[1..], inSingle, !inDouble, false)
    else if line[0] == '#' && !inSingle && !inDouble then []
    else [line[0]] + Kept(line[1..], inSingle, inDouble, false)
  }

  lemma {:induction false} KeptStep(line: string, i: nat, inSingle: bool, inDouble: bool, escaped: bool)
    requires i < |line|
    ensures var c := line[i];
            line[..i] + Kept(line[i..], inSingle, inDouble, escaped)
            == if inDouble && c == '\\' && !escaped then line[..i + 1] + Kept(line[i + 1..], inSingle, inDouble, true)
               else if c == '\'' && !inDouble then line[..i + 1] + Kept(line[i + 1..], !inSingle, inDouble, false)
               else if c == '"' && !inSingle && !escaped then line[..i + 1] + Kept(line[i + 1..], inSingle, !inDouble, false)
               else if c == '#' && !inSingle && !inDouble then line[..i]
               else line[..i + 1] + Kept(line[i + 1..], inSingle, inDouble, false)
  {
    assert line[i..][1..] == line[i + 1..] && line[..i + 1] == line[..i] + [line[i]];
  }

  method RemoveComment(line: string) returns (r: string)
    ensures r == Kept(line, false, false, false)
  {
    var inSingle, inDouble, escaped := false, false, false;
    for index := 0 to |line|
      invariant Kept(line, false, false, false) == line[..index] + Kept(line[index..], inSingle, inDouble, escaped)
    {
      var character := line[index];
      KeptStep(line, index, inSingle, inDouble, escaped);
      if inDouble && character == '\\' && !escaped {
        escaped := true;
      } else {
        if character == '\'' && !inDouble {
          inSingle := !inSingle;
        } else if character == '"' && !inSingle && !escaped {
          inDouble := !inDouble;
        } else if character == '#' && !inSingle && !inDouble {
          return line[..index];
        }
        escaped := false;
      }
    }
    assert line[..|line|] == line;
    r := line;
  }

  // ---- Quoting -----------------------------------------------------------------------------------------

  function Replace(s: string, c: char, with: string): string {
    if s == [] then [] else (if s[0] == c then with else [s[0]]) + Replace(s[1..], c, with)
  }

  function QuoteToml(value: string): string {
    "\"" + Replace(Replace(value, '\\', "\\\\"), '"', "\\\"") + "\""
  }

  /** A backslash takes the next character literally, unless it is the last one. */
  function Unescaped(body: string): string {
    if body == [] then []
    else if body[0] == '\\' && |body| > 1 then [body[1]] + Unescaped(body[2..])
    else [body[0]] + Unescaped(body[1..])
  }

  function Unquoted(value: string): Option<string> {
    if |value| < 2 then None
    else if value[0] == '\'' && value[|value| - 1] == '\'' then Some(value[1..|value| - 1])
    else if value[0] != '"' || value[|value| - 1] != '"' then None
    else Some(Unescaped(value[1..|value| - 1]))
  }

  /** What reads as a value at all: a literal string, which is its text between the single quotes, and a
      basic string. */
  lemma QuotedForms(value: string, text: string)
    ensures Unquoted("'" + text + "'") == Some(text)
    ensures Unquoted(value).Some? <==>
              |value| >= 2 && (value[0] == value[|value| - 1] == '\'' || value[0] == value[|value| - 1] == '"')
  {
    assert ("'" + text + "'")[1..|text| + 1] == text;
  }

  method TryUnquoteToml(value: string) returns (r: Option<string>)
    ensures r == Unquoted(value)
  {
    if |value| < 2 {
      return None;
    }
    if value[0] == '\'' && value[|value| - 1] == '\'' {
      return Some(value[1..|value| - 1]);
    }
    if value[0] != '"' || value[|value| - 1] != '"' {
      return None;
    }
    var result := Unescape(value[1..|value| - 1]);
    r := Some(result);
  }

  method Unescape(body: string) returns (builder: string)
    ensures builder == Unescaped(body)
  {
    builder := "";
    var index := 0;
    assert body[0..] == body;
    while index < |body|
      invariant 0 <= index <= |body|
      invariant Unescaped(body) == builder + Unescaped(body[index..])
    {
      UnescapeStep(body, index, builder);
      if body[index] == '\\' && index + 1 < |body| {
        index := index + 1;
      }
      builder := builder + [body[index]];
      index := index + 1;
    }
    assert builder + [] == builder;
  }

  lemma UnescapeStep(body: string, i: nat, before: string)
    requires i < |body|
    ensures before + Unescaped(body[i..])
            == if body[i] == '\\' && i + 1 < |body| then before + [body[i + 1]] + Unescaped(body[i + 2..])
               else before + [body[i]] + Unescaped(body[i + 1..])
  {
    var s := body[i..];
    assert s[1..] == body[i + 1..];
    if |s| > 1 {
      assert s[2..] == body[i + 2..];
    }
  }

  /** One pass over the value: backslash and quote each get a backslash. */
  function Escaped(value: string): string {
    if value == [] then []
    else (if value[0] == '\\' || value[0] == '"' then ['\\', value[0]] else [value[0]]) + Escaped(value[1..])
  }

  lemma {:induction false} ReplaceInTwo(a: string, b: string, c: char, with: string)
    ensures Replace(a + b, c, with) == Replace(a, c, with) + Replace(b, c, with)
  {
    if a == [] {
      assert a + b == b;
    } else {
      assert (a + b)[1..] == a[1..] + b;
      ReplaceInTwo(a[1..], b, c, with);
    }
  }

  /** What the two passes make of one character. */
  lemma OneCharacter(c: char)
    ensures var once := if c == '\\' then "\\\\" else [c];
            Replace(once, '"', "\\\"") == if c == '\\' || c == '"' then ['\\', c] else [c]
  {
    assert "\\\\"[1..] == "\\" && "\\"[1..] == "" && [c][1..] == "";
    assert Replace("\\", '"', "\\\"") == "\\";
  }

  lemma {:induction false} TwoPassesAreOne(value: string)
    ensures Replace(Replace(value, '\\', "\\\\"), '"', "\\\"") == Escaped(value)
  {
    if value != [] {
      var once, rest := if value[0] == '\\' then "\\\\" else [value[0]], Replace(value[1..], '\\', "\\\\");
      TwoPassesAreOne(value[1..]);
      ReplaceInTwo(once, rest, '"', "\\\"");
      OneCharacter(value[0]);
    }
  }

  lemma {:induction false} UnescapedEscaped(value: string)
    ensures Unescaped(Escaped(value)) == value
  {
    if value != [] {
      UnescapedEscaped(value[1..]);
      var e := Escaped(value);
      if value[0] == '\\' || value[0] == '"' {
        assert e[2..] == Escaped(value[1..]);
      } else {
        assert e[1..] == Escaped(value[1..]);
      }
    }
  }

  /** Every value survives quoting and unquoting: quotes, backslashes and '#' included. */
  lemma QuoteRoundTrip(value: string)
    ensures Unquoted(QuoteToml(value)) == Some(value)
  {
    TwoPassesAreOne(value);
    UnescapedEscaped(value);
    var q := QuoteToml(value);
    assert q[1..|q| - 1] == Escaped(value);
  }

  /** No part of a quoted value reads as a comment. */
  lemma {:induction false} QuotedIsKept(value: string)
    ensures Kept(Escaped(value) + "\"", false, true, false) == Escaped(value) + "\""
  {
    var e := Escaped(value) + "\"";
    if value == [] {
      assert e == "\"" && e[1..] == [];
    } else {
      QuotedIsKept(value[1..]);
      var rest := Escaped(value[1..]) + "\"";
      if value[0] == '\\' || value[0] == '"' {
        assert e == ['\\'] + ([value[0]] + rest);
        assert e[1..] == [value[0]] + rest && e[1..][1..] == rest;
      } else {
        assert e == [value[0]] + rest && e[1..] == rest;
      }
    }
  }

  predicate PlainChar(c: char) {
    c != '\'' && c != '"' && c != '#'
  }

  lemma {:induction false} PlainIsKept(plain: string, rest: string)
    requires forall i | 0 <= i < |plain| :: PlainChar(plain[i])
    ensures Kept(plain + rest, false, false, false) == plain + Kept(rest, false, false, false)
  {
    if plain == [] {
      assert plain + rest == rest;
    } else {
      assert (plain + rest)[1..] == plain[1..] + rest;
      PlainIsKept(plain[1..], rest);
    }
  }

  // ---- Lines --------------------------------------------------------------------------------------------

  datatype Line = Header(text: string) | Pair(key: string, raw: string) | Other

  /** A section line is any name within brackets. */
  lemma {:induction false} SectionForms(value: string)
    ensures IsSection(value) <==> exists name :: value == "[" + name + "]"
  {
    if IsSection(value) {
      assert value == "[" + value[1..|value| - 1] + "]";
    }
  }

  predicate IsSection(value: string) {
    |value| >= 2 && value[0] == '[' && value[|value| - 1] == ']'
  }

  /** The position of the first '=', or the length. */
  function EqualsAt(s: string): (n: nat)
    ensures n <= |s|
    ensures n < |s| ==> s[n] == '='
  {
    if s == [] || s[0] == '=' then 0 else 1 + EqualsAt(s[1..])
  }

  function Parsed(trimmed: string): Line {
    if IsSection(trimmed) then Header(trimmed)
    else
      var e := EqualsAt(trimmed);
      if e == |trimmed| then Other else Pair(Trim(trimmed[..e]), Trim(trimmed[e + 1..]))
  }

  function Classified(line: string): Line {
    Parsed(Trim(Kept(line, false, false, false)))
  }

  function SectionHeader(section: string): string {
    "[" + section + "]"
  }

  function Assignment(key: string, value: string): string {
    key + " = " + value
  }

  lemma {:induction false} EqualsAfter(plain: string, rest: string)
    requires '=' !in plain
    ensures EqualsAt(plain + ['='] + rest) == |plain|
  {
    var s := plain + ['='] + rest;
    if plain != [] {
      assert s[1..] == plain[1..] + ['='] + rest;
      EqualsAfter(plain[1..], rest);
    } else {
      assert s[0] == '=';
    }
  }

  lemma TrimSolid(s: string)
    requires s != [] && !White(s[0]) && !White(s[|s| - 1])
    ensures Trim(s) == s && Trim(s + " ") == s && Trim(" " + s) == s
  {
    assert (s + " ")[..|s|] == s && (" " + s)[1..] == s;
    assert TrimStart(s + " ") == s + " ";
    assert TrimStart(" " + s) == TrimStart(s) == s;
    assert TrimEnd(s + " ") == TrimEnd(s) == s;
  }

  lemma AssignmentIsKept(key: string, value: string)
    requires BareKey(key)
    ensures Kept(Assignment(key, QuoteToml(value)), false, false, false) == Assignment(key, QuoteToml(value))
  {
    var q := QuoteToml(value);
    TwoPassesAreOne(value);
    QuotedIsKept(value);
    assert q == ['"'] + (Escaped(value) + "\"") && q[1..] == Escaped(value) + "\"";
    assert Kept(q, false, false, false) == q;
    PlainIsKept(key + " = ", q);
  }

  lemma AssignmentParses(key: string, raw: string)
    requires BareKey(key) && raw != [] && !White(raw[0]) && !White(raw[|raw| - 1])
    ensures Parsed(Assignment(key, raw)) == Pair(key, raw)
  {
    var line := Assignment(key, raw);
    assert line == (key + " ") + ['='] + (" " + raw);
    EqualsAfter(key + " ", " " + raw);
    assert line[..|key| + 1] == key + " " && line[|key| + 2..] == " " + raw;
    TrimSolid(key);
    TrimSolid(raw);
  }

  /** The line the editor writes for a bare key reads back as exactly that key and raw value. */
  lemma AssignmentReads(key: string, value: string)
    requires BareKey(key)
    ensures Classified(Assignment(key, QuoteToml(value))) == Pair(key, QuoteToml(value))
  {
    AssignmentIsKept(key, value);
    TrimSolid(Assignment(key, QuoteToml(value)));
    AssignmentParses(key, QuoteToml(value));
  }

  lemma HeaderReads(section: string)
    requires BareKey(section)
    ensures Classified(SectionHeader(section)) == Header(SectionHeader(section))
  {
    var h := SectionHeader(section);
    assert h + [] == h;
    PlainIsKept(h, []);
    TrimSolid(h);
  }

  lemma EmptyReads()
    ensures Classified("") == Other
  {}

  // ---- Looking a key up ------------------------------------------------------------------------------------

  /** What a reader of the file sees. */
  function View(lines: seq<string>): (v: seq<Line>)
    ensures |v| == |lines|
  {
    seq(|lines|, i requires 0 <= i < |lines| => Classified(lines[i]))
  }

  predicate IsPairOf(line: Line, key: string) {
    line.Pair? && line.key == key
  }

  /** Whether a line leaves the reader inside the section `header`. */
  function InSectionAfter(line: Line, header: string, inSection: bool): bool {
    if line.Header? then line.text == header else inSection
  }

  /** The first line that sets `key` in any section called `header`, or the number of lines. */
  function Find(v: seq<Line>, header: string, key: string, inSection: bool): (n: nat)
    ensures n <= |v| && (n < |v| ==> v[n].Pair?)
  {
    if v == [] then 0
    else if inSection && IsPairOf(v[0], key) then 0
    else 1 + Find(v[1..], header, key, InSectionAfter(v[0], header, inSection))
  }

  function Read(v: seq<Line>, header: string, key: string, inSection: bool): Option<string> {
    var n := Find(v, header, key, inSection);
    if n < |v| then Some(v[n].raw) else None
  }

  /** The raw literal stored for a key. */
  function Raw(lines: seq<string>, section: string, key: string): Option<string> {
    Read(View(lines), SectionHeader(section), key, false)
  }

  /** The reader's state after a whole stretch of lines. */
  function StateAfter(v: seq<Line>, header: string, inSection: bool): bool {
    if v == [] then inSection else StateAfter(v[1..], header, InSectionAfter(v[0], header, inSection))
  }

  lemma {:induction false} FindStep(v: seq<Line>, i: nat, header: string, key: string, inSection: bool)
    requires i < |v|
    ensures Find(v[i..], header, key, inSection)
            == if inSection && IsPairOf(v[i], key) then 0
               else 1 + Find(v[i + 1..], header, key, InSectionAfter(v[i], header, inSection))
  {
    assert v[i..][1..] == v[i + 1..];
  }

  /** One line as every loop below reads it: comment dropped, trimmed, split at the first '='. */
  method ReadLine(lines: seq<string>, index: nat) returns (c: Line)
    requires index < |lines|
    ensures c == View(lines)[index]
  {
    var line := RemoveComment(lines[index]);
    var trimmed := Trim(line);
    if IsSection(trimmed) {
      return Header(trimmed);
    }
    var equals := EqualsAt(trimmed);
    c := if equals == |trimmed| then Other else Pair(Trim(trimmed[..equals]), Trim(trimmed[equals + 1..]));
  }

  /** Reads line by line until the key turns up in a section of that name. */
  method ScanForKey(lines: seq<string>, section: string, key: string) returns (n: nat)
    ensures n == Find(View(lines), SectionHeader(section), key, false)
  {
    var header := SectionHeader(section);
    var inSection := false;
    ghost var v := View(lines);
    assert v[0..] == v;
    for index := 0 to |lines|
      invariant Find(v, header, key, false) == index + Find(v[index..], header, key, inSection)
    {
      FindStep(v, index, header, key, inSection);
      var line := ReadLine(lines, index);
      if line.Header? {
        inSection := line.text == header;
      } else if inSection && IsPairOf(line, key) {
        return index;
      }
    }
    n := |lines|;
  }

  method GetRawValue(lines: seq<string>, section: string, key: string) returns (r: Option<string>)
    ensures r == Raw(lines, section, key)
  {
    var n := ScanForKey(lines, section, key);
    if n == |lines| {
      return None;
    }
    var line := ReadLine(lines, n);
    r := Some(line.raw);
  }

  // ---- Editing ------------------------------------------------------------------------------------------------

  function FirstHeader(v: seq<Line>, header: string): (n: nat)
    ensures n <= |v| && (n < |v| ==> v[n] == Header(header))
    ensures forall i | 0 <= i < n :: v[i] != Header(header)
  {
    if v == [] || v[0] == Header(header) then 0 else 1 + FirstHeader(v[1..], header)
  }

  /** The first section line at or after `from`, whatever it is called. */
  function SectionEnd(v: seq<Line>, from: nat): (n: nat)
    requires from <= |v|
    ensures from <= n <= |v| && (n < |v| ==> v[n].Header?)
    ensures forall i | from <= i < n :: !v[i].Header?
    decreases |v| - from
  {
    if from == |v| || v[from].Header? then from else SectionEnd(v, from + 1)
  }

  function KeyLine(v: seq<Line>, key: string, from: nat, end: nat): (n: nat)
    requires from <= end <= |v|
    ensures from <= n <= end && (n < end ==> IsPairOf(v[n], key))
    ensures forall i | from <= i < n :: !IsPairOf(v[i], key)
    decreases end - from
  {
    if from == end || IsPairOf(v[from], key) then from else KeyLine(v, key, from + 1, end)
  }

  /** Past the section's last line that is not blank. */
  function InsertionPoint(lines: seq<string>, from: nat, end: nat): (n: nat)
    requires from <= end <= |lines|
    ensures from <= n <= end && (n > from ==> Trim(lines[n - 1]) != "")
    ensures forall i | n <= i < end :: Trim(lines[i]) == ""
  {
    if end > from && Trim(lines[end - 1]) == "" then InsertionPoint(lines, from, end - 1) else end
  }

  /** Where an existing section takes a key: over the key's line, or after the section's last real line. */
  datatype Place = Place(at: nat, over: bool)

  function PlaceFor(lines: seq<string>, v: seq<Line>, header: string, key: string): (p: Place)
    requires |v| == |lines| && FirstHeader(v, header) < |v|
    ensures if p.over then p.at < |lines| else p.at <= |lines|
  {
    var start := FirstHeader(v, header);
    var end := SectionEnd(v, start + 1);
    var n := KeyLine(v, key, start + 1, end);
    if n < end then Place(n, true) else Place(InsertionPoint(lines, start + 1, end), false)
  }

  function PutLine(lines: seq<string>, p: Place, line: string): seq<string>
    requires if p.over then p.at < |lines| else p.at <= |lines|
  {
    if p.over then lines[p.at := line] else lines[..p.at] + [line] + lines[p.at..]
  }

  /** The lines after setting one key: replaced in place, inserted at the end of the first section of
      that name, or appended with a new section. */
  function SetLines(lines: seq<string>, section: string, key: string, value: string): seq<string> {
    var header, v := SectionHeader(section), View(lines);
    if FirstHeader(v, header) == |v| then
      lines + (if lines != [] && lines[|lines| - 1] != "" then [""] else []) + [header, Assignment(key, value)]
    else PutLine(lines, PlaceFor(lines, v, header, key), Assignment(key, value))
  }

  function RemoveAt(lines: seq<string>, n: nat): seq<string>
    requires n < |lines|
  {
    lines[..n] + lines[n + 1..]
  }

  /** The lines after an owned removal: only the key's first line, and only if its value is ours. */
  function RemovedIfOwned(lines: seq<string>, section: string, key: string, owned: string -> bool): seq<string> {
    var n := Find(View(lines), SectionHeader(section), key, false);
    if n == |lines| then lines
    else match Unquoted(View(lines)[n].raw)
         case None => lines
         case Some(value) => if owned(value) then RemoveAt(lines, n) else lines
  }

  lemma {:induction false} FirstHeaderIs(v: seq<Line>, header: string, n: nat)
    requires n <= |v| && (n < |v| ==> v[n] == Header(header)) && forall i | 0 <= i < n :: v[i] != Header(header)
    ensures FirstHeader(v, header) == n
  {}

  lemma {:induction false} SectionEndIs(v: seq<Line>, from: nat, n: nat)
    requires from <= n <= |v| && (n < |v| ==> v[n].Header?) && forall i | from <= i < n :: !v[i].Header?
    ensures SectionEnd(v, from) == n
  {}

  method LocateSection(lines: seq<string>, header: string) returns (start: int, end: nat)
    ensures start < 0 ==> FirstHeader(View(lines), header) == |lines|
    ensures start >= 0 ==> start < |lines| && start == FirstHeader(View(lines), header)
                           && end == SectionEnd(View(lines), start + 1)
  {
    start, end := -1, |lines|;
    ghost var v := View(lines);
    for index := 0 to |lines|
      invariant -1 <= start < index && end == |lines|
      invariant forall i | 0 <= i < (if start < 0 then index else start) :: v[i] != Header(header)
      invariant start >= 0 ==> v[start] == Header(header) && forall i | start < i < index :: !v[i].Header?
    {
      var line := ReadLine(lines, index);
      if line.Header? {
        if start >= 0 {
          end := index;
          FirstHeaderIs(v, header, start);
          SectionEndIs(v, start + 1, end);
          return;
        }
        if line.text == header {
          start := index;
        }
      }
    }
    if start < 0 {
      FirstHeaderIs(v, header, |lines|);
    } else {
      FirstHeaderIs(v, header, start);
      SectionEndIs(v, start + 1, end);
    }
  }

  method LocateKey(lines: seq<string>, key: string, from: nat, end: nat) returns (n: nat)
    requires from <= end <= |lines|
    ensures n == KeyLine(View(lines), key, from, end)
  {
    n := from;
    while n < end
      invariant from <= n <= end && KeyLine(View(lines), key, from, end) == KeyLine(View(lines), key, n, end)
    {
      var line := ReadLine(lines, n);
      if IsPairOf(line, key) {
        return;
      }
      n := n + 1;
    }
  }

  method SkipBlankLines(lines: seq<string>, from: nat, end: nat) returns (n: nat)
    requires from <= end <= |lines|
    ensures n == InsertionPoint(lines, from, end)
  {
    n := end;
    while n > from && Trim(lines[n - 1]) == ""
      invariant from <= n <= end && InsertionPoint(lines, from, end) == InsertionPoint(lines, from, n)
    {
      n := n - 1;
    }
  }

  /** A file's lines while they are being edited. */
  class LineList {
    var lines: seq<string>

    constructor (initial: seq<string>)
      ensures lines == initial
    {
      lines := initial;
    }

    method SetSectionValue(section: string, key: string, value: string)
      modifies this
      ensures lines == SetLines(old(lines), section, key, value)
    {
      var header := SectionHeader(section);
      var sectionStart, sectionEnd := LocateSection(lines, header);
      if sectionStart < 0 {
        assert lines + [] == lines;
        if |lines| > 0 && lines[|lines| - 1] != "" {
          lines := lines + [""];
        }
        lines := lines + [header, Assignment(key, value)];
        return;
      }
      var index := LocateKey(lines, key, sectionStart + 1, sectionEnd);
      if index < sectionEnd {
        lines := lines[index := Assignment(key, value)];
        return;
      }
      var insertAt := SkipBlankLines(lines, sectionStart + 1, sectionEnd);
      assert PlaceFor(lines, View(lines), header, key) == Place(insertAt, false);
      lines := lines[..insertAt] + [Assignment(key, value)] + lines[insertAt..];
    }

    /** Drops the key only while it still holds a value this installation owns. */
    method RemovePathIfOwned(section: string, key: string, owned: string -> bool) returns (changed: bool)
      modifies this
      ensures lines == RemovedIfOwned(old(lines), section, key, owned)
      ensures changed <==> lines != old(lines)
    {
      var index := ScanForKey(lines, section, key);
      if index == |lines| {
        return false;
      }
      var line := ReadLine(lines, index);
      var configured := TryUnquoteToml(line.raw);
      if configured.None? || !owned(configured.value) {
        return false;
      }
      lines := RemoveAt(lines, index);
      changed := true;
    }
  }
}
