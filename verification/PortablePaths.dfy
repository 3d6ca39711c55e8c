/** How a path is written into Config.toml and read back: relative to the file's directory inside a
    portable root, absolute otherwise. */
module PortablePaths {
  import opened FileTree
  import opened Wrappers

  // ---- Names and texts ------------------------------------------------------------------------------

  predicate Separator(c: char) {
    c == '\\' || c == '/'
  }

  predicate NameChar(c: char) {
    c >= ' ' && c != ':' && !Separator(c)
  }

  /** A file or directory name: it does not end in a space or a dot, so it is not a dot name either. */
  predicate Name(s: string) {
    && s != "" && s[|s| - 1] != ' ' && s[|s| - 1] != '.'
    && forall i | 0 <= i < |s| :: NameChar(s[i])
  }

  predicate Drive(s: string) {
    |s| == 2 && ('A' <= s[0] <= 'Z' || 'a' <= s[0] <= 'z') && s[1] == ':'
  }

  /** Two separators, a server, and what it shares. */
  predicate Share(s: string) {
    var parts := Split(s);
    && |parts| == 4 && parts[0] == "" && parts[1] == "" && Name(parts[2]) && parts[2] != "?" && Name(parts[3])
    && s == JoinWith(parts, '\\')
  }

  /** A drive or a network share, then names. */
  predicate Absolute(p: Path) {
    p != [] && (Drive(p[0]) || Share(p[0])) && forall i | 1 <= i < |p| :: Name(p[i])
  }

  predicate SeparatorFree(s: string) {
    forall i | 0 <= i < |s| :: !Separator(s[i])
  }

  function JoinWith(parts: seq<string>, separator: char): string
    requires parts != []
  {
    if |parts| == 1 then parts[0] else parts[0] + [separator] + JoinWith(parts[1..], separator)
  }

  /** The parts between separators of either kind. */
  function Split(text: string): (parts: seq<string>)
    ensures parts != []
  {
    if text == "" then [""]
    else
      var rest := Split(text[1..]);
      if Separator(text[0]) then [""] + rest else [[text[0]] + rest[0]] + rest[1..]
  }

  lemma {:induction false} SplitFirst(part: string, rest: string)
    requires SeparatorFree(part)
    ensures forall separator | Separator(separator) :: Split(part + [separator] + rest) == [part] + Split(rest)
    ensures Split(part) == [part]
  {
    forall separator | Separator(separator) ensures Split(part + [separator] + rest) == [part] + Split(rest) {
      var text := part + [separator] + rest;
      if part == "" {
        assert text[1..] == rest;
      } else {
        assert text[1..] == part[1..] + [separator] + rest;
        SplitFirst(part[1..], rest);
        assert [text[0]] + part[1..] == part;
      }
    }
    if part != "" {
      SplitFirst(part[1..], rest);
      assert [part[0]] + part[1..] == part;
    }
  }

  lemma {:induction false} SplitJoined(parts: seq<string>, separator: char)
    requires parts != [] && Separator(separator) && forall i | 0 <= i < |parts| :: SeparatorFree(parts[i])
    ensures Split(JoinWith(parts, separator)) == parts
  {
    if |parts| == 1 {
      SplitFirst(parts[0], "");
    } else {
      SplitFirst(parts[0], JoinWith(parts[1..], separator));
      SplitJoined(parts[1..], separator);
    }
  }

  /** The text of a whole path; a bare drive keeps its separator. */
  function FullText(p: Path): string
    requires p != []
  {
    if |p| == 1 && Drive(p[0]) then p[0] + ['\\'] else JoinWith(p, '\\')
  }

  // ---- Resolving --------------------------------------------------------------------------------------

  /** One part of a text applied to a directory: dot names step, nothing leaves the drive or the share. */
  function Entered(at: Path, part: string): Path {
    if part == "" || part == "." then at
    else if part == ".." then if |at| > 1 then at[..|at| - 1] else at
    else at + [part]
  }

  function EnteredAll(at: Path, parts: seq<string>): (p: Path)
    ensures at != [] ==> p != []
    decreases |parts|
  {
    if parts == [] then at else EnteredAll(Entered(at, parts[0]), parts[1..])
  }

  predicate OnDrive(text: string) {
    |text| >= 3 && text[1] == ':' && Separator(text[2])
  }

  predicate OnShare(text: string) {
    |text| >= 2 && Separator(text[0]) && Separator(text[1])
  }

  /** A stored value against the directory that holds Config.toml. */
  function ResolveAgainst(directory: Path, text: string): (p: Path)
    requires directory != []
    ensures p != []
  {
    var parts := Split(text);
    if OnDrive(text) then EnteredAll([parts[0]], parts[1..])
    else if OnShare(text) then
      var n := if |parts| < 4 then |parts| else 4;
      EnteredAll([JoinWith(parts[..n], '\\')], parts[n..])
    else if text != "" && Separator(text[0]) then EnteredAll([directory[0]], parts)
    else EnteredAll(directory, parts)
  }

  // ---- Storing ------------------------------------------------------------------------------------------

  function CommonLength(left: Path, right: Path): (n: nat)
    ensures n <= |left| && n <= |right|
  {
    if left == [] || right == [] || left[0] != right[0] then 0 else 1 + CommonLength(left[1..], right[1..])
  }

  lemma {:induction false} CommonPart(left: Path, right: Path)
    ensures var n := CommonLength(left, right); left[..n] == right[..n]
    ensures left != [] && right != [] && left[0] == right[0] ==> CommonLength(left, right) > 0
  {
    if left != [] && right != [] && left[0] == right[0] {
      CommonPart(left[1..], right[1..]);
      var n := CommonLength(left[1..], right[1..]);
      assert left[..n + 1] == [left[0]] + left[1..][..n] && right[..n + 1] == [right[0]] + right[1..][..n];
    }
  }

  function Ups(n: nat): seq<string> {
    seq(n, _ => "..")
  }

  /** Up to the common directory, then down; the directory itself is a dot. */
  function RelativeParts(directory: Path, full: Path): (parts: seq<string>)
    ensures parts != []
  {
    var n := CommonLength(directory, full);
    var parts := Ups(|directory| - n) + full[n..];
    if parts == [] then ["."] else parts
  }

  /** The value stored for a path: relative with forward slashes inside the portable root. */
  function FormatPathValue(directory: Path, portable: Option<Path>, full: Path): string
    requires Absolute(directory) && Absolute(full)
  {
    if portable.None? || !PathContains(portable.value, full) || full[0] != directory[0] then FullText(full)
    else JoinWith(RelativeParts(directory, full), '/')
  }

  lemma {:induction false} EnteredNames(at: Path, names: seq<string>)
    requires forall i | 0 <= i < |names| :: Name(names[i])
    ensures EnteredAll(at, names) == at + names
    decreases |names|
  {
    if names == [] {
      assert at + names == at;
    } else {
      assert Name(names[0]);
      EnteredNames(at + [names[0]], names[1..]);
      assert at + [names[0]] + names[1..] == at + names;
    }
  }

  lemma {:induction false} EnteredUps(at: Path, n: nat, rest: seq<string>)
    requires n < |at|
    ensures EnteredAll(at, Ups(n) + rest) == EnteredAll(at[..|at| - n], rest)
    decreases n
  {
    if n == 0 {
      assert Ups(0) + rest == rest && at[..|at|] == at;
    } else {
      assert (Ups(n) + rest)[0] == ".." && (Ups(n) + rest)[1..] == Ups(n - 1) + rest;
      EnteredUps(at[..|at| - 1], n - 1, rest);
      assert at[..|at| - 1][..|at| - n] == at[..|at| - n];
    }
  }

  lemma DriveReads(directory: Path, full: Path)
    requires directory != [] && Absolute(full) && Drive(full[0])
    ensures ResolveAgainst(directory, FullText(full)) == full
  {
    var text := FullText(full);
    if |full| == 1 {
      SplitFirst(full[0], "");
      assert text == full[0] + ['\\'] + "";
      assert Split(text)[1..] == [""];
      assert EnteredAll([full[0]], [""]) == EnteredAll([full[0]], []);
    } else {
      SplitJoined(full, '\\');
      assert text == full[0] + ['\\'] + JoinWith(full[1..], '\\');
      EnteredNames([full[0]], full[1..]);
      assert full == [full[0]] + full[1..];
    }
  }

  lemma {:induction false} JoinNested(first: seq<string>, rest: seq<string>, separator: char)
    requires first != []
    ensures JoinWith([JoinWith(first, separator)] + rest, separator) == JoinWith(first + rest, separator)
  {
    var whole := [JoinWith(first, separator)] + rest;
    if rest == [] {
      assert first + rest == first;
    } else if |first| == 1 {
      assert whole == first + rest;
    } else {
      var inner := [JoinWith(first[1..], separator)] + rest;
      JoinNested(first[1..], rest, separator);
      assert (first + rest)[1..] == first[1..] + rest && whole[1..] == rest && inner[1..] == rest;
    }
  }

  /** The parts of the text of a path on a share. */
  lemma ShareParts(full: Path)
    requires Absolute(full) && Share(full[0])
    ensures var parts := Split(full[0]) + full[1..];
            FullText(full) == JoinWith(parts, '\\') && Split(FullText(full)) == parts
  {
    var root := Split(full[0]);
    var parts := root + full[1..];
    assert full == [JoinWith(root, '\\')] + full[1..];
    JoinNested(root, full[1..], '\\');
    forall i | 0 <= i < |parts| ensures SeparatorFree(parts[i]) {
      assert i < 2 || Name(parts[i]);
    }
    SplitJoined(parts, '\\');
  }

  lemma {:induction false} JoinedRoot(parts: seq<string>, separator: char)
    requires |parts| >= 3 && parts[0] == "" && parts[1] == ""
    ensures var text := JoinWith(parts, separator); |text| >= 2 && text[0] == text[1] == separator
  {
    assert JoinWith(parts, separator) == [separator] + JoinWith(parts[1..], separator);
    assert JoinWith(parts[1..], separator) == [separator] + JoinWith(parts[2..], separator);
  }

  lemma ShareReads(directory: Path, full: Path)
    requires directory != [] && Absolute(full) && Share(full[0])
    ensures ResolveAgainst(directory, FullText(full)) == full
  {
    var root, text := Split(full[0]), FullText(full);
    ShareParts(full);
    JoinedRoot(root + full[1..], '\\');
    assert (root + full[1..])[..4] == root && (root + full[1..])[4..] == full[1..];
    EnteredNames([full[0]], full[1..]);
    assert full == [full[0]] + full[1..];
    assert !OnDrive(text) by {
      assert text[0] == '\\' && text[1] == '\\';
    }
  }

  /** A text that starts with one separator is read from the root of the file's own drive or share. */
  lemma {:induction false} RootedReads(directory: Path, names: seq<string>)
    requires directory != [] && names != [] && forall i | 0 <= i < |names| :: Name(names[i])
    ensures ResolveAgainst(directory, ['/'] + JoinWith(names, '/')) == [directory[0]] + names
  {
    var parts, text := [""] + names, ['/'] + JoinWith(names, '/');
    forall i | 0 <= i < |parts| ensures SeparatorFree(parts[i]) {
      assert i == 0 || Name(parts[i]);
    }
    assert parts[1..] == names && text == JoinWith(parts, '/');
    SplitJoined(parts, '/');
    assert Name(names[0]);
    assert text[1] == names[0][0] && NameChar(names[0][0]);
    assert EnteredAll([directory[0]], parts) == EnteredAll([directory[0]], names);
    EnteredNames([directory[0]], names);
  }

  predicate RelativePart(part: string) {
    part == "." || part == ".." || Name(part)
  }

  lemma RelativePartsAre(directory: Path, full: Path)
    requires Absolute(directory) && Absolute(full) && full[0] == directory[0]
    ensures forall i | 0 <= i < |RelativeParts(directory, full)| :: RelativePart(RelativeParts(directory, full)[i])
  {
    CommonPart(directory, full);
    forall i | CommonLength(directory, full) <= i < |full| ensures Name(full[i]) {}
  }

  lemma {:induction false} CommonEnters(directory: Path, rest: seq<string>, n: nat)
    requires 0 < n <= |directory| && forall i | 0 <= i < |rest| :: Name(rest[i])
    ensures EnteredAll(directory, Ups(|directory| - n) + rest) == directory[..n] + rest
  {
    EnteredUps(directory, |directory| - n, rest);
    EnteredNames(directory[..n], rest);
  }

  lemma {:induction false} DotStays(at: Path)
    ensures EnteredAll(at, ["."]) == EnteredAll(at, []) == at
  {
    assert ["."][1..] == [];
  }

  lemma {:induction false} PartsEnter(directory: Path, full: Path, n: nat)
    requires 0 < n <= |directory| && n <= |full| && directory[..n] == full[..n]
    requires forall i | n <= i < |full| :: Name(full[i])
    ensures EnteredAll(directory, Ups(|directory| - n) + full[n..]) == full
  {
    var rest := full[n..];
    forall i | 0 <= i < |rest| ensures Name(rest[i]) {
      assert rest[i] == full[n + i];
    }
    CommonEnters(directory, rest, n);
    assert full[..n] + rest == full;
  }

  lemma {:induction false} RelativePartsEnter(directory: Path, full: Path)
    requires Absolute(directory) && Absolute(full) && full[0] == directory[0]
    ensures EnteredAll(directory, RelativeParts(directory, full)) == full
  {
    CommonPart(directory, full);
    var n := CommonLength(directory, full);
    PartsEnter(directory, full, n);
    if Ups(|directory| - n) + full[n..] == [] {
      DotStays(directory);
    }
  }

  /** What is stored for a path resolves back to that path, inside a portable root and outside it. */
  lemma StoredPathResolves(directory: Path, portable: Option<Path>, full: Path)
    requires Absolute(directory) && Absolute(full)
    ensures ResolveAgainst(directory, FormatPathValue(directory, portable, full)) == full
  {
    var text, parts := FormatPathValue(directory, portable, full), RelativeParts(directory, full);
    if text == FullText(full) && (portable.None? || !PathContains(portable.value, full) || full[0] != directory[0]) {
      if Drive(full[0]) {
        DriveReads(directory, full);
      } else {
        ShareReads(directory, full);
      }
    } else {
      RelativePartsAre(directory, full);
      RelativePartsEnter(directory, full);
      forall i | 0 <= i < |parts| ensures SeparatorFree(parts[i]) {
        assert RelativePart(parts[i]);
      }
      SplitJoined(parts, '/');
      assert RelativePart(parts[0]);
      assert text == parts[0] || text == parts[0] + ['/'] + JoinWith(parts[1..], '/');
      assert !OnDrive(text) && !Separator(text[0]);
    }
  }

  predicate Printable(s: string) {
    forall i | 0 <= i < |s| :: s[i] >= ' '
  }

  lemma {:induction false} JoinedPrintable(parts: seq<string>, separator: char)
    requires parts != [] && separator >= ' ' && forall i | 0 <= i < |parts| :: Printable(parts[i])
    ensures Printable(JoinWith(parts, separator))
  {
    if |parts| > 1 {
      JoinedPrintable(parts[1..], separator);
    }
  }

  /** A stored path has no control character, so it stays on one line. */
  lemma StoredPathIsPrintable(directory: Path, portable: Option<Path>, full: Path)
    requires Absolute(directory) && Absolute(full)
    ensures Printable(FormatPathValue(directory, portable, full))
  {
    if portable.None? || !PathContains(portable.value, full) || full[0] != directory[0] {
      if Share(full[0]) {
        ShareParts(full);
        JoinedPrintable(Split(full[0]) + full[1..], '\\');
      } else if |full| > 1 {
        JoinedPrintable(full, '\\');
      }
    } else {
      RelativePartsAre(directory, full);
      var parts := RelativeParts(directory, full);
      forall i | 0 <= i < |parts| ensures Printable(parts[i]) {
        assert RelativePart(parts[i]);
      }
      JoinedPrintable(parts, '/');
    }
  }
}
