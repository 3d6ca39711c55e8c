/** What editing Config.toml guarantees to every reader of the file. */
module ConfigTheorems {
  import opened ConfigEditor
  import opened Wrappers

  // ---- Reading a file in stretches ---------------------------------------------------------------

  lemma {:induction false} FindInTwo(a: seq<Line>, b: seq<Line>, header: string, key: string, inSection: bool)
    ensures Find(a + b, header, key, inSection)
            == if Find(a, header, key, inSection) < |a| then Find(a, header, key, inSection)
               else |a| + Find(b, header, key, StateAfter(a, header, inSection))
    ensures StateAfter(a + b, header, inSection) == StateAfter(b, header, StateAfter(a, header, inSection))
  {
    if a == [] {
      assert a + b == b;
    } else {
      assert (a + b)[1..] == a[1..] + b;
      FindInTwo(a[1..], b, header, key, InSectionAfter(a[0], header, inSection));
    }
  }

  lemma {:induction false} NoHeaderNoFind(a: seq<Line>, header: string, key: string)
    requires forall i | 0 <= i < |a| :: a[i] != Header(header)
    ensures Find(a, header, key, false) == |a| && !StateAfter(a, header, false)
  {
    if a != [] {
      NoHeaderNoFind(a[1..], header, key);
    }
  }

  lemma {:induction false} NoKeyNoFind(a: seq<Line>, header: string, key: string, inSection: bool)
    requires forall i | 0 <= i < |a| :: !IsPairOf(a[i], key)
    ensures Find(a, header, key, inSection) == |a|
  {
    if a != [] {
      NoKeyNoFind(a[1..], header, key, InSectionAfter(a[0], header, inSection));
    }
  }

  lemma {:induction false} NoSectionNoChange(a: seq<Line>, header: string, inSection: bool)
    requires forall i | 0 <= i < |a| :: !a[i].Header?
    ensures StateAfter(a, header, inSection) == inSection
  {
    if a != [] {
      NoSectionNoChange(a[1..], header, inSection);
    }
  }

  lemma {:induction false} ReadInTwo(a: seq<Line>, b: seq<Line>, header: string, key: string, inSection: bool)
    ensures Read(a + b, header, key, inSection)
            == if Read(a, header, key, inSection).Some? then Read(a, header, key, inSection)
               else Read(b, header, key, StateAfter(a, header, inSection))
  {
    FindInTwo(a, b, header, key, inSection);
  }

  lemma {:induction false} OneLine(line: Line, header: string, key: string, inSection: bool)
    ensures StateAfter([line], header, inSection) == InSectionAfter(line, header, inSection)
    ensures Read([line], header, key, inSection)
            == if inSection && IsPairOf(line, key) then Some(line.raw) else None
  {
    assert [line][1..] == [];
  }

  // ---- One line changes ----------------------------------------------------------------------------

  /** An edit of one key: the lines up to its place, the key's old line if there is one, the rest. */
  datatype Edit = Edit(before: seq<Line>, replaced: seq<Line>, after: seq<Line>)

  ghost predicate EditOf(e: Edit, v: seq<Line>, header: string, key: string) {
    && v == e.before + e.replaced + e.after
    && Find(e.before, header, key, false) == |e.before|
    && (forall other :: StateAfter(e.before, other, false) <==> other == header)
    && |e.replaced| <= 1 && (e.replaced != [] ==> IsPairOf(e.replaced[0], key))
  }

  function Edited(e: Edit, line: Line): seq<Line> {
    e.before + [line] + e.after
  }

  lemma {:induction false} ReadInThree(a: seq<Line>, line: Line, b: seq<Line>, header: string, key: string)
    requires line.Pair?
    ensures Read(a + [line] + b, header, key, false)
            == if Read(a, header, key, false).Some? then Read(a, header, key, false)
               else if StateAfter(a, header, false) && line.key == key then Some(line.raw)
               else Read(b, header, key, StateAfter(a, header, false))
  {
    var state := StateAfter(a, header, false);
    assert a + [line] + b == a + ([line] + b);
    ReadInTwo(a, [line] + b, header, key, false);
    ReadInTwo([line], b, header, key, state);
    OneLine(line, header, key, state);
  }

  /** Every reader of every section and key sees the file as it was, except the reader of the edited
      key, who sees the new value. */
  lemma EditReads(e: Edit, v: seq<Line>, header: string, key: string, raw: string, header': string, key': string)
    requires EditOf(e, v, header, key)
    ensures Read(Edited(e, Pair(key, raw)), header', key', false)
            == if header' == header && key' == key then Some(raw) else Read(v, header', key', false)
  {
    ReadInThree(e.before, Pair(key, raw), e.after, header', key');
    if e.replaced == [] {
      assert v == e.before + e.after;
      ReadInTwo(e.before, e.after, header', key', false);
    } else {
      assert e.replaced == [e.replaced[0]];
      ReadInThree(e.before, e.replaced[0], e.after, header', key');
    }
  }

  // ---- The editor makes such an edit -------------------------------------------------------------------

  lemma {:induction false} PrefixState(v: seq<Line>, start: nat, n: nat, header: string, key: string)
    requires start < n <= |v| && v[start] == Header(header)
    requires forall i | 0 <= i < start :: v[i] != Header(header)
    requires forall i | start < i < n :: !v[i].Header? && !IsPairOf(v[i], key)
    ensures Find(v[..n], header, key, false) == n
  {
    var a, h, b := v[..start], [v[start]], v[start + 1..n];
    assert v[..n] == a + (h + b);
    NoHeaderNoFind(a, header, key);
    FindInTwo(a, h + b, header, key, false);
    forall i | 0 <= i < |h + b| ensures !IsPairOf((h + b)[i], key) {
      assert (h + b)[i] == v[start + i];
    }
    NoKeyNoFind(h + b, header, key, false);
  }

  lemma PrefixSection(v: seq<Line>, start: nat, n: nat, header: string, key: string)
    requires start < n <= |v| && v[start] == Header(header)
    requires forall i | 0 <= i < start :: v[i] != Header(header)
    requires forall i | start < i < n :: !v[i].Header?
    ensures forall other :: StateAfter(v[..n], other, false) <==> other == header
  {
    var a, h, b := v[..start], [v[start]], v[start + 1..n];
    assert v[..n] == a + (h + b);
    forall other ensures StateAfter(v[..n], other, false) <==> other == header {
      FindInTwo(a, h + b, other, key, false);
      FindInTwo(h, b, other, key, StateAfter(a, other, false));
      OneLine(v[start], other, key, StateAfter(a, other, false));
      NoSectionNoChange(b, other, StateAfter(h, other, StateAfter(a, other, false)));
    }
  }

  /** Whether a section of that name exists. */
  predicate HasSection(lines: seq<string>, section: string) {
    FirstHeader(View(lines), SectionHeader(section)) < |lines|
  }

  /** Whether the first section of that name sets the key. */
  predicate HasKey(lines: seq<string>, section: string, key: string)
    requires HasSection(lines, section)
  {
    PlaceFor(lines, View(lines), SectionHeader(section), key).over
  }

  lemma ViewInTwo(a: seq<string>, b: seq<string>)
    ensures View(a + b) == View(a) + View(b)
  {}

  function EditAt(v: seq<Line>, p: Place): Edit
    requires if p.over then p.at < |v| else p.at <= |v|
  {
    if p.over then Edit(v[..p.at], [v[p.at]], v[p.at + 1..]) else Edit(v[..p.at], [], v[p.at..])
  }

  lemma PutView(lines: seq<string>, p: Place, line: string)
    requires if p.over then p.at < |lines| else p.at <= |lines|
    ensures View(PutLine(lines, p, line)) == Edited(EditAt(View(lines), p), Classified(line))
  {}

  /** The editor's place for a key is an edit of what readers see, whatever the lines look like. */
  lemma {:induction false} PlaceIsAnEdit(lines: seq<string>, v: seq<Line>, header: string, key: string)
    requires |v| == |lines| && FirstHeader(v, header) < |v|
    ensures EditOf(EditAt(v, PlaceFor(lines, v, header, key)), v, header, key)
  {
    PrefixState(v, FirstHeader(v, header), PlaceFor(lines, v, header, key).at, header, key);
    PrefixSection(v, FirstHeader(v, header), PlaceFor(lines, v, header, key).at, header, key);
  }

  /** The place is the key's first line in the section, or follows the section's last line that is not
      blank, before the blank lines that separate it from the next section. */
  lemma {:induction false} PlacePosition(lines: seq<string>, v: seq<Line>, header: string, key: string)
    requires |v| == |lines| && FirstHeader(v, header) < |v|
    ensures var start, p := FirstHeader(v, header), PlaceFor(lines, v, header, key);
            && start < p.at <= SectionEnd(v, start + 1)
            && (if p.over then IsPairOf(v[p.at], key) && forall i | start < i < p.at :: !IsPairOf(v[i], key)
                else && (p.at > start + 1 ==> Trim(lines[p.at - 1]) != "")
                     && forall i | p.at <= i < SectionEnd(v, start + 1) :: Trim(lines[i]) == "")
  {}

  /** In an existing section a set changes that one line; all others keep their text and order. */
  lemma SetTouchesOneLine(lines: seq<string>, section: string, key: string, value: string)
    requires HasSection(lines, section)
    ensures var p, now := PlaceFor(lines, View(lines), SectionHeader(section), key), SetLines(lines, section, key, value);
            && p.at < |now| && now[p.at] == Assignment(key, value) && now[..p.at] == lines[..p.at]
            && now[p.at + 1..] == lines[if p.over then p.at + 1 else p.at..]
  {
    var p := PlaceFor(lines, View(lines), SectionHeader(section), key);
    PutInPlace(lines, p, Assignment(key, value));
  }

  lemma PutInPlace(lines: seq<string>, p: Place, line: string)
    requires if p.over then p.at < |lines| else p.at <= |lines|
    ensures var now := PutLine(lines, p, line);
            && p.at < |now| && now[p.at] == line && now[..p.at] == lines[..p.at]
            && now[p.at + 1..] == lines[if p.over then p.at + 1 else p.at..]
  {}

  // ---- Setting and getting ---------------------------------------------------------------------------------

  function Get(lines: seq<string>, section: string, key: string): Option<string> {
    var raw := Raw(lines, section, key);
    if raw.Some? then Unquoted(raw.value) else None
  }

  lemma HeadersDiffer(section: string, section': string)
    ensures SectionHeader(section') == SectionHeader(section) <==> section' == section
  {
    var h, h' := SectionHeader(section), SectionHeader(section');
    assert h'[1..|h'| - 1] == section' && h[1..|h| - 1] == section;
  }

  lemma AppendedReads(v: seq<Line>, header: string, key: string, raw: string, header': string, key': string)
    requires forall i | 0 <= i < |v| :: v[i] != Header(header)
    ensures Read(v + [Header(header), Pair(key, raw)], header', key', false)
            == if header' == header && key' == key then Some(raw) else Read(v, header', key', false)
  {
    var h, p := Header(header), Pair(key, raw);
    assert v + [h, p] == v + [h] + [p];
    ReadInTwo(v + [h], [p], header', key', false);
    ReadInTwo(v, [h], header', key', false);
    FindInTwo(v, [h], header', key', false);
    OneLine(h, header', key', StateAfter(v, header', false));
    OneLine(p, header', key', header' == header);
    if header' == header {
      NoHeaderNoFind(v, header, key');
    }
  }

  /** What readers see of a file that gets a new section: perhaps a blank line, then two lines. */
  lemma AppendedView(lines: seq<string>, section: string, key: string, value: string)
    requires BareKey(section) && BareKey(key) && !HasSection(lines, section)
    ensures var blank := if lines != [] && lines[|lines| - 1] != "" then [Other] else [];
            View(SetLines(lines, section, key, QuoteToml(value)))
            == View(lines) + blank + [Header(SectionHeader(section)), Pair(key, QuoteToml(value))]
  {
    var added := [SectionHeader(section), Assignment(key, QuoteToml(value))];
    AssignmentReads(key, value);
    HeaderReads(section);
    EmptyReads();
    assert View([""]) == [Other];
    assert View(added) == [Header(SectionHeader(section)), Pair(key, QuoteToml(value))];
    if lines != [] && lines[|lines| - 1] != "" {
      ViewInTwo(lines, [""]);
      ViewInTwo(lines + [""], added);
    } else {
      assert lines + [] == lines;
      ViewInTwo(lines, added);
    }
  }

  lemma BlankReads(v: seq<Line>, header: string, key: string)
    ensures Read(v + [Other], header, key, false) == Read(v, header, key, false)
  {
    ReadInTwo(v, [Other], header, key, false);
    OneLine(Other, header, key, StateAfter(v, header, false));
  }

  /** Setting a value and reading any section and key of any file: the key that was set reads back
      the value, everything else reads as before - duplicate sections and comments included. */
  lemma SetThenRead(lines: seq<string>, section: string, key: string, value: string, section': string, key': string)
    requires BareKey(section) && BareKey(key)
    ensures Raw(SetLines(lines, section, key, QuoteToml(value)), section', key')
            == if section' == section && key' == key then Some(QuoteToml(value)) else Raw(lines, section', key')
  {
    var raw, h, h' := QuoteToml(value), SectionHeader(section), SectionHeader(section');
    HeadersDiffer(section, section');
    if HasSection(lines, section) {
      var p := PlaceFor(lines, View(lines), h, key);
      AssignmentReads(key, value);
      PlaceIsAnEdit(lines, View(lines), h, key);
      PutView(lines, p, Assignment(key, raw));
      EditReads(EditAt(View(lines), p), View(lines), h, key, raw, h', key');
    } else {
      AppendedView(lines, section, key, value);
      if lines != [] && lines[|lines| - 1] != "" {
        BlankReads(View(lines), h', key');
        AppendedReads(View(lines) + [Other], h, key, raw, h', key');
      } else {
        assert View(lines) + [] == View(lines);
        AppendedReads(View(lines), h, key, raw, h', key');
      }
    }
  }

  lemma SetThenGet(lines: seq<string>, section: string, key: string, value: string)
    requires BareKey(section) && BareKey(key)
    ensures Get(SetLines(lines, section, key, QuoteToml(value)), section, key) == Some(value)
  {
    SetThenRead(lines, section, key, value, section, key);
    QuoteRoundTrip(value);
  }

  /** The last of two sets wins, and the first leaves no trace for any reader. */
  lemma LastSetWins(lines: seq<string>, section: string, key: string, first: string, second: string,
                    section': string, key': string)
    requires BareKey(section) && BareKey(key)
    ensures var once := SetLines(lines, section, key, QuoteToml(first));
            Raw(SetLines(once, section, key, QuoteToml(second)), section', key')
            == Raw(SetLines(lines, section, key, QuoteToml(second)), section', key')
  {
    SetThenRead(lines, section, key, first, section', key');
    SetThenRead(lines, section, key, second, section', key');
    SetThenRead(SetLines(lines, section, key, QuoteToml(first)), section, key, second, section', key');
  }

  // ---- Setting and removing ----------------------------------------------------------------------------------

  lemma {:induction false} FoundAfterEdit(e: Edit, v: seq<Line>, header: string, key: string, raw: string)
    requires EditOf(e, v, header, key)
    ensures Find(Edited(e, Pair(key, raw)), header, key, false) == |e.before|
  {
    var p := Pair(key, raw);
    assert Edited(e, p) == e.before + ([p] + e.after);
    FindInTwo(e.before, [p] + e.after, header, key, false);
  }

  lemma {:induction false} FoundAfterAppend(v: seq<Line>, header: string, key: string, raw: string)
    requires forall i | 0 <= i < |v| :: v[i] != Header(header)
    ensures Find(v + [Header(header), Pair(key, raw)], header, key, false) == |v| + 1
  {
    var h, p := Header(header), Pair(key, raw);
    NoHeaderNoFind(v, header, key);
    FindInTwo(v, [h, p], header, key, false);
    assert [h, p][1..] == [p];
  }

  lemma {:induction false} RemovedWhere(lines: seq<string>, section: string, key: string, value: string,
                                        owned: string -> bool, n: nat)
    requires owned(value) && n < |lines| && Find(View(lines), SectionHeader(section), key, false) == n
    requires View(lines)[n] == Pair(key, QuoteToml(value))
    ensures RemovedIfOwned(lines, section, key, owned) == RemoveAt(lines, n)
  {
    QuoteRoundTrip(value);
  }

  lemma RemovedFromPlace(lines: seq<string>, p: Place, line: string)
    requires if p.over then p.at < |lines| else p.at <= |lines|
    ensures RemoveAt(PutLine(lines, p, line), p.at) == lines <==> !p.over
  {
    if !p.over {
      assert RemoveAt(PutLine(lines, p, line), p.at) == lines;
    }
  }

  lemma RemovedInSection(lines: seq<string>, section: string, key: string, value: string, owned: string -> bool)
    requires BareKey(key) && owned(value) && HasSection(lines, section)
    ensures RemovedIfOwned(SetLines(lines, section, key, QuoteToml(value)), section, key, owned) == lines
            <==> !HasKey(lines, section, key)
  {
    var v, h, line := View(lines), SectionHeader(section), Assignment(key, QuoteToml(value));
    var p := PlaceFor(lines, v, h, key);
    AssignmentReads(key, value);
    PlaceIsAnEdit(lines, v, h, key);
    PutView(lines, p, line);
    FoundAfterEdit(EditAt(v, p), v, h, key, QuoteToml(value));
    RemovedWhere(PutLine(lines, p, line), section, key, value, owned, p.at);
    RemovedFromPlace(lines, p, line);
  }

  lemma RemovedAppended(lines: seq<string>, section: string, key: string, value: string, owned: string -> bool)
    requires BareKey(section) && BareKey(key) && owned(value) && !HasSection(lines, section)
    ensures |RemovedIfOwned(SetLines(lines, section, key, QuoteToml(value)), section, key, owned)| > |lines|
  {
    AppendedView(lines, section, key, value);
    var v := View(lines) + if lines != [] && lines[|lines| - 1] != "" then [Other] else [];
    FoundAfterAppend(v, SectionHeader(section), key, QuoteToml(value));
    RemovedWhere(SetLines(lines, section, key, QuoteToml(value)), section, key, value, owned, |v| + 1);
  }

  /** Setting a key and removing it again restores the file, line for line, exactly when the section
      was there and its first occurrence did not set the key. */
  lemma SetThenRemove(lines: seq<string>, section: string, key: string, value: string, owned: string -> bool)
    requires BareKey(section) && BareKey(key) && owned(value)
    ensures RemovedIfOwned(SetLines(lines, section, key, QuoteToml(value)), section, key, owned) == lines
            <==> HasSection(lines, section) && !HasKey(lines, section, key)
  {
    if HasSection(lines, section) {
      RemovedInSection(lines, section, key, value, owned);
    } else {
      RemovedAppended(lines, section, key, value, owned);
    }
  }

  /** Setting a key in an empty file and removing it leaves the section behind. */
  lemma EmptyFileIsNotRestored(section: string, key: string, value: string, owned: string -> bool)
    requires BareKey(section) && BareKey(key) && owned(value)
    ensures RemovedIfOwned(SetLines([], section, key, QuoteToml(value)), section, key, owned) != []
  {
    SetThenRemove([], section, key, value, owned);
  }
}
