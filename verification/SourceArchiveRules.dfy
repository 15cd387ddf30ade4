/** What `_check_members` accepts, in the terms of the files: which texts are manifests, where members
    are unpacked, and what they hold. */
module SourceArchiveRules {
  import opened Basics
  import opened Strings
  import opened SourceArchive

  // ---- which texts are manifests ----

  /** Hash, size, path and origin, with tabs between and none inside. */
  ghost predicate Writes(line: string, e: Entry) {
    exists size ::
      && line == e.sha + ['\t'] + size + ['\t'] + e.path + ['\t'] + e.origin
      && IsSha(e.sha) && IsNumeral(size) && Value(size) == e.size
      && '\t' !in e.path && '\t' !in e.origin
  }

  /** One line an entry, in order, and no path twice. */
  ghost predicate IsManifest(text: string, entries: seq<Entry>) {
    entries != [] && DistinctPaths(entries) && AllWritten(SplitLines(text), entries)
  }

  lemma JoinOfFour(a: string, b: string, c: string, d: string)
    ensures Join([a, b, c, d], '\t') == a + ['\t'] + b + ['\t'] + c + ['\t'] + d
  {
    JoinUnfolds(a, [b, c, d], '\t');
    JoinUnfolds(b, [c, d], '\t');
    JoinUnfolds(c, [d], '\t');
    assert [a] + [b, c, d] == [a, b, c, d] && [b] + [c, d] == [b, c, d] && [c] + [d] == [c, d];
    assert Join([d], '\t') == d;
  }

  lemma {:induction false} RowIsParsedIffWritten(line: string, e: Entry)
    ensures ParseRow(line) == Some(e) <==> Writes(line, e)
  {
    if ParseRow(line) == Some(e) {
      var parts := Split(line, '\t');
      JoinUndoesSplit(line, '\t');
      PartsHoldNoSeparator(line, '\t');
      JoinOfFour(parts[0], parts[1], parts[2], parts[3]);
      assert parts == [parts[0], parts[1], parts[2], parts[3]];
    }
    if Writes(line, e) {
      var size :| line == e.sha + ['\t'] + size + ['\t'] + e.path + ['\t'] + e.origin && IsNumeral(size)
        && Value(size) == e.size;
      JoinOfFour(e.sha, size, e.path, e.origin);
      SplitUndoesJoin([e.sha, size, e.path, e.origin], '\t');
    }
  }

  lemma OneMoreEntry(table: Table, before: seq<Entry>, e: Entry)
    requires Tabulates(table, before) && DistinctPaths(before)
    ensures e.path !in table ==>
              DistinctPaths(before + [e]) && Tabulates(table[e.path := (e.sha, e.size)], before + [e])
    ensures DistinctPaths(before + [e]) ==> e.path !in table
  {
    if e.path !in table {
      forall i | 0 <= i < |before| ensures before[i].path != e.path {
        assert before[i].path in table;
      }
      TabulateOneMore(table, before, e);
    } else {
      var i :| 0 <= i < |before| && before[i].path == e.path;
      assert (before + [e])[i].path == (before + [e])[|before|].path;
    }
  }

  ghost predicate AllWritten(lines: seq<string>, entries: seq<Entry>) {
    |entries| == |lines| && forall i :: 0 <= i < |lines| ==> Writes(lines[i], entries[i])
  }

  lemma {:induction false} ParsedRowsAreWritten(lines: seq<string>) returns (entries: seq<Entry>)
    requires ParseRows(lines).Some?
    ensures AllWritten(lines, entries) && DistinctPaths(entries) && Tabulates(ParseRows(lines).value, entries)
  {
    if lines == [] {
      entries := [];
    } else {
      var n := |lines| - 1;
      var before := ParsedRowsAreWritten(lines[..n]);
      var e := ParseRow(lines[n]).value;
      RowIsParsedIffWritten(lines[n], e);
      OneMoreEntry(ParseRows(lines[..n]).value, before, e);
      entries := before + [e];
    }
  }

  lemma {:induction false} WrittenRowsAreParsed(lines: seq<string>, entries: seq<Entry>)
    requires AllWritten(lines, entries) && DistinctPaths(entries)
    ensures ParseRows(lines).Some? && Tabulates(ParseRows(lines).value, entries)
  {
    if lines != [] {
      var n := |lines| - 1;
      var before, e := entries[..n], entries[n];
      assert entries == before + [e];
      WrittenRowsAreParsed(lines[..n], before);
      RowIsParsedIffWritten(lines[n], e);
      OneMoreEntry(ParseRows(lines[..n]).value, before, e);
    }
  }

  lemma OneTable(entries: seq<Entry>, t: Table, u: Table)
    requires Tabulates(t, entries) && Tabulates(u, entries)
    ensures t == u
  {
    forall p | p in t ensures p in u && u[p] == t[p] {
      var i :| 0 <= i < |entries| && entries[i].path == p;
    }
    forall p | p in u ensures p in t {
      var i :| 0 <= i < |entries| && entries[i].path == p;
    }
  }

  /** A text is read as a table exactly if it writes the table's entries, line by line. */
  lemma {:induction false} ManifestIsReadIff(text: string, table: Table)
    ensures ParsedManifest(text) == Some(table) <==>
              exists entries :: IsManifest(text, entries) && Tabulates(table, entries)
  {
    var lines := SplitLines(text);
    if ParsedManifest(text) == Some(table) {
      var entries := ParsedRowsAreWritten(lines);
      assert IsManifest(text, entries);
    }
    if entries: seq<Entry> :| IsManifest(text, entries) && Tabulates(table, entries) {
      WrittenRowsAreParsed(lines, entries);
      OneTable(entries, table, ParseRows(lines).value);
      assert entries[0].path in table;
    }
  }

  // ---- where a member is unpacked ----

  /** Walks the components from a directory, `..` up and others down; nothing when it climbs out. */
  function Resolve(parts: seq<string>, at: seq<string>): Option<seq<string>>
    decreases |parts|
  {
    if parts == [] then Some(at)
    else if parts[0] == "" || parts[0] == "." then Resolve(parts[1..], at)
    else if parts[0] == ".." then (if at == [] then None else Resolve(parts[1..], at[..|at| - 1]))
    else Resolve(parts[1..], at + [parts[0]])
  }

  lemma {:induction false} ResolvesToKept(parts: seq<string>, at: seq<string>)
    requires ".." !in Kept(parts)
    ensures Resolve(parts, at) == Some(at + Kept(parts))
    decreases |parts|
  {
    if parts == [] {
      assert at + [] == at;
    } else if parts[0] == "" || parts[0] == "." {
      assert Kept(parts) == Kept(parts[1..]);
      ResolvesToKept(parts[1..], at);
    } else {
      assert Kept(parts)[0] == parts[0] && Kept(parts)[1..] == Kept(parts[1..]);
      ResolvesToKept(parts[1..], at + [parts[0]]);
      assert at + [parts[0]] + Kept(parts[1..]) == at + Kept(parts);
    }
  }

  /** Unpacked in any directory, a member lands below the directory `top` in it. */
  ghost predicate LandsBelow(m: Member, top: string, rel: string) {
    && (m.name == "" || m.name[0] != '/')
    && exists inner: seq<string> ::
         inner != [] && rel == Join(inner, '/') && Resolve(Split(m.name, '/'), []) == Some([top] + inner)
  }

  lemma AdmissibleLandsBelow(m: Member, top: string)
    requires Admissible(m, top)
    ensures LandsBelow(m, top, Below(m))
  {
    var parts := NameParts(m.name);
    ResolvesToKept(Split(m.name, '/'), []);
    assert [] + parts == parts && parts == [top] + parts[1..];
  }

  // ---- an accepted archive ----

  /** Member `i` is a plain file of a size in bounds, lands below the top directory under a path that a
      manifest entry names, and holds just what that entry says. */
  ghost predicate IsFileOf(k: Codec, m: Member, top: string, e: Entry) {
    && m.regular && 0 <= m.size <= 0x1_0000_0000
    && LandsBelow(m, top, e.path)
    && k.sha(m.content) == e.sha && m.size == e.size
  }

  ghost predicate HasEntry(k: Codec, m: Member, top: string, entries: seq<Entry>) {
    exists j :: 0 <= j < |entries| && IsFileOf(k, m, top, entries[j])
  }

  ghost predicate HasFile(k: Codec, e: Entry, top: string, files: seq<Member>) {
    exists i :: 0 <= i < |files| && IsFileOf(k, files[i], top, e)
  }

  ghost predicate FileTwice(k: Codec, e: Entry, top: string, files: seq<Member>) {
    exists h, i :: 0 <= h < i < |files| && IsFileOf(k, files[h], top, e) && IsFileOf(k, files[i], top, e)
  }

  /** Every file has an entry, and every entry exactly one file. */
  ghost predicate OneToOne(k: Codec, files: seq<Member>, top: string, entries: seq<Entry>) {
    && (forall i :: 0 <= i < |files| ==> HasEntry(k, files[i], top, entries))
    && (forall j :: 0 <= j < |entries| ==> HasFile(k, entries[j], top, files))
    && (forall j :: 0 <= j < |entries| ==> !FileTwice(k, entries[j], top, files))
  }

  ghost predicate HasAll(entries: seq<Entry>) {
    && (exists j :: 0 <= j < |entries| && entries[j].path == "README.txt")
    && (exists j :: 0 <= j < |entries| && "astra-voice/" <= entries[j].path)
    && (exists j :: 0 <= j < |entries| && "upstream/" <= entries[j].path)
  }

  ghost predicate IsManifestFile(k: Codec, m: Member, top: string, entries: seq<Entry>) {
    && m.regular && 0 <= m.size <= 0x100_0000 && LandsBelow(m, top, "MANIFEST.txt")
    && k.decode(m.content).Some? && IsManifest(k.decode(m.content).value, entries)
  }

  /** The manifest comes first, and the other members are the files of its entries. */
  ghost predicate IsSourceArchive(k: Codec, members: seq<Member>, top: string, entries: seq<Entry>) {
    && |members| > 0 && IsManifestFile(k, members[0], top, entries)
    && OneToOne(k, members[1..], top, entries) && HasAll(entries)
  }

  lemma LandsOnce(m: Member, top: string, a: string, b: string)
    requires LandsBelow(m, top, a) && LandsBelow(m, top, b)
    ensures a == b
  {
    var inner :| inner != [] && a == Join(inner, '/') && Resolve(Split(m.name, '/'), []) == Some([top] + inner);
    var other :| other != [] && b == Join(other, '/') && Resolve(Split(m.name, '/'), []) == Some([top] + other);
    assert inner == ([top] + inner)[1..] && other == ([top] + other)[1..];
  }

  lemma FittingIsFile(k: Codec, m: Member, top: string, table: Table, entries: seq<Entry>) returns (j: nat)
    requires Fits(View(k, m, top), table) && Tabulates(table, entries)
    ensures j < |entries| && entries[j].path == Below(m) && IsFileOf(k, m, top, entries[j])
  {
    AdmissibleLandsBelow(m, top);
    var i :| 0 <= i < |entries| && entries[i].path == Below(m);
    j := i;
  }

  lemma EntryHasFile(k: Codec, files: seq<Member>, top: string, table: Table, entries: seq<Entry>, j: nat)
    requires Bijective(Views(k, files, top), table) && Tabulates(table, entries) && DistinctPaths(entries)
    requires j < |entries|
    ensures HasFile(k, entries[j], top, files)
  {
    var views := Views(k, files, top);
    assert entries[j].path in table;
    var i :| 0 <= i < |views| && views[i].rel == entries[j].path;
    assert views[i] == View(k, files[i], top);
    var h := FittingIsFile(k, files[i], top, table, entries);
    assert h == j;
  }

  lemma EntryHasOneFile(k: Codec, files: seq<Member>, top: string, table: Table, e: Entry)
    requires Bijective(Views(k, files, top), table)
    ensures !FileTwice(k, e, top, files)
  {
    var views := Views(k, files, top);
    if h, i :| 0 <= h < i < |files| && IsFileOf(k, files[h], top, e) && IsFileOf(k, files[i], top, e) {
      assert views[h] == View(k, files[h], top) && views[i] == View(k, files[i], top);
      AdmissibleLandsBelow(files[h], top);
      AdmissibleLandsBelow(files[i], top);
      LandsOnce(files[h], top, e.path, Below(files[h]));
      LandsOnce(files[i], top, e.path, Below(files[i]));
    }
  }

  lemma FilesMatchEntries(k: Codec, files: seq<Member>, top: string, table: Table, entries: seq<Entry>)
    requires Bijective(Views(k, files, top), table) && Tabulates(table, entries) && DistinctPaths(entries)
    ensures OneToOne(k, files, top, entries)
  {
    forall i | 0 <= i < |files| ensures HasEntry(k, files[i], top, entries) {
      assert Views(k, files, top)[i] == View(k, files[i], top);
      var j := FittingIsFile(k, files[i], top, table, entries);
    }
    forall j | 0 <= j < |entries| ensures HasFile(k, entries[j], top, files) && !FileTwice(k, entries[j], top, files) {
      EntryHasFile(k, files, top, table, entries, j);
      EntryHasOneFile(k, files, top, table, entries[j]);
    }
  }

  lemma ManifestComesWithTable(k: Codec, m: Member, top: string, table: Table) returns (entries: seq<Entry>)
    requires HasManifest(k, m, top, table)
    ensures IsManifestFile(k, m, top, entries) && Tabulates(table, entries)
  {
    var text := k.decode(m.content).value;
    ManifestIsReadIff(text, table);
    entries :| IsManifest(text, entries) && Tabulates(table, entries);
    AdmissibleLandsBelow(m, top);
  }

  /** What `_check_members` accepts is a source archive: nothing unpacks outside the top directory, and
      members and manifest entries agree one to one in place, size and hash. */
  lemma AcceptedIsSourceArchive(k: Codec, members: seq<Member>, expected: Option<string>) returns (entries: seq<Entry>)
    requires Passes(k, members, expected)
    ensures IsSourceArchive(k, members, TopOf(members, expected), entries)
  {
    var top := TopOf(members, expected);
    var table :| Acceptable(k, members, top, table);
    entries := ManifestComesWithTable(k, members[0], top, table);
    FilesMatchEntries(k, members[1..], top, table, entries);
    KindsAreListed(table, entries);
  }

  lemma KindsAreListed(table: Table, entries: seq<Entry>)
    requires Complete(table) && Tabulates(table, entries)
    ensures HasAll(entries)
  {
    var p :| p in table && Under("astra-voice/", p);
    var q :| q in table && Under("upstream/", q);
    var i :| 0 <= i < |entries| && entries[i].path == README;
    var j :| 0 <= j < |entries| && entries[j].path == p;
    var l :| 0 <= l < |entries| && entries[l].path == q;
  }
}
