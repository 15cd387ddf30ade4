/** The release source archive: what `build` writes and what `_check_members` accepts. */
module SourceArchive {
  import opened Basics
  import opened Strings

  /** UTF-8 and SHA-256 (as hexadecimal text). */
  datatype Codec = Codec(encode: string -> Bytes, decode: Bytes -> Option<string>, sha: Bytes -> string)

  ghost predicate Sound(k: Codec) {
    && (forall s :: k.decode(k.encode(s)) == Some(s))
    && (forall b :: IsSha(k.sha(b)))
  }

  const MANIFEST := "MANIFEST.txt"
  const README := "README.txt"
  const UNPACKED_LIMIT: nat := 0x1_0000_0000
  const MANIFEST_LIMIT: nat := 0x100_0000

  // ---- manifest rows ----

  datatype Entry = Entry(path: string, sha: string, size: nat, origin: string)

  type Table = map<string, (string, nat)>

  predicate IsSha(s: string) {
    |s| == 64 && forall i :: 0 <= i < |s| ==> '0' <= s[i] <= '9' || 'a' <= s[i] <= 'f'
  }

  predicate IsNumeral(s: string) {
    s != "" && forall i :: 0 <= i < |s| ==> '0' <= s[i] <= '9'
  }

  function Digit(c: char): int {
    c as int - '0' as int
  }

  function Numeral(n: nat): (s: string)
    ensures IsNumeral(s)
  {
    var last := [('0' as int + n % 10) as char];
    if n < 10 then last else Numeral(n / 10) + last
  }

  function Value(s: string): nat
    requires IsNumeral(s)
  {
    var last := Digit(s[|s| - 1]);
    if |s| == 1 then last else 10 * Value(s[..|s| - 1]) + last
  }

  lemma {:induction false} ValueOfNumeral(n: nat)
    ensures Value(Numeral(n)) == n
  {
    if n >= 10 {
      ValueOfNumeral(n / 10);
      var s := Numeral(n);
      assert s[..|s| - 1] == Numeral(n / 10);
    }
  }

  function Row(e: Entry): string {
    Join([e.sha, Numeral(e.size), e.path, e.origin], '\t')
  }

  function Rows(entries: seq<Entry>): seq<string> {
    seq(|entries|, i requires 0 <= i < |entries| => Row(entries[i]))
  }

  function Manifest(entries: seq<Entry>): string {
    Unlines(Rows(entries))
  }

  function ParseRow(line: string): Option<Entry> {
    var parts := Split(line, '\t');
    if |parts| != 4 || !IsSha(parts[0]) || !IsNumeral(parts[1]) then None
    else Some(Entry(parts[2], parts[0], Value(parts[1]), parts[3]))
  }

  /** Rows in order; a path may not come twice. */
  function ParseRows(lines: seq<string>): Option<Table> {
    if lines == [] then Some(map[])
    else
      match (ParseRows(lines[..|lines| - 1]), ParseRow(lines[|lines| - 1]))
      case (Some(table), Some(e)) => if e.path in table then None else Some(table[e.path := (e.sha, e.size)])
      case _ => None
  }

  function ParsedManifest(text: string): Option<Table> {
    match ParseRows(SplitLines(text))
    case Some(table) => if table == map[] then None else Some(table)
    case None => None
  }

  method ParseManifest(text: string) returns (r: Option<Table>)
    ensures r == ParsedManifest(text)
  {
    var lines := SplitLines(text);
    var entries: Table := map[];
    for i := 0 to |lines|
      invariant ParseRows(lines[..i]) == Some(entries)
    {
      assert lines[..i + 1][..i] == lines[..i];
      var row := ParseRow(lines[i]);
      if row.None? || row.value.path in entries {
        StaysUnparsed(lines, i + 1);
        return None;
      }
      entries := entries[row.value.path := (row.value.sha, row.value.size)];
    }
    assert lines[..|lines|] == lines;
    if entries == map[] {
      return None;
    }
    r := Some(entries);
  }

  lemma {:induction false} StaysUnparsed(lines: seq<string>, i: nat)
    requires i <= |lines| && ParseRows(lines[..i]).None?
    ensures ParseRows(lines).None?
    decreases |lines| - i
  {
    if i < |lines| {
      assert lines[..i + 1][..i] == lines[..i];
      StaysUnparsed(lines, i + 1);
    } else {
      assert lines[..i] == lines;
    }
  }

  // ---- print, then parse ----

  predicate Plain(s: string) {
    BreakFree(s) && '\t' !in s
  }

  ghost predicate Printable(e: Entry) {
    IsSha(e.sha) && Plain(e.path) && Plain(e.origin)
  }

  ghost predicate DistinctPaths(entries: seq<Entry>) {
    forall i, j :: 0 <= i < j < |entries| ==> entries[i].path != entries[j].path
  }

  function TableOf(entries: seq<Entry>): Table {
    if entries == [] then map[]
    else
      var e := entries[|entries| - 1];
      TableOf(entries[..|entries| - 1])[e.path := (e.sha, e.size)]
  }

  lemma RowParses(e: Entry)
    requires Printable(e)
    ensures ParseRow(Row(e)) == Some(e) && BreakFree(Row(e))
  {
    var parts := [e.sha, Numeral(e.size), e.path, e.origin];
    SplitUndoesJoin(parts, '\t');
    ValueOfNumeral(e.size);
    forall i | 0 <= i < |Row(e)| ensures !IsBreak(Row(e)[i]) {
      JoinHoldsParts(parts, '\t', Row(e)[i]);
    }
  }

  /** The table holds each entry under its path and nothing else. */
  ghost predicate Tabulates(table: Table, entries: seq<Entry>) {
    && (forall p :: p in table ==> exists i :: 0 <= i < |entries| && entries[i].path == p)
    && (forall i :: 0 <= i < |entries| ==>
        entries[i].path in table && table[entries[i].path] == (entries[i].sha, entries[i].size))
  }

  lemma {:induction false} TableTabulates(entries: seq<Entry>)
    requires DistinctPaths(entries)
    ensures Tabulates(TableOf(entries), entries)
  {
    if entries != [] {
      var n := |entries| - 1;
      TableTabulates(entries[..n]);
      assert entries == entries[..n] + [entries[n]];
      TabulateOneMore(TableOf(entries[..n]), entries[..n], entries[n]);
    }
  }

  lemma TabulateOneMore(table: Table, entries: seq<Entry>, e: Entry)
    requires Tabulates(table, entries) && forall i :: 0 <= i < |entries| ==> entries[i].path != e.path
    ensures Tabulates(table[e.path := (e.sha, e.size)], entries + [e])
  {
    var more := entries + [e];
    assert more[|entries|] == e;
    forall p | p in table ensures exists i :: 0 <= i < |more| && more[i].path == p {
      var i :| 0 <= i < |entries| && entries[i].path == p;
      assert more[i].path == p;
    }
  }

  lemma {:induction false} RowsParse(entries: seq<Entry>)
    requires DistinctPaths(entries) && forall i :: 0 <= i < |entries| ==> Printable(entries[i])
    ensures ParseRows(Rows(entries)) == Some(TableOf(entries))
  {
    if entries != [] {
      var n := |entries| - 1;
      RowsParse(entries[..n]);
      RowParses(entries[n]);
      assert Rows(entries)[..n] == Rows(entries[..n]);
      TableTabulates(entries[..n]);
      assert entries[n].path !in TableOf(entries[..n]);
    }
  }

  lemma ManifestLines(entries: seq<Entry>)
    requires forall i :: 0 <= i < |entries| ==> Printable(entries[i])
    ensures SplitLines(Manifest(entries)) == Rows(entries)
  {
    forall i | 0 <= i < |entries| ensures BreakFree(Rows(entries)[i]) {
      RowParses(entries[i]);
    }
    SplitLinesUndoesUnlines(Rows(entries));
  }

  /** What `build` prints, `_parse_manifest` reads back. */
  lemma {:induction false} ManifestRoundTrip(entries: seq<Entry>)
    requires entries != [] && DistinctPaths(entries) && forall i :: 0 <= i < |entries| ==> Printable(entries[i])
    ensures ParsedManifest(Manifest(entries)) == Some(TableOf(entries))
  {
    TableTabulates(entries);
    assert entries[0].path in TableOf(entries);
    RowsParse(entries);
    ManifestLines(entries);
  }

  // ---- the checker ----

  datatype Member = Member(name: string, regular: bool, size: int, content: Bytes)

  /** `PurePosixPath(name).parts` of a relative name: empty and `.` parts vanish. */
  function NameParts(name: string): seq<string> {
    Kept(Split(name, '/'))
  }

  function Kept(parts: seq<string>): seq<string> {
    if parts == [] then []
    else (if parts[0] == "" || parts[0] == "." then [] else [parts[0]]) + Kept(parts[1..])
  }

  predicate IsAbsolute(name: string) {
    name != "" && name[0] == '/'
  }

  /** The path below the top directory. */
  function Below(m: Member): string {
    var parts := NameParts(m.name);
    if parts == [] then "" else Join(parts[1..], '/')
  }

  /** A regular file below `top`, of a size within the limit. */
  predicate Admissible(m: Member, top: string) {
    && !IsAbsolute(m.name) && ".." !in NameParts(m.name) && |NameParts(m.name)| >= 2
    && m.regular && 0 <= m.size <= UNPACKED_LIMIT
    && NameParts(m.name)[0] == top
  }

  /** What the checker learns of one member. */
  datatype File = File(admissible: bool, rel: string, size: int, digest: string)

  function View(k: Codec, m: Member, top: string): File {
    File(Admissible(m, top), Below(m), m.size, k.sha(m.content))
  }

  function Views(k: Codec, members: seq<Member>, top: string): seq<File> {
    seq(|members|, i requires 0 <= i < |members| => View(k, members[i], top))
  }

  /** Admissible, and in agreement with its manifest row. */
  predicate Fits(f: File, table: Table) {
    f.admissible && f.rel in table && table[f.rel] == (f.digest, f.size)
  }

  ghost predicate AllFit(files: seq<File>, table: Table) {
    forall i :: 0 <= i < |files| ==> Fits(files[i], table)
  }

  ghost predicate NoRepeats(files: seq<File>) {
    forall i, j :: 0 <= i < j < |files| ==> files[i].rel != files[j].rel
  }

  /** The files are in one-to-one correspondence with the rows, and agree with them. */
  ghost predicate Bijective(files: seq<File>, table: Table) {
    && AllFit(files, table)
    && NoRepeats(files)
    && (forall p :: p in table ==> exists i :: 0 <= i < |files| && files[i].rel == p)
  }

  predicate Under(prefix: string, p: string) {
    prefix <= p
  }

  ghost predicate Complete(table: Table) {
    && README in table
    && (exists p :: p in table && Under("astra-voice/", p))
    && (exists p :: p in table && Under("upstream/", p))
  }

  ghost predicate HasManifest(k: Codec, m: Member, top: string, table: Table) {
    && Admissible(m, top) && Below(m) == MANIFEST && m.size <= MANIFEST_LIMIT
    && k.decode(m.content).Some? && ParsedManifest(k.decode(m.content).value) == Some(table)
  }

  /** The manifest first, then exactly the files it lists. */
  ghost predicate Acceptable(k: Codec, members: seq<Member>, top: string, table: Table) {
    && |members| > 0 && HasManifest(k, members[0], top, table)
    && Bijective(Views(k, members[1..], top), table)
    && Complete(table)
  }

  /** The top directory in force: the one asked for, or that of the first member. */
  function TopOf(members: seq<Member>, expected: Option<string>): string {
    match expected
    case Some(top) => top
    case None => if members == [] || NameParts(members[0].name) == [] then "" else NameParts(members[0].name)[0]
  }

  ghost predicate Passes(k: Codec, members: seq<Member>, expected: Option<string>) {
    exists table :: Acceptable(k, members, TopOf(members, expected), table)
  }

  ghost predicate AreRels(seen: set<string>, files: seq<File>) {
    && (forall i :: 0 <= i < |files| ==> files[i].rel in seen)
    && (forall p :: p in seen ==> exists i :: 0 <= i < |files| && files[i].rel == p)
  }

  lemma OneMoreSeen(files: seq<File>, i: nat, seen: set<string>)
    requires i < |files| && NoRepeats(files[..i]) && AreRels(seen, files[..i])
    ensures if files[i].rel in seen then !NoRepeats(files)
            else NoRepeats(files[..i + 1]) && AreRels(seen + {files[i].rel}, files[..i + 1])
  {
    var front := files[..i];
    assert files[..i + 1] == front + [files[i]];
    if files[i].rel in seen {
      var j :| 0 <= j < i && front[j].rel == files[i].rel;
      assert files[j].rel == files[i].rel;
    } else {
      RelsGrow(front, files[i], seen);
    }
  }

  lemma RelsGrow(front: seq<File>, f: File, seen: set<string>)
    requires AreRels(seen, front)
    ensures AreRels(seen + {f.rel}, front + [f])
  {
    var files := front + [f];
    forall p | p in seen + {f.rel} ensures exists i :: 0 <= i < |files| && files[i].rel == p {
      if p in seen {
        var i :| 0 <= i < |front| && front[i].rel == p;
        assert files[i].rel == p;
      } else {
        assert files[|front|].rel == p;
      }
    }
  }

  /** The first `i` files are in order, and `seen` holds their paths. */
  ghost predicate InOrder(files: seq<File>, i: nat, seen: set<string>, table: Table)
    requires i <= |files|
  {
    AllFit(files[..i], table) && NoRepeats(files[..i]) && AreRels(seen, files[..i])
  }

  lemma OneMoreFile(files: seq<File>, i: nat, seen: set<string>, table: Table)
    requires i < |files| && InOrder(files, i, seen, table)
    ensures if Fits(files[i], table) && files[i].rel !in seen then InOrder(files, i + 1, seen + {files[i].rel}, table)
            else !(AllFit(files, table) && NoRepeats(files))
  {
    OneMoreSeen(files, i, seen);
    assert files[..i + 1] == files[..i] + [files[i]];
  }

  lemma AllFiles(files: seq<File>, seen: set<string>, table: Table)
    requires InOrder(files, |files|, seen, table)
    ensures AllFit(files, table) && NoRepeats(files) && AreRels(seen, files)
  {
    assert files[..|files|] == files;
  }

  /** The loop over the members after the manifest. */
  method CheckEach(k: Codec, members: seq<Member>, top: string, table: Table) returns (ok: bool, seen: set<string>)
    ensures ok <==> AllFit(Views(k, members, top), table) && NoRepeats(Views(k, members, top))
    ensures ok ==> AreRels(seen, Views(k, members, top))
  {
    ghost var all := Views(k, members, top);
    seen := {};
    for i := 0 to |members|
      invariant InOrder(all, i, seen, table)
    {
      var f := View(k, members[i], top);
      assert f == all[i];
      OneMoreFile(all, i, seen, table);
      if f.rel in seen || !Fits(f, table) {
        return false, seen;
      }
      seen := seen + {f.rel};
    }
    AllFiles(all, seen, table);
    ok := true;
  }

  method HasAllKinds(seen: set<string>) returns (ok: bool)
    ensures ok <==>
              && README in seen && (exists p :: p in seen && Under("astra-voice/", p))
              && exists p :: p in seen && Under("upstream/", p)
  {
    ok := README in seen && (exists p | p in seen :: "astra-voice/" <= p) && (exists p | p in seen :: "upstream/" <= p);
    assert forall p :: Under("astra-voice/", p) <==> "astra-voice/" <= p;
    assert forall p :: Under("upstream/", p) <==> "upstream/" <= p;
  }

  method CheckMembers(k: Codec, members: seq<Member>, expected: Option<string>) returns (count: Option<nat>)
    ensures count.Some? <==> Passes(k, members, expected)
    ensures count.Some? ==> count.value == |members| - 1
  {
    var top := TopOf(members, expected);
    count := None;
    if members == [] || !Admissible(members[0], top) || Below(members[0]) != MANIFEST
       || members[0].size > MANIFEST_LIMIT {
      return;
    }
    var text := k.decode(members[0].content);
    if text.None? {
      return;
    }
    var parsed := ParseManifest(text.value);
    if parsed.None? {
      return;
    }
    var table := parsed.value;
    assert HasManifest(k, members[0], top, table);
    var ok, seen := CheckEach(k, members[1..], top, table);
    if !ok {
      return;
    }
    if exists p | p in table.Keys :: p !in seen {
      return;
    }
    SeenAreRows(Views(k, members[1..], top), seen, table);
    ok := HasAllKinds(seen);
    if ok {
      assert Acceptable(k, members, top, table);
      count := Some(|members| - 1);
    }
  }

  lemma SeenAreRows(files: seq<File>, seen: set<string>, table: Table)
    requires AreRels(seen, files) && AllFit(files, table) && NoRepeats(files) && forall p :: p in table ==> p in seen
    ensures seen == table.Keys && Bijective(files, table)
  {
  }

  // ---- the builder ----

  /** A lock entry whose cached file passed verification. */
  datatype Source = Source(id: string, file: string, url: string, content: Bytes)

  datatype Release = Release(version: string, commit: string, readme: Bytes, code: Bytes, sources: seq<Source>)

  datatype Item = Item(entry: Entry, content: Bytes)

  function Listed(k: Codec, path: string, origin: string, content: Bytes): Item {
    Item(Entry(path, k.sha(content), |content|, origin), content)
  }

  function CodePath(r: Release): string
    requires |r.commit| >= 12
  {
    Join(["astra-voice", "astra-voice-" + r.version + "-" + r.commit[..12] + ".tar"], '/')
  }

  function SourcePath(s: Source): string {
    Join(["upstream", s.id, s.file], '/')
  }

  /** README, the program's own source, then the locked upstream sources. */
  function Items(k: Codec, r: Release): seq<Item>
    requires |r.commit| >= 12
  {
    [Listed(k, README, "astra-voice", r.readme), Listed(k, CodePath(r), "git " + r.commit, r.code)]
    + seq(|r.sources|, i requires 0 <= i < |r.sources| =>
        Listed(k, SourcePath(r.sources[i]), r.sources[i].url, r.sources[i].content))
  }

  method CollectItems(k: Codec, r: Release) returns (files: seq<Item>)
    requires |r.commit| >= 12
    ensures files == Items(k, r)
  {
    files := [Listed(k, README, "astra-voice", r.readme), Listed(k, CodePath(r), "git " + r.commit, r.code)];
    for i := 0 to |r.sources|
      invariant files == Items(k, r)[..i + 2]
    {
      var source := r.sources[i];
      files := files + [Listed(k, SourcePath(source), source.url, source.content)];
    }
  }

  function Top(r: Release): string {
    "astra-voice-" + r.version + "-sources"
  }

  function Entries(items: seq<Item>): seq<Entry> {
    seq(|items|, i requires 0 <= i < |items| => items[i].entry)
  }

  function ManifestOf(k: Codec, items: seq<Item>): Bytes {
    k.encode(Manifest(Entries(items)))
  }

  /** The members in the order written: the manifest, then every item. */
  function Archive(k: Codec, top: string, items: seq<Item>): seq<Member> {
    [Member(top + ['/'] + MANIFEST, true, |ManifestOf(k, items)|, ManifestOf(k, items))]
    + seq(|items|, i requires 0 <= i < |items| =>
        Member(top + ['/'] + items[i].entry.path, true, items[i].entry.size, items[i].content))
  }

  // ---- what the lock file guarantees ----

  predicate IsName(s: string) {
    s != "" && s != "." && s != ".." && '/' !in s && Plain(s)
  }

  /** What the lock parser has checked, and a version that is a plain piece of a file name. */
  ghost predicate ValidRelease(r: Release) {
    && '/' !in r.version && Plain(r.version)
    && |r.commit| == 40 && (forall i :: 0 <= i < 40 ==> '0' <= r.commit[i] <= '9' || 'a' <= r.commit[i] <= 'f')
    && (forall i :: 0 <= i < |r.sources| ==>
        IsName(r.sources[i].id) && IsName(r.sources[i].file) && Plain(r.sources[i].url))
    && (forall i, j :: 0 <= i < j < |r.sources| ==> r.sources[i].id != r.sources[j].id)
  }

  ghost predicate WithinLimits(k: Codec, items: seq<Item>) {
    && |ManifestOf(k, items)| <= MANIFEST_LIMIT
    && forall i :: 0 <= i < |items| ==> |items[i].content| <= UNPACKED_LIMIT
  }

  /** A path all of whose parts are names survives the checker's reading of member names. */
  ghost predicate GoodPath(p: string, parts: seq<string>) {
    && |parts| > 0 && p == Join(parts, '/')
    && forall i :: 0 <= i < |parts| ==> IsName(parts[i])
  }

  lemma {:induction false} NamesAreKept(parts: seq<string>)
    requires forall i :: 0 <= i < |parts| ==> parts[i] != "" && parts[i] != "."
    ensures Kept(parts) == parts
  {
    if parts != [] {
      NamesAreKept(parts[1..]);
    }
  }

  lemma {:induction false} GoodPathIsBelowTop(top: string, p: string, parts: seq<string>)
    requires IsName(top) && GoodPath(p, parts)
    ensures NameParts(top + ['/'] + p) == [top] + parts && Join(parts, '/') == p
  {
    SplitUndoesJoin(parts, '/');
    SplitAtSeparator(top, '/', p);
    NamesAreKept([top] + parts);
  }

  lemma MemberIsAdmissible(k: Codec, top: string, p: string, parts: seq<string>, content: Bytes)
    requires IsName(top) && GoodPath(p, parts) && |content| <= UNPACKED_LIMIT
    ensures View(k, Member(top + ['/'] + p, true, |content|, content), top) == File(true, p, |content|, k.sha(content))
  {
    GoodPathIsBelowTop(top, p, parts);
    var name := top + ['/'] + p;
    assert name[0] == top[0];
    assert top[0] in top;
    assert ([top] + parts)[1..] == parts;
    assert forall i :: 0 <= i < |parts| ==> parts[i] != "..";
  }

  // ---- the items of a valid release ----

  lemma PathsAreGood(k: Codec, r: Release, i: nat) returns (parts: seq<string>)
    requires ValidRelease(r) && i < |Items(k, r)|
    ensures GoodPath(Items(k, r)[i].entry.path, parts)
    ensures i == 0 ==> parts == [README]
    ensures i == 1 ==> |parts| == 2 && parts[0] == "astra-voice"
    ensures i >= 2 ==> parts == ["upstream", r.sources[i - 2].id, r.sources[i - 2].file]
  {
    WordsAreNames();
    if i == 0 {
      parts := [README];
    } else if i == 1 {
      AffixesArePlain();
      var name := "astra-voice-" + r.version + "-" + r.commit[..12] + ".tar";
      assert name[0] == 'a';
      assert IsName(name);
      parts := ["astra-voice", name];
    } else {
      parts := ["upstream", r.sources[i - 2].id, r.sources[i - 2].file];
    }
  }

  lemma WordsAreNames()
    ensures IsName(README) && IsName("astra-voice") && IsName("upstream") && IsName(MANIFEST)
    ensures README != "astra-voice" && README != "upstream" && "astra-voice" != "upstream"
  {
    ReadmeIsName();
    ProgramIsName();
    UpstreamIsName();
    ManifestIsName();
    assert README[0] == 'R' && "astra-voice"[0] == 'a' && "upstream"[0] == 'u';
  }

  lemma ReadmeIsName()
    ensures IsName(README)
  {
  }

  lemma ProgramIsName()
    ensures IsName("astra-voice")
  {
  }

  lemma UpstreamIsName()
    ensures IsName("upstream")
  {
  }

  lemma ManifestIsName()
    ensures IsName(MANIFEST)
  {
  }

  /** The fixed parts of names built from a version and a commit. */
  lemma AffixesArePlain()
    ensures Plain("astra-voice-") && '/' !in "astra-voice-" && Plain("-sources") && '/' !in "-sources"
    ensures Plain("git ") && Plain(".tar") && '/' !in ".tar" && Plain("-") && '/' !in "-"
  {
  }

  lemma ItemsDiffer(k: Codec, r: Release, i: nat, j: nat)
    requires ValidRelease(r) && i < j < |Items(k, r)|
    ensures Items(k, r)[i].entry.path != Items(k, r)[j].entry.path
  {
    WordsAreNames();
    var p := PathsAreGood(k, r, i);
    var q := PathsAreGood(k, r, j);
    SplitUndoesJoin(p, '/');
    SplitUndoesJoin(q, '/');
    assert p[0] != q[0] || p[1] != q[1];
  }

  // ---- every built archive passes ----

  /** The order in which the items are written: some permutation of them. */
  ghost predicate IsOrder(k: Codec, r: Release, order: seq<Item>)
    requires |r.commit| >= 12
  {
    multiset(order) == multiset(Items(k, r))
  }

  lemma {:induction false} AtMostOnce(items: seq<Item>, x: Item)
    requires forall i, j :: 0 <= i < j < |items| ==> items[i] != items[j]
    ensures multiset(items)[x] <= 1
  {
    if items != [] {
      var n := |items| - 1;
      assert items == items[..n] + [items[n]];
      AtMostOnce(items[..n], x);
      assert items[n] !in items[..n];
    }
  }

  lemma OrderedIsItem(k: Codec, r: Release, order: seq<Item>, i: nat) returns (j: nat)
    requires ValidRelease(r) && IsOrder(k, r, order) && i < |order|
    ensures j < |Items(k, r)| && order[i] == Items(k, r)[j]
  {
    assert order[i] in multiset(order);
    assert order[i] in Items(k, r);
    j :| 0 <= j < |Items(k, r)| && order[i] == Items(k, r)[j];
  }

  lemma OrderedPathsDiffer(k: Codec, r: Release, order: seq<Item>)
    requires ValidRelease(r) && IsOrder(k, r, order)
    ensures DistinctPaths(Entries(order))
  {
    var items := Items(k, r);
    forall i, j | 0 <= i < j < |items| ensures items[i].entry.path != items[j].entry.path {
      ItemsDiffer(k, r, i, j);
    }
    forall i, j | 0 <= i < j < |order| ensures order[i].entry.path != order[j].entry.path {
      AtMostOnce(items, order[i]);
      TwiceInSequence(order, i, j);
      var m := OrderedIsItem(k, r, order, i);
      var n := OrderedIsItem(k, r, order, j);
    }
  }

  lemma ItemsArePrintable(k: Codec, r: Release, i: nat)
    requires Sound(k) && ValidRelease(r) && i < |Items(k, r)|
    ensures var item := Items(k, r)[i];
            Printable(item.entry) && item.entry.sha == k.sha(item.content) && item.entry.size == |item.content|
  {
    WordsAreNames();
    AffixesArePlain();
    var parts := PathsAreGood(k, r, i);
    var p := Items(k, r)[i].entry.path;
    forall n | 0 <= n < |p| ensures !IsBreak(p[n]) && p[n] != '\t' {
      JoinHoldsParts(parts, '/', p[n]);
    }
    assert IsSha(k.sha(Items(k, r)[i].content));
    assert forall n :: 0 <= n < |r.commit| ==> !IsBreak(r.commit[n]) && r.commit[n] != '\t';
  }

  /** The members after the manifest look to the checker exactly like their entries. */
  lemma ViewsOfArchive(k: Codec, r: Release, order: seq<Item>, i: nat)
    requires Sound(k) && ValidRelease(r) && IsOrder(k, r, order) && WithinLimits(k, order) && i < |order|
    ensures var e := order[i].entry;
            Views(k, Archive(k, Top(r), order)[1..], Top(r))[i] == File(true, e.path, e.size, e.sha)
  {
    var j := OrderedIsItem(k, r, order, i);
    ItemsArePrintable(k, r, j);
    var parts := PathsAreGood(k, r, j);
    TopIsName(r);
    MemberIsAdmissible(k, Top(r), order[i].entry.path, parts, order[i].content);
  }

  lemma TopIsName(r: Release)
    requires ValidRelease(r)
    ensures IsName(Top(r))
  {
    AffixesArePlain();
    assert Top(r)[0] == 'a';
  }

  lemma ManifestComesFirst(k: Codec, r: Release, order: seq<Item>)
    requires Sound(k) && ValidRelease(r) && IsOrder(k, r, order) && WithinLimits(k, order)
    ensures HasManifest(k, Archive(k, Top(r), order)[0], Top(r), TableOf(Entries(order)))
  {
    WordsAreNames();
    TopIsName(r);
    var content := ManifestOf(k, order);
    MemberIsAdmissible(k, Top(r), MANIFEST, [MANIFEST], content);
    forall i | 0 <= i < |order| ensures Printable(Entries(order)[i]) {
      var j := OrderedIsItem(k, r, order, i);
      ItemsArePrintable(k, r, j);
    }
    OrderedPathsDiffer(k, r, order);
    assert |multiset(order)| == |multiset(Items(k, r))|;
    assert |order| > 0;
    ManifestRoundTrip(Entries(order));
    assert k.decode(k.encode(Manifest(Entries(order)))) == Some(Manifest(Entries(order)));
  }

  lemma FilesMatchTable(k: Codec, r: Release, order: seq<Item>)
    requires Sound(k) && ValidRelease(r) && IsOrder(k, r, order) && WithinLimits(k, order)
    ensures Bijective(Views(k, Archive(k, Top(r), order)[1..], Top(r)), TableOf(Entries(order)))
  {
    var files, entries := Views(k, Archive(k, Top(r), order)[1..], Top(r)), Entries(order);
    OrderedPathsDiffer(k, r, order);
    TableTabulates(entries);
    forall i | 0 <= i < |order|
      ensures files[i] == File(true, entries[i].path, entries[i].size, entries[i].sha)
    {
      ViewsOfArchive(k, r, order, i);
    }
    MatchedIsBijective(files, entries, TableOf(entries));
  }

  lemma MatchedIsBijective(files: seq<File>, entries: seq<Entry>, table: Table)
    requires DistinctPaths(entries) && Tabulates(table, entries) && |files| == |entries|
    requires forall i :: 0 <= i < |files| ==> files[i] == File(true, entries[i].path, entries[i].size, entries[i].sha)
    ensures Bijective(files, table)
  {
    forall p | p in table ensures exists i :: 0 <= i < |files| && files[i].rel == p {
      var i :| 0 <= i < |entries| && entries[i].path == p;
      assert files[i].rel == p;
    }
  }

  lemma ListedPath(k: Codec, r: Release, order: seq<Item>, p: string)
    requires ValidRelease(r) && IsOrder(k, r, order)
    ensures p in TableOf(Entries(order)) <==> exists j :: 0 <= j < |Items(k, r)| && Items(k, r)[j].entry.path == p
  {
    var entries := Entries(order);
    OrderedPathsDiffer(k, r, order);
    TableTabulates(entries);
    if p in TableOf(entries) {
      var i :| 0 <= i < |entries| && entries[i].path == p;
      var j := OrderedIsItem(k, r, order, i);
      assert Items(k, r)[j].entry.path == p;
    }
    if j :| 0 <= j < |Items(k, r)| && Items(k, r)[j].entry.path == p {
      assert Items(k, r)[j] in multiset(Items(k, r));
      assert Items(k, r)[j] in order;
      var i :| 0 <= i < |order| && order[i] == Items(k, r)[j];
      assert entries[i].path == p;
    }
  }

  lemma KindsOfPaths(k: Codec, r: Release, j: nat)
    requires ValidRelease(r) && j < |Items(k, r)|
    ensures var p := Items(k, r)[j].entry.path;
            && (j == 0 ==> p == README)
            && (j == 1 ==> Under("astra-voice/", p))
            && (Under("upstream/", p) <==> j >= 2)
  {
    var parts := PathsAreGood(k, r, j);
    var p := Items(k, r)[j].entry.path;
    if j == 0 {
      assert p[0] == 'R' && "upstream/"[0] == 'u';
    } else {
      JoinUnfolds(parts[0], parts[1..], '/');
      assert parts == [parts[0]] + parts[1..];
      if j == 1 {
        assert p == "astra-voice" + ['/'] + Join(parts[1..], '/');
        assert p[0] == 'a' && "upstream/"[0] == 'u';
        assert "astra-voice" + ['/'] == "astra-voice/";
      } else {
        assert p == "upstream" + ['/'] + Join(parts[1..], '/');
        assert "upstream" + ['/'] == "upstream/";
      }
    }
  }

  lemma CompleteIffSources(k: Codec, r: Release, order: seq<Item>)
    requires ValidRelease(r) && IsOrder(k, r, order)
    ensures Complete(TableOf(Entries(order))) <==> |r.sources| > 0
  {
    var items, table := Items(k, r), TableOf(Entries(order));
    forall p ensures p in table <==> exists j :: 0 <= j < |items| && items[j].entry.path == p {
      ListedPath(k, r, order, p);
    }
    forall j | 0 <= j < |items|
      ensures (j == 0 ==> items[j].entry.path == README) && (j == 1 ==> Under("astra-voice/", items[j].entry.path))
      ensures Under("upstream/", items[j].entry.path) <==> j >= 2
    {
      KindsOfPaths(k, r, j);
    }
    assert items[0].entry.path in table && items[1].entry.path in table;
    if |r.sources| > 0 {
      assert items[2].entry.path in table;
    }
  }

  /** An archive built from a valid release within the limits passes the check, whatever the order
      of its members, exactly when the lock names at least one upstream source. */
  lemma BuiltArchivePassesIffSources(k: Codec, r: Release, order: seq<Item>, expected: Option<string>)
    requires Sound(k) && ValidRelease(r) && IsOrder(k, r, order) && WithinLimits(k, order)
    requires expected.None? || expected.value == Top(r)
    ensures Passes(k, Archive(k, Top(r), order), expected) <==> |r.sources| > 0
  {
    var members, table := Archive(k, Top(r), order), TableOf(Entries(order));
    ManifestComesFirst(k, r, order);
    assert TopOf(members, expected) == Top(r);
    FilesMatchTable(k, r, order);
    CompleteIffSources(k, r, order);
    if |r.sources| > 0 {
      assert Acceptable(k, members, Top(r), table);
    }
  }
}
