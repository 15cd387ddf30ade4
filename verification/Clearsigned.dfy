/** Clearsigned files: the checker `check_clearsigned` and the extractor `strip_pgp`
    (section 7.1 of RFC 4880), which have to agree on where the signed text is. */
module Clearsigned {
  import opened Strings

  const SIGNED_BEGIN := "-----BEGIN PGP SIGNED MESSAGE-----"
  const SIG_BEGIN := "-----BEGIN PGP SIGNATURE-----"
  const SIG_END := "-----END PGP SIGNATURE-----"

  predicate StartsWith(line: string, prefix: string) {
    prefix <= line
  }

  /** What `str.strip` removes. */
  predicate IsSpace(c: char) {
    || '\t' <= c <= '\r' || '\U{001C}' <= c <= ' ' || c == '\U{0085}' || c == '\U{00A0}'
    || c == '\U{1680}' || '\U{2000}' <= c <= '\U{200A}' || '\U{2028}' <= c <= '\U{2029}'
    || c == '\U{202F}' || c == '\U{205F}' || c == '\U{3000}'
  }

  predicate Blank(line: string) {
    forall i :: 0 <= i < |line| ==> IsSpace(line[i])
  }

  /** In signed text a line may start with a dash only as the escape `- `. */
  predicate Escaped(line: string) {
    StartsWith(line, "-") ==> StartsWith(line, "- ")
  }

  /** The four parts of a clearsigned file, between its marker lines. */
  datatype Message = Message(headers: seq<string>, body: seq<string>, signature: seq<string>, tail: seq<string>)

  function Lines(m: Message): seq<string> {
    [SIGNED_BEGIN] + m.headers + [""] + m.body + [SIG_BEGIN] + m.signature + [SIG_END] + m.tail
  }

  ghost predicate WellFormed(m: Message) {
    && (forall i :: 0 <= i < |m.headers| ==> StartsWith(m.headers[i], "Hash:"))
    && (forall i :: 0 <= i < |m.body| ==> Escaped(m.body[i]))
    && (forall i :: 0 <= i < |m.signature| ==> m.signature[i] !in [SIGNED_BEGIN, SIG_BEGIN, SIG_END])
    && (forall i :: 0 <= i < |m.tail| ==> Blank(m.tail[i]))
  }

  ghost predicate IsMessage(lines: seq<string>, m: Message) {
    WellFormed(m) && lines == Lines(m)
  }

  // ---- the shape is unique ----

  /** The first line of `lines` equal to `mark` ends the part before it. */
  lemma PartEndsAtMark(p: seq<string>, mark: string, rest: seq<string>, q: seq<string>, others: seq<string>)
    requires p + [mark] + rest == q + [mark] + others
    requires (forall i :: 0 <= i < |p| ==> p[i] != mark) && forall i :: 0 <= i < |q| ==> q[i] != mark
    ensures p == q && rest == others
  {
    var all := p + [mark] + rest;
    assert all == q + [mark] + others;
    assert all[|p|] == mark && all[|q|] == mark;
    assert forall i :: 0 <= i < |p| ==> all[i] == p[i];
    assert forall i :: 0 <= i < |q| ==> all[i] == q[i];
    assert p == all[..|p|] && rest == all[|p| + 1..];
    assert q == all[..|q|] && others == all[|q| + 1..];
  }

  /** An unescaped body cannot hold the line that ends it. */
  lemma MarkIsNotEscaped()
    ensures !Escaped(SIG_BEGIN) && SIG_BEGIN != SIG_END && SIG_BEGIN != SIGNED_BEGIN && !StartsWith("", "Hash:")
  {
    assert SIG_BEGIN[1] == '-' && "- "[1] == ' ';
    assert SIG_BEGIN[..1] == "-";
    assert |SIG_BEGIN| != |SIGNED_BEGIN| && |SIG_BEGIN| != |SIG_END|;
  }

  lemma ShapeIsUnique(m: Message, n: Message)
    requires WellFormed(m) && WellFormed(n) && Lines(m) == Lines(n)
    ensures m == n
  {
    var s1, s2 := m.signature + [SIG_END] + m.tail, n.signature + [SIG_END] + n.tail;
    var b1, b2 := m.body + [SIG_BEGIN] + s1, n.body + [SIG_BEGIN] + s2;
    assert Lines(m) == [SIGNED_BEGIN] + (m.headers + [""] + b1);
    assert Lines(n) == [SIGNED_BEGIN] + (n.headers + [""] + b2);
    assert Lines(m)[1..] == m.headers + [""] + b1 && Lines(n)[1..] == n.headers + [""] + b2;
    MarkIsNotEscaped();
    PartEndsAtMark(m.headers, "", b1, n.headers, b2);
    PartEndsAtMark(m.body, SIG_BEGIN, s1, n.body, s2);
    PartEndsAtMark(m.signature, SIG_END, m.tail, n.signature, n.tail);
  }

  /** The same shape by positions: blank line at `h`, signature from `b` to `e`. */
  ghost predicate IsCut(lines: seq<string>, h: nat, b: nat, e: nat) {
    && 1 <= h < b < e < |lines| && lines[0] == SIGNED_BEGIN
    && lines[h] == "" && lines[b] == SIG_BEGIN && lines[e] == SIG_END
    && (forall k :: 1 <= k < h ==> StartsWith(lines[k], "Hash:"))
    && (forall k :: h < k < b ==> Escaped(lines[k]))
    && (forall k :: b < k < e ==> lines[k] !in [SIGNED_BEGIN, SIG_BEGIN, SIG_END])
    && (forall k :: e < k < |lines| ==> Blank(lines[k]))
  }

  lemma MessageIsCut(lines: seq<string>, m: Message)
    requires IsMessage(lines, m)
    ensures var h := 1 + |m.headers|;
            var b := h + 1 + |m.body|;
            IsCut(lines, h, b, b + 1 + |m.signature|)
  {
    var h := 1 + |m.headers|;
    var b := h + 1 + |m.body|;
    var e := b + 1 + |m.signature|;
    assert forall k :: 1 <= k < h ==> lines[k] == m.headers[k - 1];
    assert forall k :: h < k < b ==> lines[k] == m.body[k - h - 1];
    assert forall k :: b < k < e ==> lines[k] == m.signature[k - b - 1];
    assert forall k :: e < k < |lines| ==> lines[k] == m.tail[k - e - 1];
  }

  lemma CutInFour<T>(q: seq<T>, h: nat, b: nat, e: nat)
    requires 1 <= h < b < e < |q|
    ensures q == [q[0]] + q[1..h] + [q[h]] + q[h + 1..b] + [q[b]] + q[b + 1..e] + [q[e]] + q[e + 1..]
  {
  }

  lemma CutIsMessage(lines: seq<string>, h: nat, b: nat, e: nat)
    requires IsCut(lines, h, b, e)
    ensures IsMessage(lines, Message(lines[1..h], lines[h + 1..b], lines[b + 1..e], lines[e + 1..]))
  {
    CutInFour(lines, h, b, e);
  }

  ghost predicate HasCut(lines: seq<string>) {
    exists h: nat, b: nat, e: nat :: IsCut(lines, h, b, e)
  }

  lemma SomeCutIsMessage(lines: seq<string>)
    requires HasCut(lines)
    ensures exists m :: IsMessage(lines, m)
  {
    var h: nat, b: nat, e: nat :| IsCut(lines, h, b, e);
    CutIsMessage(lines, h, b, e);
  }

  lemma MessageIffCut(lines: seq<string>)
    ensures (exists m :: IsMessage(lines, m)) <==> HasCut(lines)
  {
    if HasCut(lines) {
      SomeCutIsMessage(lines);
    } else {
      forall m | IsMessage(lines, m) ensures false {
        MessageIsCut(lines, m);
      }
    }
  }

  // ---- the checker ----

  datatype Verdict = Fine | NotClearsigned | BadHeader | Unescaped | NoSignature | NestedBlock | Unclosed | Trailing

  /** The headers end at the first line that is empty or, in a broken file, not a header. */
  lemma HeadersEnd(lines: seq<string>, i: nat)
    requires 1 <= i <= |lines| && forall k :: 1 <= k < i ==> StartsWith(lines[k], "Hash:")
    requires i < |lines| ==> lines[i] == "" || !StartsWith(lines[i], "Hash:")
    ensures forall h: nat, b: nat, e: nat :: IsCut(lines, h, b, e) ==> h == i && i < |lines| && lines[i] == ""
  {
    MarkIsNotEscaped();
  }

  lemma BodyEnds(lines: seq<string>, blank: nat, i: nat)
    requires blank < i && forall k :: blank < k < i && k < |lines| ==> lines[k] != SIG_BEGIN
    requires i < |lines| ==> lines[i] == SIG_BEGIN || !Escaped(lines[i])
    ensures forall b: nat, e: nat :: IsCut(lines, blank, b, e) ==> b == i && i < |lines| && lines[i] == SIG_BEGIN
  {
    MarkIsNotEscaped();
  }

  lemma SignatureEnds(lines: seq<string>, blank: nat, begin: nat, i: nat)
    requires begin < i && forall k :: begin < k < i && k < |lines| ==> lines[k] != SIG_END
    requires i < |lines| ==> lines[i] in [SIG_END, SIGNED_BEGIN, SIG_BEGIN]
    ensures forall e: nat :: IsCut(lines, blank, begin, e) ==> e == i && i < |lines| && lines[i] == SIG_END
  {
  }

  method SkipHeaders(lines: seq<string>) returns (ok: bool, i: nat)
    requires |lines| > 0
    ensures 1 <= i <= |lines| && forall k :: 1 <= k < i ==> StartsWith(lines[k], "Hash:")
    ensures i < |lines| ==> lines[i] == "" || !StartsWith(lines[i], "Hash:")
    ensures ok <==> i == |lines| || lines[i] == ""
  {
    i := 1;
    while i < |lines| && lines[i] != ""
      invariant 1 <= i <= |lines| && forall k :: 1 <= k < i ==> StartsWith(lines[k], "Hash:")
    {
      if !StartsWith(lines[i], "Hash:") {
        return false, i;
      }
      i := i + 1;
    }
    ok := true;
  }

  method SkipBody(lines: seq<string>, blank: nat) returns (ok: bool, i: nat)
    requires blank <= |lines|
    ensures blank < i && forall k :: blank < k < i && k < |lines| ==> lines[k] != SIG_BEGIN && Escaped(lines[k])
    ensures i < |lines| ==> lines[i] == SIG_BEGIN || !Escaped(lines[i])
    ensures ok <==> i >= |lines| || lines[i] == SIG_BEGIN
  {
    i := blank + 1;
    while i < |lines| && lines[i] != SIG_BEGIN
      invariant blank < i && forall k :: blank < k < i && k < |lines| ==> lines[k] != SIG_BEGIN && Escaped(lines[k])
    {
      if StartsWith(lines[i], "-") && !StartsWith(lines[i], "- ") {
        return false, i;
      }
      i := i + 1;
    }
    ok := true;
  }

  method SkipSignature(lines: seq<string>, begin: nat) returns (ok: bool, i: nat)
    requires begin < |lines| && lines[begin] == SIG_BEGIN
    ensures begin < i <= |lines| && forall k :: begin < k < i ==> lines[k] !in [SIGNED_BEGIN, SIG_BEGIN, SIG_END]
    ensures i < |lines| ==> lines[i] in [SIG_END, SIGNED_BEGIN, SIG_BEGIN]
    ensures ok <==> i == |lines| || lines[i] == SIG_END
  {
    MarkIsNotEscaped();
    i := begin;
    while i < |lines| && lines[i] != SIG_END
      invariant begin <= i <= |lines|
      invariant forall k :: begin < k < i ==> lines[k] !in [SIGNED_BEGIN, SIG_BEGIN, SIG_END]
      invariant begin < i < |lines| ==> lines[i] !in [SIGNED_BEGIN, SIG_BEGIN]
    {
      i := i + 1;
      if i < |lines| && lines[i] in [SIGNED_BEGIN, SIG_BEGIN] {
        return false, i;
      }
    }
    ok := true;
  }

  /** `check_clearsigned` after decoding and splitting into lines. */
  method CheckLines(lines: seq<string>) returns (v: Verdict)
    ensures v.Fine? <==> exists m :: IsMessage(lines, m)
  {
    MessageIffCut(lines);
    if lines == [] || lines[0] != SIGNED_BEGIN {
      return NotClearsigned;
    }
    var ok, blank := SkipHeaders(lines);
    HeadersEnd(lines, blank);
    if !ok {
      return BadHeader;
    }
    var begin;
    ok, begin := SkipBody(lines, blank);
    BodyEnds(lines, blank, begin);
    if !ok {
      return Unescaped;
    }
    if begin >= |lines| {
      return NoSignature;
    }
    var end;
    ok, end := SkipSignature(lines, begin);
    SignatureEnds(lines, blank, begin, end);
    if !ok {
      return NestedBlock;
    }
    if end >= |lines| {
      return Unclosed;
    }
    if exists k | end < k < |lines| :: !Blank(lines[k]) {
      return Trailing;
    }
    assert IsCut(lines, blank, begin, end);
    v := Fine;
  }

  method CheckClearsigned(text: string) returns (v: Verdict)
    ensures v.Fine? <==> exists m :: IsMessage(NewlineLines(text), m)
  {
    v := CheckLines(NewlineLines(text));
  }

  // ---- the extractor ----

  datatype Extracted = Body(text: string) | Damaged

  /** `lines.index(x)`. */
  function IndexOf(lines: seq<string>, x: string): (n: nat)
    requires x in lines
    ensures n < |lines| && lines[n] == x && forall k :: 0 <= k < n ==> lines[k] != x
  {
    if lines[0] == x then 0 else 1 + IndexOf(lines[1..], x)
  }

  function Unescape(line: string): string {
    if StartsWith(line, "- ") then line[2..] else line
  }

  function UnescapeAll(lines: seq<string>): seq<string> {
    seq(|lines|, i requires 0 <= i < |lines| => Unescape(lines[i]))
  }

  /** The lines from the first empty one to the first that begins a signature. */
  function SignedPart(lines: seq<string>): seq<string>
    requires "" in lines && SIG_BEGIN in lines
  {
    var start, end := IndexOf(lines, "") + 1, IndexOf(lines, SIG_BEGIN);
    if start <= end then lines[start..end] else []
  }

  function StripPgp(text: string): Extracted {
    var lines := SplitLines(text);
    if lines == [] || lines[0] != SIGNED_BEGIN then Body(text)
    else if "" !in lines || SIG_BEGIN !in lines then Damaged
    else Body(Join(UnescapeAll(SignedPart(lines)), '\n'))
  }

  // ---- what the extractor sees ----

  lemma {:induction false} FirstIndexIs(lines: seq<string>, x: string, n: nat)
    requires n < |lines| && lines[n] == x && forall k :: 0 <= k < n ==> lines[k] != x
    ensures x in lines && IndexOf(lines, x) == n
  {
  }

  lemma MarksDiffer()
    ensures SIGNED_BEGIN != "" && SIGNED_BEGIN != SIG_BEGIN && SIG_BEGIN != "" && !StartsWith(SIG_BEGIN, "Hash:")
  {
    MarkIsNotEscaped();
    assert SIG_BEGIN[0] == '-' && "Hash:"[0] == 'H';
  }

  lemma MarksAreBreakFree()
    ensures BreakFree(SIGNED_BEGIN) && BreakFree(SIG_BEGIN) && BreakFree(SIG_END) && BreakFree("")
  {
  }

  /** The header lines and the signed text as `splitlines` sees them, up to the signature. */
  function Opening(headers: seq<string>, body: seq<string>): seq<string> {
    [SIGNED_BEGIN] + headers + [""] + body + [SIG_BEGIN]
  }

  lemma {:induction false} OpeningPieces(headers: seq<string>, body: seq<string>)
    ensures AllPieces(Opening(headers, body)) == Opening(AllPieces(headers), AllPieces(body))
  {
    MarksAreBreakFree();
    AllPiecesOfBreakFree([SIGNED_BEGIN]);
    AllPiecesOfBreakFree([""]);
    AllPiecesOfBreakFree([SIG_BEGIN]);
    AllPiecesAppend([SIGNED_BEGIN], headers);
    AllPiecesAppend([SIGNED_BEGIN] + headers, [""]);
    AllPiecesAppend([SIGNED_BEGIN] + headers + [""], body);
    AllPiecesAppend([SIGNED_BEGIN] + headers + [""] + body, [SIG_BEGIN]);
  }

  lemma OpeningIsSeen(text: string, m: Message) returns (rest: seq<string>)
    requires IsMessage(NewlineLines(text), m)
    ensures SplitLines(text) == Opening(AllPieces(m.headers), AllPieces(m.body)) + rest
  {
    var lines, n := NewlineLines(text), |Opening(m.headers, m.body)|;
    assert lines == Opening(m.headers, m.body) + (m.signature + [SIG_END] + m.tail);
    assert lines[..n] == Opening(m.headers, m.body);
    OpeningPieces(m.headers, m.body);
    rest := SplitLinesSeesPieces(text, n);
  }

  // ---- headers that hold nothing the extractor looks for ----

  /** Seen by `splitlines`, the headers hold neither the line that ends them nor the one that ends
      the text. */
  ghost predicate Harmless(headers: seq<string>) {
    "" !in AllPieces(headers) && SIG_BEGIN !in AllPieces(headers)
  }

  lemma {:induction false} FirstBlankOfOpening(headers: seq<string>, body: seq<string>, lines: seq<string>)
    requires Opening(headers, body) <= lines && "" !in headers
    ensures "" in lines && IndexOf(lines, "") == 1 + |headers|
  {
    var opening, h := Opening(headers, body), 1 + |headers|;
    MarksDiffer();
    forall k | 0 <= k <= h ensures lines[k] == opening[k] && (k < h ==> lines[k] != "") {
      if 0 < k < h {
        assert opening[k] == headers[k - 1];
      }
    }
    FirstIndexIs(lines, "", h);
  }

  lemma {:induction false} FirstMarkOfOpening(headers: seq<string>, body: seq<string>, lines: seq<string>)
    requires Opening(headers, body) <= lines && SIG_BEGIN !in headers && SIG_BEGIN !in body
    ensures SIG_BEGIN in lines && IndexOf(lines, SIG_BEGIN) == 2 + |headers| + |body|
  {
    var opening, h, b := Opening(headers, body), 1 + |headers|, 2 + |headers| + |body|;
    MarksDiffer();
    forall k | 0 <= k <= b ensures lines[k] == opening[k] && (k < b ==> lines[k] != SIG_BEGIN) {
      if 0 < k < h {
        assert opening[k] == headers[k - 1];
      } else if h < k < b {
        assert opening[k] == body[k - h - 1];
      }
    }
    FirstIndexIs(lines, SIG_BEGIN, b);
  }

  lemma OpeningGivesSignedPart(headers: seq<string>, body: seq<string>, rest: seq<string>)
    requires "" !in headers && SIG_BEGIN !in headers && SIG_BEGIN !in body
    ensures var lines := Opening(headers, body) + rest;
            "" in lines && SIG_BEGIN in lines && lines[0] == SIGNED_BEGIN && SignedPart(lines) == body
  {
    var lines := Opening(headers, body) + rest;
    FirstBlankOfOpening(headers, body, lines);
    FirstMarkOfOpening(headers, body, lines);
    assert lines[2 + |headers|..2 + |headers| + |body|] == body;
  }

  lemma BodyHoldsNoMark(m: Message)
    requires WellFormed(m)
    ensures SIG_BEGIN !in m.body
  {
    MarkIsNotEscaped();
  }

  /** The extractor returns what the checker saw as the signed text. */
  ghost predicate Agrees(text: string, m: Message) {
    StripPgp(text) == Body(Join(UnescapeAll(m.body), '\n'))
  }

  /** On a message with harmless headers whose signed text holds no other line break, the extractor
      returns exactly the text the checker saw. */
  lemma ExtractorAgrees(text: string, m: Message)
    requires IsMessage(NewlineLines(text), m) && Harmless(m.headers) && AllBreakFree(m.body)
    ensures Agrees(text, m)
  {
    var rest := OpeningIsSeen(text, m);
    AllPiecesOfBreakFree(m.body);
    BodyHoldsNoMark(m);
    OpeningGivesSignedPart(AllPieces(m.headers), m.body, rest);
  }

  lemma UnescapedBreakFree(lines: seq<string>)
    requires AllBreakFree(lines)
    ensures forall c :: c in Join(UnescapeAll(lines), '\n') && IsBreak(c) ==> c == '\n'
  {
    forall c | c in Join(UnescapeAll(lines), '\n') && IsBreak(c) ensures c == '\n' {
      JoinHoldsParts(UnescapeAll(lines), '\n', c);
    }
  }

  lemma UnescapeKeepsBreaks(lines: seq<string>, i: nat, c: char)
    requires i < |lines| && c in lines[i] && IsBreak(c)
    ensures c in Join(UnescapeAll(lines), '\n')
  {
    var line := lines[i];
    var j :| 0 <= j < |line| && line[j] == c;
    if StartsWith(line, "- ") {
      assert line[0] == '-' && line[1] == ' ';
      assert line[2..][j - 2] == c;
    }
    assert c in UnescapeAll(lines)[i];
    JoinHoldsParts(UnescapeAll(lines), '\n', c);
  }

  lemma {:induction false} FirstLineIsSeen(text: string, m: Message)
    requires IsMessage(NewlineLines(text), m)
    ensures SplitLines(text) != [] && SplitLines(text)[0] == SIGNED_BEGIN
  {
    var rest := OpeningIsSeen(text, m);
    assert Opening(AllPieces(m.headers), AllPieces(m.body))[0] == SIGNED_BEGIN;
  }

  lemma BodyLineHasNoNewline(text: string, m: Message, i: nat)
    requires IsMessage(NewlineLines(text), m) && i < |m.body|
    ensures '\n' !in m.body[i]
  {
    var k := 2 + |m.headers| + i;
    assert m.body[i] == Lines(m)[k];
    PartsHoldNoSeparator(text, '\n');
    assert m.body[i] == DropCr(Split(text, '\n')[k]);
  }

  /** Whatever the headers, another break in the text is lost. */
  lemma BreakInBodyIsLost(text: string, m: Message, i: nat, c: char)
    requires IsMessage(NewlineLines(text), m) && i < |m.body| && c in m.body[i] && IsBreak(c)
    ensures !Agrees(text, m)
  {
    BodyLineHasNoNewline(text, m, i);
    UnescapeKeepsBreaks(m.body, i, c);
    FirstLineIsSeen(text, m);
    var lines := SplitLines(text);
    if "" in lines && SIG_BEGIN in lines {
      UnescapedBreakFree(SignedPart(lines));
    }
  }

  lemma AgreementMeansBreakFree(text: string, m: Message)
    requires IsMessage(NewlineLines(text), m) && Agrees(text, m)
    ensures AllBreakFree(m.body)
  {
    if !AllBreakFree(m.body) {
      var i, j :| 0 <= i < |m.body| && 0 <= j < |m.body[i]| && IsBreak(m.body[i][j]);
      BreakInBodyIsLost(text, m, i, m.body[i][j]);
    }
  }

  /** With harmless headers, exactly then: a lone carriage return, a form feed or a Unicode separator
      inside the signed text passes the checker, and the extractor turns it into a line break. */
  lemma ExtractorAgreesIffBreakFree(text: string, m: Message)
    requires IsMessage(NewlineLines(text), m) && Harmless(m.headers)
    ensures Agrees(text, m) <==> AllBreakFree(m.body)
  {
    if AllBreakFree(m.body) {
      ExtractorAgrees(text, m);
    } else {
      var i, j :| 0 <= i < |m.body| && 0 <= j < |m.body[i]| && IsBreak(m.body[i][j]);
      BreakInBodyIsLost(text, m, i, m.body[i][j]);
    }
  }

  // ---- headers that hold it ----

  /** What follows the first empty line of the headers. */
  function Beyond(seen: seq<string>): seq<string>
    requires "" in seen
  {
    seen[IndexOf(seen, "") + 1..]
  }

  lemma PartWithHeaders(seen: seq<string>, body: seq<string>, rest: seq<string>)
    requires "" in seen && SIG_BEGIN !in seen && SIG_BEGIN !in body
    ensures var lines := Opening(seen, body) + rest;
            && "" in lines && SIG_BEGIN in lines && lines[0] == SIGNED_BEGIN
            && SignedPart(lines) == Beyond(seen) + [""] + body
  {
    var k := IndexOf(seen, "");
    var longer := Beyond(seen) + [""] + body;
    assert seen == seen[..k] + [""] + Beyond(seen);
    assert Opening(seen, body) == Opening(seen[..k], longer);
    MarksDiffer();
    OpeningGivesSignedPart(seen[..k], longer, rest);
  }

  /** After an empty line inside the headers the rest of them comes out as part of the text. */
  lemma HeaderTextComesOut(text: string, m: Message)
    requires IsMessage(NewlineLines(text), m) && AllBreakFree(m.body)
    requires "" in AllPieces(m.headers) && SIG_BEGIN !in AllPieces(m.headers)
    ensures StripPgp(text) == Body(Join(UnescapeAll(Beyond(AllPieces(m.headers)) + [""] + m.body), '\n'))
  {
    var rest := OpeningIsSeen(text, m);
    AllPiecesOfBreakFree(m.body);
    BodyHoldsNoMark(m);
    PartWithHeaders(AllPieces(m.headers), m.body, rest);
  }

  /** What the extractor takes from headers that hold the line that ends the text. */
  function HeaderPart(seen: seq<string>): seq<string>
    requires SIG_BEGIN in seen
  {
    var end := IndexOf(seen, SIG_BEGIN);
    if "" in seen && IndexOf(seen, "") < end then seen[IndexOf(seen, "") + 1..end] else []
  }

  lemma {:induction false} IndexInHeaders(headers: seq<string>, body: seq<string>, lines: seq<string>, x: string)
    requires Opening(headers, body) <= lines && x in headers && x != SIGNED_BEGIN
    ensures x in lines && IndexOf(lines, x) == 1 + IndexOf(headers, x)
  {
    var opening, n := Opening(headers, body), 1 + IndexOf(headers, x);
    forall k | 0 <= k <= n ensures lines[k] == opening[k] && (k < n ==> lines[k] != x) {
      if 0 < k {
        assert opening[k] == headers[k - 1];
      }
    }
    assert opening[n] == headers[n - 1];
    FirstIndexIs(lines, x, n);
  }

  lemma HiddenPart(seen: seq<string>, body: seq<string>, lines: seq<string>)
    requires Opening(seen, body) <= lines && SIG_BEGIN in seen
    ensures "" in lines && SIG_BEGIN in lines && lines[0] == SIGNED_BEGIN && SignedPart(lines) == HeaderPart(seen)
  {
    var end := IndexOf(seen, SIG_BEGIN);
    assert lines[0] == Opening(seen, body)[0];
    MarksDiffer();
    IndexInHeaders(seen, body, lines, SIG_BEGIN);
    if "" in seen {
      IndexInHeaders(seen, body, lines, "");
      if IndexOf(seen, "") < end {
        SliceOfHeaders(seen, body, lines, IndexOf(seen, "") + 1, end);
      }
    } else {
      FirstBlankOfOpening(seen, body, lines);
    }
  }

  lemma SliceOfHeaders(seen: seq<string>, body: seq<string>, lines: seq<string>, i: nat, j: nat)
    requires Opening(seen, body) <= lines && i <= j <= |seen|
    ensures lines[i + 1..j + 1] == seen[i..j]
  {
    var opening := Opening(seen, body);
    assert forall k :: 0 <= k < |seen| ==> opening[k + 1] == seen[k];
    assert forall k :: 0 <= k < |opening| ==> lines[k] == opening[k];
  }

  /** With that line inside the headers the extractor never reaches the text. */
  lemma HeadersHideText(text: string, m: Message)
    requires IsMessage(NewlineLines(text), m) && SIG_BEGIN in AllPieces(m.headers)
    ensures StripPgp(text) == Body(Join(UnescapeAll(HeaderPart(AllPieces(m.headers))), '\n'))
  {
    var rest := OpeningIsSeen(text, m);
    var opening := Opening(AllPieces(m.headers), AllPieces(m.body));
    assert opening <= opening + rest;
    HiddenPart(AllPieces(m.headers), AllPieces(m.body), opening + rest);
  }

  lemma JoinTellsLength(a: seq<string>, b: seq<string>)
    requires AllBreakFree(a) && AllBreakFree(b) && a != []
    requires Join(UnescapeAll(a), '\n') == Join(UnescapeAll(b), '\n')
    ensures |a| == if b == [] then 1 else |b|
  {
    SplitUndoesJoin(UnescapeAll(a), '\n');
    if b == [] {
      SplitWithoutSeparator("", '\n');
    } else {
      SplitUndoesJoin(UnescapeAll(b), '\n');
    }
  }

  lemma {:induction false} PiecesAreBreakFree(lines: seq<string>)
    ensures AllBreakFree(AllPieces(lines))
  {
    if lines != [] {
      PiecesAreBreakFree(lines[1..]);
    }
  }

  lemma MoreTextIffNone(extra: seq<string>, body: seq<string>)
    requires AllBreakFree(extra) && AllBreakFree(body)
    ensures Join(UnescapeAll(extra + [""] + body), '\n') == Join(UnescapeAll(body), '\n') <==> extra == [] && body == []
  {
    var longer := extra + [""] + body;
    if Join(UnescapeAll(longer), '\n') == Join(UnescapeAll(body), '\n') {
      JoinTellsLength(longer, body);
    }
    if extra == [] && body == [] {
      assert UnescapeAll(longer) == [""];
    }
  }

  lemma BlankInHeadersAgreesIff(text: string, m: Message)
    requires IsMessage(NewlineLines(text), m)
    requires "" in AllPieces(m.headers) && SIG_BEGIN !in AllPieces(m.headers)
    ensures Agrees(text, m) <==> m.body == [] && Beyond(AllPieces(m.headers)) == []
  {
    if AllBreakFree(m.body) {
      HeaderTextComesOut(text, m);
      PiecesAreBreakFree(m.headers);
      MoreTextIffNone(Beyond(AllPieces(m.headers)), m.body);
    } else if Agrees(text, m) {
      AgreementMeansBreakFree(text, m);
    }
  }

  /** For every accepted file: the extractor returns the signed text exactly when the headers are
      harmless and the text holds no other line break; or nothing was signed and an empty line ends
      the headers; or it never reached the text, and the headers spell the same. */
  lemma ExtractorAgreesIff(text: string, m: Message)
    requires IsMessage(NewlineLines(text), m)
    ensures var seen := AllPieces(m.headers);
            Agrees(text, m) <==>
              if SIG_BEGIN in seen then Join(UnescapeAll(HeaderPart(seen)), '\n') == Join(UnescapeAll(m.body), '\n')
              else if "" in seen then m.body == [] && Beyond(seen) == []
              else AllBreakFree(m.body)
  {
    if SIG_BEGIN in AllPieces(m.headers) {
      HeadersHideText(text, m);
    } else if "" in AllPieces(m.headers) {
      BlankInHeadersAgreesIff(text, m);
    } else {
      ExtractorAgreesIffBreakFree(text, m);
    }
  }

  function SplitHeader(more: string): string {
    "Hash:" + ['\U{000B}'] + (['\U{000B}'] + more)
  }

  lemma {:induction false} PiecesOfHeaderEnd(more: string)
    requires BreakFree(more)
    ensures SplitLines(['\U{000B}'] + (more + "\r\n")) == ["", more]
  {
    PiecesOfBreakFree(more);
    SplitLinesAtBreak("", '\U{000B}', more + "\r\n");
    assert "" + ['\U{000B}'] == ['\U{000B}'];
  }

  lemma PiecesOfSplitHeader(more: string)
    requires BreakFree(more)
    ensures Pieces(SplitHeader(more)) == ["Hash:", "", more]
  {
    var rest := ['\U{000B}'] + (more + "\r\n");
    PiecesOfHeaderEnd(more);
    SplitLinesAtBreak("Hash:", '\U{000B}', rest);
    assert SplitHeader(more) + "\r\n" == "Hash:" + ['\U{000B}'] + rest;
  }

  lemma SplitHeaderIsSeen(more: string)
    requires BreakFree(more) && more != SIG_BEGIN
    ensures var seen := AllPieces([SplitHeader(more)]); "" in seen && SIG_BEGIN !in seen && Beyond(seen) == [more]
  {
    PiecesOfSplitHeader(more);
    FirstPieces(SplitHeader(more), []);
    var seen := ["Hash:", "", more];
    MarksDiffer();
    assert seen[1] == "";
    FirstIndexIs(seen, "", 1);
  }

  /** So a header line with two vertical tabs passes the check, and what follows them comes out as
      the first line of the text. */
  lemma UnsignedLineComesOut(text: string, m: Message, more: string)
    requires IsMessage(NewlineLines(text), m) && AllBreakFree(m.body)
    requires BreakFree(more) && more != SIG_BEGIN && m.headers == [SplitHeader(more)]
    ensures StripPgp(text) == Body(Join(UnescapeAll([more] + [""] + m.body), '\n')) && !Agrees(text, m)
  {
    SplitHeaderIsSeen(more);
    HeaderTextComesOut(text, m);
    BlankInHeadersAgreesIff(text, m);
  }

  /** Such files there are, for every text. */
  lemma SplitHeaderPasses(more: string, m: Message)
    requires BreakFree(more) && m.headers == [SplitHeader(more)]
    requires WellFormed(m.(headers := [])) && Tidy(m.body) && Tidy(m.signature) && Tidy(m.tail)
    ensures IsMessage(NewlineLines(Join(Lines(m), '\n')), m)
  {
    SplitHeaderIsTidy(more);
    LinesAreTidy(m);
    NewlineLinesOfJoinIffTidy(Lines(m));
  }

  lemma LinesAreTidy(m: Message)
    requires Tidy(m.headers) && Tidy(m.body) && Tidy(m.signature) && Tidy(m.tail)
    ensures Tidy(Lines(m))
  {
    MarksAreTidy();
  }

  lemma MarksAreTidy()
    ensures Tidy([SIGNED_BEGIN]) && Tidy([""]) && Tidy([SIG_BEGIN]) && Tidy([SIG_END])
  {
  }

  lemma SplitHeaderIsTidy(more: string)
    requires BreakFree(more)
    ensures '\n' !in SplitHeader(more) && DropCr(SplitHeader(more)) == SplitHeader(more)
    ensures StartsWith(SplitHeader(more), "Hash:")
  {
    var line := SplitHeader(more);
    assert more != "" ==> line[|line| - 1] == more[|more| - 1];
  }

  // ---- round trip ----

  function Escape(line: string): string {
    if StartsWith(line, "-") then "- " + line else line
  }

  function EscapeAll(lines: seq<string>): seq<string> {
    seq(|lines|, i requires 0 <= i < |lines| => Escape(lines[i]))
  }

  lemma EscapeIsUndone(body: seq<string>)
    ensures UnescapeAll(EscapeAll(body)) == body
    ensures forall i :: 0 <= i < |body| ==> Escaped(EscapeAll(body)[i])
    ensures AllBreakFree(EscapeAll(body)) <==> AllBreakFree(body)
  {
    forall i | 0 <= i < |body|
      ensures Unescape(EscapeAll(body)[i]) == body[i] && Escaped(EscapeAll(body)[i])
      ensures BreakFree(EscapeAll(body)[i]) <==> BreakFree(body[i])
    {
      EscapeLine(body[i]);
    }
  }

  lemma EscapeLine(line: string)
    ensures Unescape(Escape(line)) == line && Escaped(Escape(line))
    ensures BreakFree(Escape(line)) <==> BreakFree(line)
  {
    DashSpaceBeginsWithDash(line);
    if StartsWith(line, "-") {
      var escaped := "- " + line;
      assert escaped[..2] == "- " && escaped[2..] == line;
      assert BreakFree(escaped) ==> BreakFree(line) by {
        assert forall i :: 0 <= i < |line| ==> line[i] == escaped[i + 2];
      }
      assert BreakFree(line) ==> BreakFree(escaped) by {
        assert forall i :: 2 <= i < |escaped| ==> escaped[i] == line[i - 2];
      }
    }
  }

  lemma DashSpaceBeginsWithDash(line: string)
    ensures StartsWith(line, "- ") ==> StartsWith(line, "-")
  {
    if StartsWith(line, "- ") {
      assert line[0] == '-' && line[..1] == "-";
    }
  }

  /** Dash-escaping and wrapping any text gives a file the checker reads back as it was, exactly when
      no line holds a line feed or ends in a carriage return; and with harmless headers the extractor
      then returns the text exactly when that holds no other line break either. */
  lemma {:induction false} WrapThenStrip(m: Message, body: seq<string>)
    requires m.body == EscapeAll(body)
    requires forall i :: 0 <= i < |m.headers| ==> StartsWith(m.headers[i], "Hash:")
    requires forall i :: 0 <= i < |m.signature| ==> m.signature[i] !in [SIGNED_BEGIN, SIG_BEGIN, SIG_END]
    requires forall i :: 0 <= i < |m.tail| ==> Blank(m.tail[i])
    ensures var text := Join(Lines(m), '\n');
            && (IsMessage(NewlineLines(text), m) <==> Tidy(Lines(m)))
            && (Tidy(Lines(m)) && Harmless(m.headers) ==>
                  (StripPgp(text) == Body(Join(body, '\n')) <==> AllBreakFree(body)))
  {
    var text := Join(Lines(m), '\n');
    EscapeIsUndone(body);
    NewlineLinesOfJoinIffTidy(Lines(m));
    if Tidy(Lines(m)) && Harmless(m.headers) {
      ExtractorAgreesIffBreakFree(text, m);
    }
  }
}
