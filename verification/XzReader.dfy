/** The reader of concatenated XZ streams: whatever the sizes of the chunks it reads and of the
    buffers it fills, it delivers the same bytes and ends the same way. */
module XzReader {
  import opened Basics

  const CHUNK: nat := 0x10_0000
  const UNPACKED_LIMIT: nat := 0x1_0000_0000

  // ---- what a decoder computes ----

  /** One compression format: where the first stream of an input ends, and what an input decodes to
      as far as it goes. */
  datatype Format = Format(end: Bytes -> Option<nat>, plain: Bytes -> Bytes)

  /** More input moves no boundary and takes back no output; nothing comes out after the end. */
  ghost predicate Sound(f: Format) {
    && (forall p :: f.end(p).Some? ==> 0 < f.end(p).value <= |p|)
    && (forall p, q :: f.end(p).Some? ==> f.end(p + q) == f.end(p) && f.plain(p + q) == f.plain(p))
    && (forall p, q :: f.plain(p) <= f.plain(p + q))
    && f.plain([]) == []
  }

  datatype Ending = Done | Truncated | BadPadding | TooBig

  datatype Outcome = Outcome(out: Bytes, ending: Ending)

  function Zeros(s: Bytes): (n: nat)
    ensures n <= |s| && (forall i :: 0 <= i < n ==> s[i] == 0) && (n < |s| ==> s[n] != 0)
  {
    if s == [] || s[0] != 0 then 0 else 1 + Zeros(s[1..])
  }

  /** The meaning of a whole file (section 2.2 of the .xz File Format): streams one after another,
      each followed by a multiple of four zero bytes. */
  ghost function Unpack(f: Format, s: Bytes): Outcome
    requires Sound(f)
    decreases |s|, 0
  {
    match f.end(s)
    case None => Outcome(f.plain(s), Truncated)
    case Some(n) => AfterEnd(f, f.plain(s), s[n..])
  }

  /** The same from the end of a stream on, with `out` already decoded. */
  ghost function AfterEnd(f: Format, out: Bytes, tail: Bytes): Outcome
    requires Sound(f)
    decreases |tail|, 1
  {
    var z := Zeros(tail);
    if z % 4 != 0 then Outcome(out, BadPadding)
    else if z == |tail| then Outcome(out, Done)
    else
      var next := Unpack(f, tail[z..]);
      Outcome(out + next.out, next.ending)
  }

  // ---- files made of whole streams ----

  /** A complete stream and the number of four-byte groups of padding after it. */
  datatype Piece = Piece(stream: Bytes, groups: nat)

  function Padding(n: nat): (zeros: Bytes)
    ensures |zeros| == n && forall i :: 0 <= i < n ==> zeros[i] == 0
  {
    if n == 0 then [] else [0] + Padding(n - 1)
  }

  function File(pieces: seq<Piece>): Bytes {
    if pieces == [] then [] else pieces[0].stream + Padding(4 * pieces[0].groups) + File(pieces[1..])
  }

  function Contents(f: Format, pieces: seq<Piece>): Bytes {
    if pieces == [] then [] else f.plain(pieces[0].stream) + Contents(f, pieces[1..])
  }

  ghost predicate IsWhole(f: Format, p: Piece) {
    p.stream != [] && p.stream[0] != 0 && f.end(p.stream) == Some(|p.stream|)
  }

  lemma {:induction false} ZerosSkipped(skipped: Bytes, s: Bytes)
    requires forall i :: 0 <= i < |skipped| ==> skipped[i] == 0
    ensures Zeros(skipped + s) == |skipped| + Zeros(s)
  {
    if skipped == [] {
      assert skipped + s == s;
    } else {
      assert (skipped + s)[1..] == skipped[1..] + s;
      ZerosSkipped(skipped[1..], s);
    }
  }

  lemma {:induction false} UnpackAtEnd(f: Format, fed: Bytes, rest: Bytes)
    requires Sound(f) && f.end(fed).Some?
    ensures Unpack(f, fed + rest) == AfterEnd(f, f.plain(fed), fed[f.end(fed).value..] + rest)
  {
    var n := f.end(fed).value;
    assert (fed + rest)[n..] == fed[n..] + rest;
  }

  lemma {:induction false} AfterPadding(f: Format, out: Bytes, groups: nat, rest: Bytes)
    requires Sound(f) && (rest != [] ==> rest[0] != 0)
    ensures AfterEnd(f, out, Padding(4 * groups) + rest)
         == if rest == [] then Outcome(out, Done) else Outcome(out + Unpack(f, rest).out, Unpack(f, rest).ending)
  {
    var tail := Padding(4 * groups) + rest;
    ZerosSkipped(Padding(4 * groups), rest);
    assert tail[4 * groups..] == rest;
  }

  lemma {:induction false} PieceUnpacks(f: Format, p: Piece, rest: Bytes)
    requires Sound(f) && IsWhole(f, p) && (rest != [] ==> rest[0] != 0)
    ensures Unpack(f, p.stream + Padding(4 * p.groups) + rest)
         == if rest == [] then Outcome(f.plain(p.stream), Done)
            else Outcome(f.plain(p.stream) + Unpack(f, rest).out, Unpack(f, rest).ending)
  {
    var tail := Padding(4 * p.groups) + rest;
    assert p.stream + Padding(4 * p.groups) + rest == p.stream + tail;
    UnpackAtEnd(f, p.stream, tail);
    assert p.stream[|p.stream|..] + tail == tail;
    AfterPadding(f, f.plain(p.stream), p.groups, rest);
  }

  lemma {:induction false} FileStartsWithStream(f: Format, pieces: seq<Piece>)
    requires pieces != [] && IsWhole(f, pieces[0])
    ensures File(pieces) != [] && File(pieces)[0] != 0
  {
    var p := pieces[0];
    assert File(pieces) == p.stream + (Padding(4 * p.groups) + File(pieces[1..]));
    assert File(pieces)[0] == p.stream[0];
  }

  /** Concatenated streams decode to their concatenated contents. */
  lemma {:induction false} WholeFileUnpacks(f: Format, pieces: seq<Piece>)
    requires Sound(f) && pieces != [] && forall i :: 0 <= i < |pieces| ==> IsWhole(f, pieces[i])
    ensures Unpack(f, File(pieces)) == Outcome(Contents(f, pieces), Done)
  {
    var p, more := pieces[0], pieces[1..];
    var out := f.plain(p.stream);
    assert Contents(f, pieces) == out + Contents(f, more);
    if more == [] {
      PieceUnpacks(f, p, []);
      assert out + [] == out;
    } else {
      FileStartsWithStream(f, more);
      WholeFileUnpacks(f, more);
      PieceUnpacks(f, p, File(more));
    }
  }

  // ---- where a reader stands ----

  /** `before` came from earlier streams; of the current one, `fed` was given to the decoder,
      `emitted` bytes came out, and `rest` is still unread. */
  ghost predicate Standing(f: Format, whole: Outcome, before: Bytes, delivered: Bytes, fed: Bytes, emitted: nat,
                           rest: Bytes)
    requires Sound(f)
  {
    var u := Unpack(f, fed + rest);
    && whole == Outcome(before + u.out, u.ending)
    && emitted <= |f.plain(fed)|
    && delivered == before + f.plain(fed)[..emitted]
  }

  lemma {:induction false} UnpackStartsPlain(f: Format, fed: Bytes, rest: Bytes)
    requires Sound(f)
    ensures f.plain(fed) <= Unpack(f, fed + rest).out
  {
  }

  lemma DeliveredIsPrefix(f: Format, whole: Outcome, before: Bytes, delivered: Bytes, fed: Bytes, emitted: nat,
                          rest: Bytes)
    requires Sound(f) && Standing(f, whole, before, delivered, fed, emitted, rest)
    ensures delivered <= whole.out
  {
    UnpackStartsPlain(f, fed, rest);
  }

  lemma Feeding(f: Format, whole: Outcome, before: Bytes, delivered: Bytes, fed: Bytes, emitted: nat, data: Bytes,
                rest: Bytes)
    requires Sound(f) && Standing(f, whole, before, delivered, fed, emitted, data + rest)
    ensures Standing(f, whole, before, delivered, fed + data, emitted, rest)
  {
    assert fed + (data + rest) == fed + data + rest;
    assert f.plain(fed) <= f.plain(fed + data);
  }

  lemma Emitting(f: Format, whole: Outcome, before: Bytes, delivered: Bytes, fed: Bytes, emitted: nat, more: nat,
                 rest: Bytes)
    requires Sound(f) && Standing(f, whole, before, delivered, fed, emitted, rest) && emitted <= more <= |f.plain(fed)|
    ensures Standing(f, whole, before, delivered + f.plain(fed)[emitted..more], fed, more, rest)
  {
    assert f.plain(fed)[..more] == f.plain(fed)[..emitted] + f.plain(fed)[emitted..more];
  }

  lemma OutOfInput(f: Format, whole: Outcome, before: Bytes, delivered: Bytes, fed: Bytes, emitted: nat)
    requires Sound(f) && Standing(f, whole, before, delivered, fed, emitted, [])
    requires f.end(fed).None? && emitted == |f.plain(fed)|
    ensures whole == Outcome(delivered, Truncated)
  {
    assert fed + [] == fed;
    assert f.plain(fed)[..emitted] == f.plain(fed);
  }

  /** At the end of a stream the padding decides. */
  lemma StreamEnded(f: Format, whole: Outcome, before: Bytes, delivered: Bytes, fed: Bytes, emitted: nat, rest: Bytes)
    requires Sound(f) && Standing(f, whole, before, delivered, fed, emitted, rest)
    requires f.end(fed).Some? && emitted == |f.plain(fed)|
    ensures var tail := fed[f.end(fed).value..] + rest;
            var z := Zeros(tail);
            if z % 4 != 0 then whole == Outcome(delivered, BadPadding)
            else if z == |tail| then whole == Outcome(delivered, Done)
            else Standing(f, whole, delivered, delivered, [], 0, tail[z..])
  {
    var tail := fed[f.end(fed).value..] + rest;
    UnpackAtEnd(f, fed, rest);
    assert f.plain(fed)[..emitted] == f.plain(fed);
    var z := Zeros(tail);
    if z % 4 == 0 && z < |tail| {
      NextStream(f, whole, before, f.plain(fed), tail[z..]);
    }
  }

  lemma {:induction false} NextStream(f: Format, whole: Outcome, before: Bytes, out: Bytes, rest: Bytes)
    requires Sound(f)
    requires var next := Unpack(f, rest); whole == Outcome(before + (out + next.out), next.ending)
    ensures Standing(f, whole, before + out, before + out, [], 0, rest)
  {
    assert [] + rest == rest;
    assert before + (out + Unpack(f, rest).out) == before + out + Unpack(f, rest).out;
    assert f.plain([])[..0] == [] && before + out + [] == before + out;
  }

  // ---- the parts ----

  /** The underlying file: a read gives some bytes, as many as it likes, until none are left. */
  class Stream {
    var rest: Bytes

    constructor (all: Bytes)
      ensures rest == all
    {
      rest := all;
    }

    method Read() returns (data: Bytes)
      modifies this
      ensures data + rest == old(rest) && |data| <= CHUNK
      ensures data == [] <==> old(rest) == []
    {
      if rest == [] {
        return [];
      }
      var n: nat :| 0 < n <= |rest| && n <= CHUNK;
      data := rest[..n];
      rest := rest[n..];
    }
  }

  /** `LZMADecompressor`. When a call fills its whole allowance the object may or may not notice yet
      that input or stream have run out. */
  class Decoder {
    const f: Format
    var fed: Bytes
    var emitted: nat
    var eof: bool
    var needsInput: bool

    ghost predicate Valid()
      reads this
    {
      && Sound(f)
      && emitted <= |f.plain(fed)|
      && (eof ==> f.end(fed).Some? && emitted == |f.plain(fed)|)
      && (needsInput ==> !eof && f.end(fed).None? && emitted == |f.plain(fed)|)
    }

    constructor (f: Format)
      requires Sound(f)
      ensures Valid() && this.f == f && fed == [] && emitted == 0 && !eof && needsInput
    {
      this.f := f;
      fed, emitted, eof, needsInput := [], 0, false, true;
    }

    function UnusedData(): Bytes
      requires Valid() && eof
      reads this
    {
      fed[f.end(fed).value..]
    }

    method Decompress(data: Bytes, allowance: nat) returns (output: Bytes)
      requires Valid() && !eof && allowance > 0 && (data == [] || needsInput)
      modifies this
      ensures Valid() && fed == old(fed) + data
      ensures |output| <= allowance && emitted == old(emitted) + |output|
      ensures old(emitted) <= emitted <= |f.plain(fed)| && output == f.plain(fed)[old(emitted)..emitted]
      ensures |output| < allowance ==> eof || needsInput
    {
      assert f.plain(fed) <= f.plain(fed + data);
      fed := fed + data;
      var out := f.plain(fed);
      var n := if |out| - emitted <= allowance then |out| - emitted else allowance;
      output := out[emitted..emitted + n];
      emitted := emitted + n;
      var notices: bool := *;
      eof, needsInput := false, false;
      if n < allowance || (emitted == |out| && notices) {
        eof := f.end(fed).Some?;
        needsInput := !eof;
      }
    }
  }

  datatype Answer = Count(count: nat) | Failed(why: Ending)

  class Reader {
    const f: Format
    const stream: Stream
    var decoder: Decoder
    var finished: bool
    var size: nat
    ghost const whole: Outcome    // what the file means
    ghost var before: Bytes
    ghost var delivered: Bytes

    ghost predicate Valid()
      reads this, stream, decoder
    {
      && Sound(f)
      && decoder.f == f && decoder.Valid()
      && size == |delivered| <= UNPACKED_LIMIT
      && if finished then whole == Outcome(delivered, Done)
         else Standing(f, whole, before, delivered, decoder.fed, decoder.emitted, stream.rest)
    }

    constructor (f: Format, stream: Stream)
      requires Sound(f)
      ensures Valid() && this.f == f && this.stream == stream && whole == Unpack(f, stream.rest) && delivered == []
      ensures fresh(decoder)
    {
      this.f := f;
      this.stream := stream;
      decoder := new Decoder(f);
      finished, size := false, 0;
      whole, before, delivered := Unpack(f, stream.rest), [], [];
      new;
      assert [] + stream.rest == stream.rest;
      assert f.plain([])[..0] == [];
    }

    /** What holds between fetching `data` and handing it to the decoder. */
    ghost predicate Loaded(data: Bytes)
      reads this, stream, decoder
    {
      && Sound(f) && !finished && decoder.f == f && decoder.Valid() && !decoder.eof
      && (data == [] || decoder.needsInput)
      && size == |delivered| <= UNPACKED_LIMIT
      && Standing(f, whole, before, delivered, decoder.fed, decoder.emitted, data + stream.rest)
    }

    /** After a finished stream: skip the padding, then start over with a new decoder. */
    method AfterStream() returns (data: Bytes, end: Option<Ending>)
      requires Valid() && !finished && decoder.eof
      modifies this, stream
      ensures delivered == old(delivered) && size == old(size)
      ensures decoder == old(decoder) || fresh(decoder)
      ensures end.Some? ==>
                whole == Outcome(delivered, end.value) && finished == (end.value == Done) && end.value != TooBig
      ensures end == Some(Done) ==> Valid()
      ensures end.None? ==>
        && Loaded(data) && fresh(decoder) && decoder.fed == []
        && |data| + |stream.rest| < old(|decoder.fed| + |stream.rest|)
    {
      ghost var tail := decoder.UnusedData() + stream.rest;
      StreamEnded(f, whole, before, delivered, decoder.fed, decoder.emitted, stream.rest);
      assert |tail| < |decoder.fed| + |stream.rest|;
      var padding;
      data, padding := SkipPadding(stream, decoder.UnusedData());
      assert |data + stream.rest| <= |tail|;
      end := None;
      if padding % 4 != 0 {
        end := Some(BadPadding);
      } else if data == [] {
        finished := true;
        end := Some(Done);
      } else {
        decoder := new Decoder(f);
        before := delivered;
      }
    }

    /** Gives `data` to the decoder and takes up to `allowance` bytes from it. */
    method Decode(data: Bytes, allowance: nat) returns (output: Bytes)
      requires Loaded(data) && 0 < allowance <= UNPACKED_LIMIT + 1 - size
      modifies this`delivered, this`size, decoder
      ensures decoder.f == f && decoder.Valid() && decoder.fed == old(decoder.fed) + data
      ensures |output| <= allowance && (|output| < allowance ==> decoder.eof || decoder.needsInput)
      ensures delivered == old(delivered) + output && size == |delivered| <= |whole.out|
      ensures Standing(f, whole, before, delivered, decoder.fed, decoder.emitted, stream.rest)
    {
      ghost var fed, emitted := decoder.fed, decoder.emitted;
      output := decoder.Decompress(data, allowance);
      Feeding(f, whole, before, delivered, fed, emitted, data, stream.rest);
      Emitting(f, whole, before, delivered, decoder.fed, emitted, decoder.emitted, stream.rest);
      delivered := delivered + output;
      size := size + |output|;
      DeliveredIsPrefix(f, whole, before, delivered, decoder.fed, decoder.emitted, stream.rest);
    }

    /** Fetch input for the decoder that is running. */
    method Fetch() returns (data: Bytes, end: Option<Ending>)
      requires Valid() && !finished && !decoder.eof
      modifies stream
      ensures end.Some? ==> whole == Outcome(delivered, end.value) && end.value == Truncated
      ensures end.None? ==>
                && Loaded(data) && |data| + |stream.rest| == old(|stream.rest|)
                && (decoder.needsInput <==> data != [])
    {
      data, end := [], None;
      if decoder.needsInput {
        data := stream.Read();
        if data == [] {
          OutOfInput(f, whole, before, delivered, decoder.fed, decoder.emitted);
          end := Some(Truncated);
        }
      } else {
        assert [] + stream.rest == stream.rest;
      }
    }

    /** One turn of the loop in `readinto`: some bytes for the caller, the end, or nothing yet. */
    method Turn(room: nat) returns (output: Bytes, end: Option<Ending>)
      requires Valid() && !finished && room > 0
      modifies this, stream, decoder
      ensures decoder == old(decoder) || fresh(decoder)
      ensures end.None? ==> Valid() && !finished && delivered == old(delivered) + output && |output| <= room
      ensures end.None? && output == [] ==>
        || Ahead() < old(Ahead())
        || (Ahead() == old(Ahead()) && |stream.rest| < old(|stream.rest|))
        || (Ahead() == old(Ahead()) && |stream.rest| == old(|stream.rest|) && Waiting() < old(Waiting()))
      ensures end == Some(Done) ==> Valid() && finished && delivered == old(delivered)
      ensures end == Some(TooBig) <==> size > UNPACKED_LIMIT
      ensures end == Some(TooBig) ==> |whole.out| > UNPACKED_LIMIT
      ensures end.Some? && end != Some(TooBig) ==>
          whole == Outcome(delivered, end.value) && |delivered| <= UNPACKED_LIMIT
    {
      var data;
      output := [];
      if decoder.eof {
        data, end := AfterStream();
      } else {
        data, end := Fetch();
      }
      if end.Some? {
        return;
      }
      output := Decode(data, if room <= UNPACKED_LIMIT + 1 - size then room else UNPACKED_LIMIT + 1 - size);
      if size > UNPACKED_LIMIT {
        end := Some(TooBig);
      }
    }

    function Ahead(): nat
      reads this, stream, decoder
    {
      |decoder.fed| + |stream.rest|
    }

    function Waiting(): nat
      reads this, decoder
    {
      if decoder.eof || decoder.needsInput then 0 else 1
    }

    lemma NeverMoreThanWhole()
      requires Valid()
      ensures |delivered| <= |whole.out|
    {
      if !finished {
        DeliveredIsPrefix(f, whole, before, delivered, decoder.fed, decoder.emitted, stream.rest);
      }
    }

    /** One call of `readinto`: fills the start of the buffer, or reports the end or a failure. */
    method ReadInto(buffer: array<Byte>) returns (r: Answer)
      requires Valid()
      modifies this, stream, decoder, buffer
      ensures decoder == old(decoder) || fresh(decoder)
      ensures r.Count? ==> Valid()
      ensures match r
        case Count(n) =>
          && n <= buffer.Length && buffer[n..] == old(buffer[n..])
          && delivered == old(delivered) + buffer[..n]
          && |delivered| <= |whole.out|
          && (n == 0 && buffer.Length > 0 ==> finished && whole == Outcome(delivered, Done))
        case Failed(why) =>
          if why == TooBig then |whole.out| > UNPACKED_LIMIT
          else why != Done && whole.ending == why && |whole.out| <= UNPACKED_LIMIT
    {
      if buffer.Length == 0 || finished {
        NeverMoreThanWhole();
        return Count(0);
      }
      while true
        invariant Valid() && !finished && delivered == old(delivered) && buffer[..] == old(buffer[..])
        invariant decoder == old(decoder) || fresh(decoder)
        decreases Ahead(), |stream.rest|, Waiting()
      {
        var output, end := Turn(buffer.Length);
        if end.Some? {
          return if end.value == Done then Count(0) else Failed(end.value);
        }
        if output != [] {
          NeverMoreThanWhole();
          CopyTo(buffer, output);
          return Count(|output|);
        }
      }
    }
  }

  /** `buffer[: len(output)] = output`. */
  method CopyTo(buffer: array<Byte>, output: Bytes)
    requires |output| <= buffer.Length
    modifies buffer
    ensures buffer[..|output|] == output && buffer[|output|..] == old(buffer[|output|..])
  {
    forall i | 0 <= i < |output| {
      buffer[i] := output[i];
    }
  }

  // ---- padding ----

  /** `tail` is `padding` zeros and then `ahead`. */
  ghost predicate Skipped(tail: Bytes, padding: nat, ahead: Bytes) {
    && padding <= |tail| && tail[padding..] == ahead
    && forall i :: 0 <= i < padding ==> tail[i] == 0
  }

  lemma {:induction false} SkipMore(tail: Bytes, padding: nat, data: Bytes, rest: Bytes)
    requires Skipped(tail, padding, data + rest)
    ensures Skipped(tail, padding + Zeros(data), data[Zeros(data)..] + rest)
  {
    var z := Zeros(data);
    forall i | padding <= i < padding + z ensures tail[i] == 0 {
      assert tail[padding..][i - padding] == data[i - padding];
    }
    assert tail[padding + z..] == tail[padding..][z..] == data[z..] + rest;
  }

  lemma {:induction false} SkippedAll(tail: Bytes, padding: nat, ahead: Bytes)
    requires Skipped(tail, padding, ahead) && (ahead != [] ==> ahead[0] != 0)
    ensures Zeros(tail) == padding
  {
    assert tail == tail[..padding] + ahead;
    ZerosSkipped(tail[..padding], ahead);
  }

  /** Reads on until something other than padding, or the end, turns up. */
  method SkipPadding(stream: Stream, unused: Bytes) returns (data: Bytes, padding: nat)
    modifies stream
    ensures var tail := unused + old(stream.rest);
            padding == Zeros(tail) && data + stream.rest == tail[padding..]
    ensures data == [] ==> stream.rest == []
  {
    ghost var tail := unused + stream.rest;
    data := unused;
    padding := 0;
    while true
      invariant Skipped(tail, padding, data + stream.rest)
      decreases |data| + |stream.rest|, |stream.rest|
    {
      if data == [] {
        data := stream.Read();
      }
      var stripped := data[Zeros(data)..];
      SkipMore(tail, padding, data, stream.rest);
      padding := padding + (|data| - |stripped|);
      if stripped != [] || data == [] {
        data := stripped;
        SkippedAll(tail, padding, data + stream.rest);
        return;
      }
      data := [];
      assert stripped + stream.rest == data + stream.rest;
    }
  }

  // ---- draining a file ----

  /** What a caller who drains the reader ends up with. */
  ghost predicate EndsAs(whole: Outcome, out: Bytes, ending: Ending) {
    if |whole.out| > UNPACKED_LIMIT then ending == TooBig
    else ending == whole.ending && (ending == Done ==> out == whole.out)
  }

  /** One read into a buffer of some size. */
  method Pull(reader: Reader) returns (chunk: Bytes, end: Option<Ending>)
    requires reader.Valid()
    modifies reader, reader.stream, reader.decoder
    ensures reader.decoder == old(reader.decoder) || fresh(reader.decoder)
    ensures end.None? ==> reader.Valid() && chunk != [] && reader.delivered == old(reader.delivered) + chunk
                          && |reader.delivered| <= |reader.whole.out|
    ensures end.Some? ==> EndsAs(reader.whole, old(reader.delivered), end.value)
  {
    var n: nat :| n > 0;
    var buffer := new Byte[n];
    var r := reader.ReadInto(buffer);
    match r
    case Failed(why) =>
      chunk, end := [], Some(why);
    case Count(k) =>
      chunk, end := buffer[..k], if k == 0 then Some(Done) else None;
      assert k == 0 ==> old(reader.delivered) + [] == old(reader.delivered);
  }

  /** Whatever chunks the file comes in and whatever buffer sizes the caller picks, draining it
      gives the one outcome the bytes determine. */
  method Drain(f: Format, all: Bytes) returns (out: Bytes, ending: Ending)
    requires Sound(f)
    ensures EndsAs(Unpack(f, all), out, ending)
  {
    var stream := new Stream(all);
    var reader := new Reader(f, stream);
    ghost var whole := reader.whole;
    out := [];
    while true
      invariant reader.Valid() && reader.whole == whole && out == reader.delivered
      invariant fresh(reader) && fresh(reader.stream) && fresh(reader.decoder)
      decreases |whole.out| - |out|
    {
      var chunk, end := Pull(reader);
      if end.Some? {
        return out, end.value;
      }
      out := out + chunk;
    }
  }
}
