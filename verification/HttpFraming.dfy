/**
 Message bodies: a body of known length, and a body in chunks (RFC 2616, section 3.6.1).
 */
module HttpFraming {
  import opened Common
  import opened HttpTypes
  import opened HttpStep
  import opened HttpRun
  import opened HttpSkim
  import opened HttpAhead
  import opened HttpNumbers

  // ---------- a body of known length ----------

  /** The last byte of the body is seen again and completes the message. */
  lemma BodyCompletes(f: Fields, log: Log, input: seq<byte>, env: Env)
    requires f.st.MessageDone? && !f.flags.trailing && input != [] && !Upgraded(f, log)
    ensures Run(f, log, input, env) == Run(f.(st := NewMessage(f)), Emit(log, MessageComplete), input[1..], env)
  {
    var c := input[0];
    assert MoveOf(f, c, env) == Note(NewMessage(f), MessageComplete) && After(f, c, env) == f.(st := NewMessage(f));
  }

  /**
   With `n` bytes of body left, the body callbacks deliver exactly the next `n` bytes, then the message is complete,
   once; what follows is untouched. Before that, all there is has been delivered and the rest is awaited.
   */
  lemma IdentityBody(f: Fields, log: Log, input: seq<byte>, env: Env)
    requires FieldsOk(f) && f.st.BodyIdentity? && input != [] && !Upgraded(f, log)
    ensures var n := f.contentLength;
            if |input| < n
            then Run(f, log, input, env)
                 == Stopped(f.(contentLength := n - |input|), Emit(log, Data(Body, input)), [])
            else var g := f.(contentLength := 0);
                 Run(f, log, input, env)
                 == Run(g.(st := NewMessage(g)), Emit(log, Data(Body, input[..n])) + [MessageComplete], input[n..], env)
  {
    hide Run, MoveOf, EffectOf, After, FieldsOk, Upgraded, Emit;
    var n := f.contentLength;
    BodyHasLength(f);
    if |input| < n {
      BodyBytes(f, log, input, |input|, env);
      assert input[..|input|] == input && input[|input|..] == [];
      Nothing(f.(contentLength := n - |input|), Emit(log, Data(Body, input)), env);
    } else {
      BodyBytes(f, log, input, n, env);
      var g := f.(contentLength := 0);
      var log' := Emit(log, Data(Body, input[..n]));
      DataIsNoExit(g.(st := MessageDone), log, Body, input[..n]);
      BodyCompletes(g.(st := MessageDone), log', input[n - 1..], env);
      assert NewMessage(g.(st := MessageDone)) == NewMessage(g);
      assert input[n - 1..][1..] == input[n..];
      EmitNote(log', MessageComplete);
    }
  }

  lemma BodyHasLength(f: Fields)
    requires FieldsOk(f) && f.st.BodyIdentity?
    ensures 0 < f.contentLength < MAX64 && !f.flags.trailing
  {
  }

  lemma Nothing(f: Fields, log: Log, env: Env)
    ensures Run(f, log, [], env) == Stopped(f, log, [])
  {
  }

  lemma EmitNote(log: Log, ev: Event)
    requires !ev.Data?
    ensures Emit(log, ev) == log + [ev]
  {
  }

  // ---------- a body in chunks ----------

  /** A chunk as it is spelled: its size in HEX, upper or lower case, with any leading zeros, and any extension. */
  datatype Chunk = Chunk(size: seq<byte>, extension: seq<byte>, bytes: seq<byte>)

  ghost predicate Spelled(chunk: Chunk) {
    && chunk.size != [] && (forall c <- chunk.size :: IsHex(c)) && SizeValue(chunk.size) == |chunk.bytes| <= MAX_CHUNK
    && (chunk.extension == [] || chunk.extension[0] == SP || chunk.extension[0] == ';' as int)
    && CR !in chunk.extension
  }

  const CRLF: seq<byte> := [CR, LF]

  function SizeLine(chunk: Chunk): (r: seq<byte>) { chunk.size + chunk.extension + CRLF }

  function Encoded(chunk: Chunk): (r: seq<byte>) { SizeLine(chunk) + (chunk.bytes + CRLF) }

  /** The chunked body: the chunks, the last chunk, no trailer. */
  function Stream(chunks: seq<Chunk>, last: Chunk): (r: seq<byte>) {
    if chunks == [] then SizeLine(last) + CRLF else Encoded(chunks[0]) + Stream(chunks[1..], last)
  }

  function ChunkEvents(chunk: Chunk): (r: Log)
    requires |chunk.bytes| <= MAX_CHUNK
  {
    [ChunkHeader(|chunk.bytes|), Data(Body, chunk.bytes), ChunkComplete]
  }

  /** The fields in the size line, `k` bytes into it. */
  function InLine(f: Fields, st: State, n: uint64, k: nat): (r: Fields) {
    f.(st := st, contentLength := n, seen := More(f.seen, k))
  }

  /** The fields after a size line of `k` bytes. */
  function AfterLine(f: Fields, n: uint64, k: nat): (r: Fields)
    requires k > 0
  {
    f.(st := if n == 0 then HeaderFieldStart else ChunkData, contentLength := n,
       flags := if n == 0 then f.flags.(trailing := true) else f.flags,
       seen := Bytes(0, More(f.seen, k - 1).most))
  }

  lemma {:induction false} Extension(f: Fields, log: Log, n: uint64, k: nat, ext: seq<byte>, env: Env)
    requires !Upgraded(f, log) && CR !in ext
    requires ext != [] ==> ext[0] == SP || ext[0] == ';' as int
    ensures Run(InLine(f, ChunkSize, n, k), log, ext, env)
            == Stopped(InLine(f, if ext == [] then ChunkSize else ChunkParameters, n, k + |ext|), log, [])
  {
    hide Run, Upgraded;
    var g := InLine(f, ChunkSize, n, k);
    if ext == [] {
      Nothing(g, log, env);
    } else {
      assert Upgraded(g, log) == Upgraded(f, log) by { SameExit(f, g, log); }
      ExtensionStarts(g, ext[0], env);
      OneByte(g, log, ext[0], env);
      var h := InLine(f, ChunkParameters, n, k + 1);
      assert ext == [ext[0]] + ext[1..];
      Then(g, log, [ext[0]], h, log, ext[1..], env);
      Parameters(f, log, n, k + 1, ext[1..], env);
    }
  }

  lemma SameExit(f: Fields, g: Fields, log: Log)
    requires f.upgrade == g.upgrade
    ensures Upgraded(f, log) == Upgraded(g, log)
  {
  }

  lemma ExtensionStarts(f: Fields, c: byte, env: Env)
    requires f.st.ChunkSize? && (c == SP || c == ';' as int)
    ensures MoveOf(f, c, env) == To(ChunkParameters)
    ensures After(f, c, env) == f.(st := ChunkParameters, seen := More(f.seen, 1))
  {
  }

  lemma ParameterByte(f: Fields, c: byte, env: Env)
    requires f.st.ChunkParameters? && c != CR
    ensures MoveOf(f, c, env) == To(ChunkParameters) && After(f, c, env) == f.(seen := More(f.seen, 1))
  {
  }

  lemma {:induction false} Parameters(f: Fields, log: Log, n: uint64, k: nat, ext: seq<byte>, env: Env)
    requires !Upgraded(f, log) && CR !in ext
    ensures Run(InLine(f, ChunkParameters, n, k), log, ext, env)
            == Stopped(InLine(f, ChunkParameters, n, k + |ext|), log, [])
    decreases |ext|
  {
    hide Run, Upgraded, MoveOf, EffectOf, After;
    var g := InLine(f, ChunkParameters, n, k);
    if ext == [] {
      Nothing(g, log, env);
    } else {
      SameExit(f, g, log);
      ParameterByte(g, ext[0], env);
      OneByte(g, log, ext[0], env);
      assert ext == [ext[0]] + ext[1..];
      Then(g, log, [ext[0]], InLine(f, ChunkParameters, n, k + 1), log, ext[1..], env);
      Parameters(f, log, n, k + 1, ext[1..], env);
    }
  }

  lemma LineEnds(f: Fields, log: Log, st: State, n: uint64, k: nat, env: Env)
    requires !Upgraded(f, log) && (st.ChunkSize? || st.ChunkParameters?)
    ensures Run(InLine(f, st, n, k), log, CRLF, env) == Stopped(AfterLine(f, n, k + 2), log + [ChunkHeader(n)], [])
  {
    var g, h := InLine(f, st, n, k), InLine(f, ChunkSizeAlmostDone, n, k + 1);
    assert MoveOf(g, CR, env) == To(ChunkSizeAlmostDone) && After(g, CR, env) == h;
    LineFeed(f, n, k, env);
    hide Run, MoveOf, EffectOf, After, Upgraded, AfterLine;
    SameExit(f, g, log);
    SameExit(f, h, log);
    OneByte(g, log, CR, env);
    OneByte(h, log, LF, env);
    assert CRLF == [CR] + [LF];
    Then(g, log, [CR], h, log, [LF], env);
  }

  lemma LineFeed(f: Fields, n: uint64, k: nat, env: Env)
    ensures var h, g := InLine(f, ChunkSizeAlmostDone, n, k + 1), AfterLine(f, n, k + 2);
            MoveOf(h, LF, env) == Note(g.st, ChunkHeader(n)) && After(h, LF, env) == g
  {
  }

  /** A size line announces the chunk. */
  lemma SizeLineRuns(f: Fields, log: Log, chunk: Chunk, env: Env)
    requires f.st.ChunkSizeStart? && !Upgraded(f, log) && Spelled(chunk)
    ensures Run(f, log, SizeLine(chunk), env)
            == Stopped(AfterLine(f, |chunk.bytes|, |SizeLine(chunk)|), log + [ChunkHeader(|chunk.bytes|)], [])
  {
    hide Run, Upgraded, AfterLine;
    var n, s, e := |chunk.bytes|, chunk.size, chunk.extension;
    ChunkSizeIsExact(f, log, s, env);
    var st := if e == [] then ChunkSize else ChunkParameters;
    Extension(f, log, n, |s|, e, env);
    Then(f, log, s, InLine(f, ChunkSize, n, |s|), log, e, env);
    LineEnds(f, log, st, n, |s + e|, env);
    Then(f, log, s + e, InLine(f, st, n, |s + e|), log, CRLF, env);
  }

  /** The fields once a chunk is over. */
  function AfterChunk(f: Fields, k: nat): (r: Fields)
    requires k > 0
  {
    f.(st := ChunkSizeStart, contentLength := 0, seen := Bytes(0, More(f.seen, k - 1).most))
  }

  lemma ChunkDataRuns(f: Fields, log: Log, bytes: seq<byte>, env: Env)
    requires f.st.ChunkData? && f.contentLength == |bytes| && 0 < |bytes| < MAX64 && f.seen.now == 0
    requires log != [] && log[|log| - 1].ChunkHeader?
    ensures Run(f, log, bytes + CRLF, env)
            == Stopped(f.(st := ChunkSizeStart, contentLength := 0), log + [Data(Body, bytes), ChunkComplete], [])
  {
    var g := f.(st := ChunkDataAlmostDone, contentLength := 0);
    var h, log' := g.(st := ChunkDataDone), log + [Data(Body, bytes)];
    ChunkEndRuns(f, env);
    hide MoveOf, EffectOf, After;
    assert !Upgraded(f, log) && !Upgraded(g, log') && !Upgraded(h, log');
    hide Run, Upgraded;
    BodyBytes(f, log, bytes, |bytes|, env);
    assert bytes[..|bytes|] == bytes && bytes[|bytes|..] == [];
    Nothing(g, log', env);
    OneByte(g, log', CR, env);
    OneByte(h, log', LF, env);
    Then(g, log', [CR], h, log', [LF], env);
    assert CRLF == [CR] + [LF];
    Then(f, log, bytes, g, log', CRLF, env);
    assert log' + [ChunkComplete] == log + [Data(Body, bytes), ChunkComplete];
  }

  lemma ChunkEndRuns(f: Fields, env: Env)
    requires f.seen.now == 0
    ensures var g := f.(st := ChunkDataAlmostDone, contentLength := 0);
            var h := g.(st := ChunkDataDone);
            && MoveOf(g, CR, env) == To(ChunkDataDone) && After(g, CR, env) == h
            && MoveOf(h, LF, env) == Note(ChunkSizeStart, ChunkComplete)
            && After(h, LF, env) == h.(st := ChunkSizeStart)
  {
  }

  /** A chunk is announced, delivered and completed. */
  lemma ChunkRuns(f: Fields, log: Log, chunk: Chunk, env: Env)
    requires f.st.ChunkSizeStart? && !Upgraded(f, log) && Spelled(chunk) && chunk.bytes != []
    ensures Run(f, log, Encoded(chunk), env) == Stopped(AfterChunk(f, |SizeLine(chunk)|), log + ChunkEvents(chunk), [])
  {
    hide Run, Upgraded;
    var n, k := |chunk.bytes|, |SizeLine(chunk)|;
    var log' := log + [ChunkHeader(n)];
    SizeLineRuns(f, log, chunk, env);
    ChunkDataRuns(AfterLine(f, n, k), log', chunk.bytes, env);
    Then(f, log, SizeLine(chunk), AfterLine(f, n, k), log', chunk.bytes + CRLF, env);
    assert log' + [Data(Body, chunk.bytes), ChunkComplete] == log + ChunkEvents(chunk);
  }

  /** The line feed that ends the trailer ends the last chunk and the message. */
  lemma LastLineFeed(f: Fields, log: Log, env: Env)
    requires f.st.HeadersAlmostDone? && f.flags.trailing && log != [] && log[|log| - 1].ChunkHeader?
    ensures var o := Run(f, log, [LF], env);
            && o.Stopped? && o.rest == [] && o.log == log + [ChunkComplete, MessageComplete]
            && o.f.st == NewMessage(f) && o.f.flags == f.flags
  {
    var g := f.(st := MessageDone);
    var h, log' := g.(st := NewMessage(f), seen := More(f.seen, 1)), log + [ChunkComplete];
    TrailerEnds(f, env);
    hide MoveOf, EffectOf, After, NewMessage;
    assert !Upgraded(f, log) && !Upgraded(g, log');
    hide Upgraded;
    LookAgain(f, log, LF, env);
    hide Run;
    OneByte(g, log', LF, env);
    assert log' + [MessageComplete] == log + [ChunkComplete, MessageComplete];
  }

  lemma LookAgain(f: Fields, log: Log, c: byte, env: Env)
    requires !Upgraded(f, log) && MoveOf(f, c, env).Go? && !MoveOf(f, c, env).consumed
    ensures Run(f, log, [c], env) == Run(After(f, c, env), Noted(log, MoveOf(f, c, env).note), [c], env)
  {
    hide MoveOf, EffectOf, After, Upgraded, Rank;
    MoveMakesProgress(f, c, env);
  }

  lemma TrailerEnds(f: Fields, env: Env)
    requires f.st.HeadersAlmostDone? && f.flags.trailing
    ensures var g := f.(st := MessageDone);
            && MoveOf(f, LF, env) == NoteAgain(MessageDone, ChunkComplete) && After(f, LF, env) == g
            && MoveOf(g, LF, env) == Note(NewMessage(f), MessageComplete)
            && After(g, LF, env) == g.(st := NewMessage(f), seen := More(f.seen, 1))
  {
    hide NewMessage;
    SameNewMessage(f);
    TrailedMessageEnds(f.(st := MessageDone), env);
  }

  lemma SameNewMessage(f: Fields)
    ensures NewMessage(f.(st := MessageDone)) == NewMessage(f)
  {
  }

  lemma TrailedMessageEnds(f: Fields, env: Env)
    requires f.st.MessageDone? && f.flags.trailing
    ensures MoveOf(f, LF, env) == Note(NewMessage(f), MessageComplete)
    ensures After(f, LF, env) == f.(st := NewMessage(f), seen := More(f.seen, 1))
  {
    hide NewMessage;
    assert MoveOf(f, LF, env) == BodyMove(f, LF) && EffectOf(f, LF, env) == BodyEffect(f);
    hide MoveOf, EffectOf;
  }

  lemma TrailerStarts(f: Fields, env: Env)
    requires f.st.HeaderFieldStart?
    ensures MoveOf(f, CR, env) == To(HeadersAlmostDone)
    ensures After(f, CR, env) == f.(st := HeadersAlmostDone, seen := More(f.seen, 1))
  {
  }

  /** The last chunk, but for the final line feed: it is announced, and nothing is complete. */
  lemma LastChunkRuns(f: Fields, log: Log, last: Chunk, env: Env)
    requires f.st.ChunkSizeStart? && !Upgraded(f, log) && Spelled(last) && last.bytes == []
    ensures var o := Run(f, log, SizeLine(last) + [CR], env);
            && o.Stopped? && o.rest == [] && o.log == log + [ChunkHeader(0)] && o.f.st.HeadersAlmostDone?
            && o.f.flags == f.flags.(trailing := true) && o.f.contentLength == 0 && o.f.line == f.line
  {
    var k := |SizeLine(last)|;
    var g, log' := AfterLine(f, 0, k), log + [ChunkHeader(0)];
    SizeLineRuns(f, log, last, env);
    TrailerStarts(g, env);
    hide MoveOf, EffectOf, After;
    assert !Upgraded(g, log');
    hide Run, Upgraded;
    OneByte(g, log', CR, env);
    Then(f, log, SizeLine(last), g, log', [CR], env);
  }

  /** The chunked body without its final line feed. */
  function StreamCut(chunks: seq<Chunk>, last: Chunk): (r: seq<byte>) {
    if chunks == [] then SizeLine(last) + [CR] else Encoded(chunks[0]) + StreamCut(chunks[1..], last)
  }

  lemma {:induction false} StreamIsCutAndLineFeed(chunks: seq<Chunk>, last: Chunk)
    ensures Stream(chunks, last) == StreamCut(chunks, last) + [LF]
  {
    if chunks == [] {
      assert SizeLine(last) + CRLF == SizeLine(last) + [CR] + [LF];
    } else {
      StreamIsCutAndLineFeed(chunks[1..], last);
    }
  }

  /** The events of the chunks alone. */
  function BodyEvents(chunks: seq<Chunk>): (r: Log)
    requires forall c <- chunks :: |c.bytes| <= MAX_CHUNK
  {
    if chunks == [] then [] else ChunkEvents(chunks[0]) + BodyEvents(chunks[1..])
  }

  ghost predicate AllSpelled(chunks: seq<Chunk>) { forall c <- chunks :: Spelled(c) && c.bytes != [] }

  lemma {:induction false} CutStreamRuns(f: Fields, log: Log, chunks: seq<Chunk>, last: Chunk, env: Env)
    requires f.st.ChunkSizeStart? && !Upgraded(f, log) && AllSpelled(chunks) && Spelled(last) && last.bytes == []
    ensures var o := Run(f, log, StreamCut(chunks, last), env);
            && o.Stopped? && o.rest == [] && o.log == log + BodyEvents(chunks) + [ChunkHeader(0)]
            && o.f.st.HeadersAlmostDone?
            && o.f.flags == f.flags.(trailing := true) && o.f.contentLength == 0 && o.f.line == f.line
    decreases |chunks|
  {
    hide Run, Upgraded;
    if chunks == [] {
      LastChunkRuns(f, log, last, env);
      assert log + [] == log;
    } else {
      var g, log' := AfterChunk(f, |SizeLine(chunks[0])|), log + ChunkEvents(chunks[0]);
      ChunkRuns(f, log, chunks[0], env);
      assert !Upgraded(g, log') by { ChunkIsNoExit(g, log, chunks[0]); }
      Then(f, log, Encoded(chunks[0]), g, log', StreamCut(chunks[1..], last), env);
      CutStreamRuns(g, log', chunks[1..], last, env);
      assert log' + BodyEvents(chunks[1..]) == log + BodyEvents(chunks);
    }
  }

  lemma ChunkIsNoExit(f: Fields, log: Log, chunk: Chunk)
    requires |chunk.bytes| <= MAX_CHUNK
    ensures !Upgraded(f, log + ChunkEvents(chunk))
  {
  }

  // ---------- what was sent is what is delivered ----------

  function Delivered(log: Log): (r: seq<byte>) {
    if log == [] then []
    else (if log[0].Data? && log[0].field.Body? then log[0].bytes else []) + Delivered(log[1..])
  }

  function Sent(chunks: seq<Chunk>): (r: seq<byte>) {
    if chunks == [] then [] else chunks[0].bytes + Sent(chunks[1..])
  }

  /** The body callbacks deliver the bytes of the chunks, in order, none twice. */
  lemma {:induction false} ChunksDeliverWhatWasSent(chunks: seq<Chunk>)
    requires forall c <- chunks :: |c.bytes| <= MAX_CHUNK
    ensures Delivered(BodyEvents(chunks)) == Sent(chunks)
  {
    if chunks != [] {
      var c, tail := chunks[0], BodyEvents(chunks[1..]);
      var rest := [ChunkComplete] + tail;
      assert BodyEvents(chunks)[1..] == [Data(Body, c.bytes)] + rest;
      assert ([Data(Body, c.bytes)] + rest)[1..] == rest && rest[1..] == tail;
      ChunksDeliverWhatWasSent(chunks[1..]);
      assert [] + Delivered(tail) == Delivered(tail) && Delivered(rest) == Delivered(tail);
    }
  }

  /**
   Chunked round trip: however the sizes are spelled and whatever the extensions, the application is told each chunk's
   length, its bytes and its end, then of the last chunk, and that the message is complete on the final line feed, not
   before.
   */
  lemma ChunkedRoundTrip(f: Fields, log: Log, chunks: seq<Chunk>, last: Chunk, env: Env)
    requires FieldsOk(f) && f.st.ChunkSizeStart? && !Upgraded(f, log)
    requires AllSpelled(chunks) && Spelled(last) && last.bytes == []
    ensures var input := Stream(chunks, last);
            var o, cut := Run(f, log, input, env), Run(f, log, input[..|input| - 1], env);
            && o.Stopped? && o.rest == [] && o.f.st == NewMessage(f)
            && o.log == log + BodyEvents(chunks) + [ChunkHeader(0), ChunkComplete, MessageComplete]
            && Delivered(BodyEvents(chunks)) == Sent(chunks)
            && cut.Stopped? && cut.rest == [] && cut.log == log + BodyEvents(chunks) + [ChunkHeader(0)]
  {
    var input, cut := Stream(chunks, last), StreamCut(chunks, last);
    ChunksDeliverWhatWasSent(chunks);
    StreamIsCutAndLineFeed(chunks, last);
    assert input[..|input| - 1] == cut;
    CutStreamRuns(f, log, chunks, last, env);
    var o := Run(f, log, cut, env);
    hide Run, Upgraded, MoveOf, EffectOf;
    SameEnd(f, o.f);
    LastLineFeed(o.f, o.log, env);
    Then(f, log, cut, o.f, o.log, [LF], env);
    assert o.log + [ChunkComplete, MessageComplete]
        == log + BodyEvents(chunks) + [ChunkHeader(0), ChunkComplete, MessageComplete];
  }

  /** A chunked message ends alike whatever its last length. */
  lemma SameEnd(f: Fields, g: Fields)
    requires FieldsOk(f) && f.st.ChunkSizeStart? && g.line == f.line && g.flags == f.flags.(trailing := true)
    ensures NewMessage(g) == NewMessage(f)
  {
  }
}
