/**
 Message bodies as the parser itself delivers them: fed in any buffers, its callbacks pausing wherever they like.
 */
module HttpDelivery {
  import opened Common
  import opened HttpTypes
  import opened HttpStep
  import opened HttpRun
  import opened HttpSkim
  import opened HttpAhead
  import opened HttpNumbers
  import opened HttpFraming
  import opened HttpParser
  import opened HttpFeed

  /** Where the byte-at-a-time reading meets no error, buffers make no difference. */
  lemma NoErrorNoMiss(f: Fields, log: Log, pieces: seq<seq<byte>>, env: Env)
    requires Run(f, log, Concat(pieces), env).Stopped?
    ensures FeedRun(f, log, pieces, env).outcome == Run(f, log, Concat(pieces), env)
    ensures FeedRun(f, log, pieces, env).peak == Skim(f, log, Concat(pieces), env).peak
  {
    hide Run, FeedRun, Skim, Peak, Concat, Missed, Misses;
    FeedAgrees(f, log, pieces, env);
    if Missed(f, log, pieces, env) { MissedMeans(f, log, pieces, env); }
    SkimAgrees(f, log, Concat(pieces), env);
    if Misses(f, log, Concat(pieces), env) { MissesMeansToken(f, log, Concat(pieces), env); }
  }

  /**
   A body in chunks, in any buffers: unless a callback fails or a line between chunks is found too long, the application
   is told every chunk's length, its bytes and its end, then that the message is complete, and the bytes delivered are
   those that were sent.
   */
  method FeedChunks(parser: Parser, pieces: seq<seq<byte>>, ghost chunks: seq<Chunk>, ghost last: Chunk)
    returns (left: seq<byte>)
    requires parser.Valid() && parser.errno == Ok && !Upgraded(parser.Snap(), parser.log) && parser.st.ChunkSizeStart?
    requires AllSpelled(chunks) && Spelled(last) && last.bytes == [] && Concat(pieces) == Stream(chunks, last)
    modifies parser
    ensures parser.Valid() && Interruptions(parser, old(parser.Now()), old(parser.calls), |pieces|)
    ensures AllShort(pieces) && parser.errno != HeaderOverflow
            && parser.Now().failures == old(parser.Now().failures) ==>
              && parser.errno == Ok && left == [] && parser.st == NewMessage(old(parser.Snap()))
              && parser.log == old(parser.log) + BodyEvents(chunks) + [ChunkHeader(0), ChunkComplete, MessageComplete]
              && Delivered(BodyEvents(chunks)) == Sent(chunks)
    ensures AllShort(pieces) && old(parser.short) && parser.errno == HeaderOverflow ==>
              MAX_HEADER_SIZE < old(FeedRun(parser.Snap(), parser.log, pieces, parser.env)).peak + parser.calls
  {
    SoundFields(parser);
    ChunkedRoundTrip(parser.Snap(), parser.log, chunks, last, parser.env);
    NoErrorNoMiss(parser.Snap(), parser.log, pieces, parser.env);
    hide Run, FeedRun, Concat, Sound, Upgraded, Replies, NewMessage, BodyEvents, Delivered, Sent, Stream, Spelled,
         AllSpelled, UpToPending;
    ghost var ahead;
    left, ahead := Feed(parser, pieces);
  }

  lemma SoundFields(parser: Parser)
    requires parser.Valid() && parser.errno == Ok
    ensures FieldsOk(parser.Snap())
  {
    hide FieldsOk;
  }

  /**
   A body of known length, or a part of it, in any buffers: unless a callback fails, exactly its bytes are delivered,
   and with the last of them, not before, the message is complete, once.
   */
  method FeedLength(parser: Parser, pieces: seq<seq<byte>>) returns (left: seq<byte>)
    requires parser.Valid() && parser.errno == Ok && !Upgraded(parser.Snap(), parser.log) && parser.st.BodyIdentity?
    requires 0 < |Concat(pieces)| <= parser.contentLength
    modifies parser
    ensures parser.Valid() && Interruptions(parser, old(parser.Now()), old(parser.calls), |pieces|)
    ensures AllShort(pieces) && parser.errno != HeaderOverflow
            && parser.Now().failures == old(parser.Now().failures) ==>
              var log := Emit(old(parser.log), Data(Body, Concat(pieces)));
              && parser.errno == Ok && left == []
              && (if |Concat(pieces)| < old(parser.contentLength)
                  then parser.log == log && parser.contentLength == old(parser.contentLength) - |Concat(pieces)|
                  else parser.log == log + [MessageComplete])
    ensures AllShort(pieces) && old(parser.short) && parser.errno == HeaderOverflow ==>
              MAX_HEADER_SIZE < old(parser.seen.now) + parser.calls
  {
    SoundFields(parser);
    BodyRuns(parser.Snap(), parser.log, Concat(pieces), parser.env);
    NoErrorNoMiss(parser.Snap(), parser.log, pieces, parser.env);
    BodyIsNoHeader(parser.Snap(), parser.log, Concat(pieces), parser.env);
    hide Run, FeedRun, Skim, Concat, Sound, Upgraded, Replies, NewMessage, Emit, UpToPending;
    ghost var ahead;
    left, ahead := Feed(parser, pieces);
  }

  lemma BodyRuns(f: Fields, log: Log, input: seq<byte>, env: Env)
    requires FieldsOk(f) && f.st.BodyIdentity? && 0 < |input| <= f.contentLength && !Upgraded(f, log)
    ensures var o, log1 := Run(f, log, input, env), Emit(log, Data(Body, input));
            && o.Stopped? && o.rest == []
            && (if |input| < f.contentLength then o.log == log1 && o.f.contentLength == f.contentLength - |input|
                else o.log == log1 + [MessageComplete])
  {
    hide FieldsOk, Upgraded, Emit, NewMessage, Run;
    IdentityBody(f, log, input, env);
    if |input| == f.contentLength {
      var g := f.(contentLength := 0);
      assert input[..|input|] == input && input[|input|..] == [];
      Nothing(g.(st := NewMessage(g)), Emit(log, Data(Body, input)) + [MessageComplete], env);
    }
  }

  /** The bytes of a body are no header bytes. */
  lemma BodyIsNoHeader(f: Fields, log: Log, input: seq<byte>, env: Env)
    requires FieldsOk(f) && f.st.BodyIdentity? && 0 < |input| <= f.contentLength && !Upgraded(f, log)
    ensures Skim(f, log, input, env).peak == f.seen.now
  {
    hide Skim, Upgraded, Emit;
    BodyHasLength(f);
    var n := |input|;
    BodyBytes(f, log, input, n, env);
    var g, log1 := AfterBody(f, n), Emit(log, Data(Body, input[..n]));
    if n == f.contentLength {
      DataIsNoExit(g, log, Body, input[..n]);
      assert input[n - 1..][1..] == [];
      LastOfBody(g, log1, input[n - 1..], env);
    } else {
      RunStops(g, log1, input[n..], env);
    }
  }

  lemma LastOfBody(f: Fields, log: Log, input: seq<byte>, env: Env)
    requires f.st.MessageDone? && !f.flags.trailing && |input| == 1 && !Upgraded(f, log)
    ensures Skim(f, log, input, env).peak == f.seen.now
  {
    var c := input[0];
    var g, log1 := f.(st := NewMessage(f)), Emit(log, MessageComplete);
    assert MoveOf(f, c, env) == Note(NewMessage(f), MessageComplete) && After(f, c, env) == g && !Skims(f, c, env);
    hide MoveOf, EffectOf, After, Emit, Upgraded;
    RunStops(g, log1, input[1..], env);
  }
}
