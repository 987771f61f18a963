/**
 Feeding a stream to the parser: what it comes to depends on the bytes alone, not on how they are cut into buffers nor
 on where callbacks pause, except that a strict parser may miss a byte that has no place in a header value.
 */
module HttpFeed {
  import opened Common
  import opened HttpTypes
  import opened HttpStep
  import opened HttpRun
  import opened HttpSkim
  import opened HttpMarks
  import opened HttpAhead
  import opened HttpParser
  import HttpEvents

  function Concat(pieces: seq<seq<byte>>): (stream: seq<byte>) {
    if pieces == [] then [] else pieces[0] + Concat(pieces[1..])
  }

  predicate AllShort(pieces: seq<seq<byte>>) { forall piece <- pieces :: Short(piece) }

  /** Reading the stream in the given buffers, each as `Skim` does. */
  function FeedRun(f: Fields, log: Log, pieces: seq<seq<byte>>, env: Env): (r: Reading)
    ensures f.seen.now <= r.peak && |r.outcome.rest| <= |Concat(pieces)|
    decreases |pieces|
  {
    if pieces == [] then Reading(Stopped(f, log, []), f.seen.now)
    else
      var r, rest := Skim(f, log, pieces[0], env), Concat(pieces[1..]);
      var o := r.outcome;
      if o.Failed? then Reading(Failed(o.log, o.rest + rest, o.errno), r.peak)
      else if Upgraded(o.f, o.log) then Reading(Stopped(o.f, o.log, o.rest + rest), r.peak)
      else Higher(r.peak, FeedRun(o.f, o.log, pieces[1..], env))
  }

  // ---------- when the buffers make no difference ----------

  /** In one of the buffers the byte-at-a-time reading comes to a byte that skimming misses. */
  ghost predicate Missed(f: Fields, log: Log, pieces: seq<seq<byte>>, env: Env)
    decreases |pieces|
  {
    && pieces != []
    && (|| Misses(f, log, pieces[0], env)
        || var o := Run(f, log, pieces[0], env);
           o.Stopped? && !Upgraded(o.f, o.log) && Missed(o.f, o.log, pieces[1..], env))
  }

  /**
   Reading in buffers comes to what reading the whole stream byte by byte comes to, with the same peak, if and only if
   nothing is missed; otherwise it goes on beyond the byte at which the byte-at-a-time reading ends in an error.
   */
  lemma {:induction false} FeedAgrees(f: Fields, log: Log, pieces: seq<seq<byte>>, env: Env)
    ensures FeedRun(f, log, pieces, env).outcome == Run(f, log, Concat(pieces), env) <==> !Missed(f, log, pieces, env)
    ensures !Missed(f, log, pieces, env) ==>
              FeedRun(f, log, pieces, env).peak == Peak(f, log, Concat(pieces), env)
    ensures Missed(f, log, pieces, env) ==>
              |FeedRun(f, log, pieces, env).outcome.rest| < |Run(f, log, Concat(pieces), env).rest|
    decreases |pieces|
  {
    if pieces == [] {
      NothingFed(f, log, env);
    } else {
      hide Skim, Misses;
      var piece, rest := pieces[0], Concat(pieces[1..]);
      var o := Run(f, log, piece, env);
      SkimAgrees(f, log, piece, env);
      RunSplit(f, log, piece, rest, env);
      PeakSplit(f, log, piece, rest, env);
      if Misses(f, log, piece, env) {
        MissesMeansToken(f, log, piece, env);
      } else if o.Stopped? {
        if Upgraded(o.f, o.log) {
          RunStops(o.f, o.log, o.rest + rest, env);
        } else {
          assert o.rest + rest == rest;
          FeedAgrees(o.f, o.log, pieces[1..], env);
        }
      }
      hide Run, Peak, Upgraded;
    }
  }

  lemma NothingFed(f: Fields, log: Log, env: Env)
    ensures FeedRun(f, log, [], env) == Reading(Stopped(f, log, []), f.seen.now)
    ensures Run(f, log, [], env) == Stopped(f, log, []) && Peak(f, log, [], env) == f.seen.now
  {
  }

  lemma RunStops(f: Fields, log: Log, input: seq<byte>, env: Env)
    requires Upgraded(f, log) || input == []
    ensures Run(f, log, input, env) == Stopped(f, log, input)
    ensures Skim(f, log, input, env) == Reading(Stopped(f, log, input), f.seen.now)
  {
  }

  /**
   Nothing is missed by a lenient parser, nor where all bytes of the stream are fit for a header, nor where the
   byte-at-a-time reading meets no invalid header token.
   */
  lemma {:induction false} MissedMeans(f: Fields, log: Log, pieces: seq<seq<byte>>, env: Env)
    requires Missed(f, log, pieces, env)
    ensures !env.lenient && exists c <- Concat(pieces) :: !IsHeaderChar(c)
    ensures var o := Run(f, log, Concat(pieces), env); o.Failed? && o.errno == InvalidHeaderToken
    decreases |pieces|
  {
    hide IsHeaderChar, Misses;
    var piece, rest := pieces[0], Concat(pieces[1..]);
    var o := Run(f, log, piece, env);
    RunSplit(f, log, piece, rest, env);
    if Misses(f, log, piece, env) {
      MissesMeansToken(f, log, piece, env);
      if AllFit(piece, env) { FitBytesAgree(f, log, piece, env); }
      hide Run, Upgraded;
      assert !AllFit(piece, env);
    } else {
      RunLeaves(f, log, piece, env);
      assert o.rest + rest == rest;
      MissedMeans(o.f, o.log, pieces[1..], env);
      hide Run, Upgraded;
    }
  }

  lemma {:induction false} RunLeaves(f: Fields, log: Log, input: seq<byte>, env: Env)
    ensures var o := Run(f, log, input, env); o.Stopped? ==> o.rest == [] || Upgraded(o.f, o.log)
    decreases |input|, Rank(f.st)
  {
    hide MoveOf, EffectOf, Rank;
    if input != [] && !Upgraded(f, log) {
      var m := MoveOf(f, input[0], env);
      if m.Go? {
        if m.consumed {
          RunLeaves(After(f, input[0], env), Noted(log, m.note), input[1..], env);
        } else {
          MoveMakesProgress(f, input[0], env);
          RunLeaves(After(f, input[0], env), Noted(log, m.note), input, env);
        }
      }
    }
  }

  // ---------- feeding the parser ----------

  /**
   How the parser stands when it has been fed what comes to `target`: in the state, with the callbacks and with the
   bytes left that `target` says, or with its error. If a callback failed, what is left of the buffers, `ahead`, still
   leads to `target`. A header section is only found too long when, but for one byte for each call, it is.
   */
  ghost predicate Fed(target: Reading, parser: Parser, left: seq<byte>, ahead: seq<seq<byte>>)
    reads parser
  {
    && (parser.errno == Ok ==> target.outcome == Stopped(parser.Snap(), parser.log, left))
    && (parser.errno == CallbackFailed ==>
          Concat(ahead) == left && Leads(FeedRun(parser.Snap(), parser.log, ahead, parser.env), target))
    && (!Live(parser.errno) && parser.errno != HeaderOverflow ==>
          IsError(target.outcome, parser.log, left, parser.errno))
    && (parser.errno == HeaderOverflow && parser.short ==> MAX_HEADER_SIZE < target.peak + parser.calls)
  }

  /**
   How the application interrupted `buffers` buffers, fed since the parser's book was `book` and its calls `calls`: any
   number of times with a pause, each taking one more call, and at the end with a failure if and only if a callback
   failed; uninterrupted, no header byte goes uncounted.
   */
  ghost predicate Interruptions(parser: Parser, book: Book, calls: nat, buffers: nat)
    reads parser
  {
    var now := parser.Now();
    && book.pauses <= now.pauses && parser.calls <= calls + buffers + now.pauses - book.pauses
    && now.failures == book.failures + (if parser.errno == CallbackFailed then 1 else 0)
    && book.lost <= now.lost && (now.pauses == book.pauses && now.failures == book.failures ==> now.lost == book.lost)
  }

  /** Whether a buffer has to be given to the parser once more. */
  predicate Going(parser: Parser, left: seq<byte>)
    reads parser
  {
    parser.errno == Ok && left != [] && !Upgraded(parser.Snap(), parser.log)
  }

  /** How the parser stands within a buffer that comes to `target`. */
  ghost predicate Midway(target: Reading, parser: Parser, left: seq<byte>)
    reads parser
  {
    if Live(parser.errno) then Leads(Skim(parser.Snap(), parser.log, left, parser.env), target)
    else Fed(target, parser, left, [left])
  }

  /** One call, and the end of the pause it may come to. */
  method FeedOnce(parser: Parser, data: seq<byte>) returns (left: seq<byte>)
    requires parser.Valid() && Going(parser, data)
    modifies parser
    ensures parser.Valid() && parser.errno != Paused
    ensures |left| < |data| || (|left| == |data| && Rank(parser.st) < Rank(old(parser.st))) || parser.errno != Ok
    ensures |left| <= |data| && parser.calls == old(parser.calls) + 1
    ensures Interruptions(parser, old(parser.Now()), old(parser.calls), if Going(parser, left) then 0 else 1)
    ensures Short(data) ==>
              && parser.short == old(parser.short)
              && Midway(old(Skim(parser.Snap(), parser.log, data, parser.env)), parser, left)
  {
    hide Skim, Rank, Upgraded, IsError, Replies, FeedRun, Concat, Sound;
    var n := parser.Execute(data);
    left := data[n..];
    if parser.errno == Paused {
      parser.Unpause();
    }
  }

  /** Feed one buffer, going on after every pause from where the parser stopped. */
  method FeedPiece(parser: Parser, piece: seq<byte>) returns (left: seq<byte>)
    requires parser.Valid() && parser.errno == Ok && !Upgraded(parser.Snap(), parser.log)
    modifies parser
    ensures parser.Valid() && parser.errno != Paused && Interruptions(parser, old(parser.Now()), old(parser.calls), 1)
    ensures parser.errno == Ok ==> left == [] || Upgraded(parser.Snap(), parser.log)
    ensures parser.calls <= old(parser.calls) + 6 * |piece| + 5
    ensures Short(piece) ==>
              && parser.short == old(parser.short)
              && Fed(old(Skim(parser.Snap(), parser.log, piece, parser.env)), parser, left, [left])
  {
    hide Skim, Rank, Upgraded, IsError, Replies, FeedRun, Concat, Sound;
    ghost var target := Skim(parser.Snap(), parser.log, piece, parser.env);
    left := piece;
    while Going(parser, left)
      invariant parser.Valid() && parser.errno != Paused && |left| <= |piece|
      invariant Interruptions(
                  parser, old(parser.Now()), old(parser.calls), if Going(parser, left) then 0 else 1)
      invariant Short(piece) ==> parser.short == old(parser.short) && Midway(target, parser, left)
      invariant parser.calls + (if Going(parser, left) then 6 * |left| + Rank(parser.st) else 0)
                <= old(parser.calls) + 6 * |piece| + 5
      decreases parser.errno == Ok, |left|, Rank(parser.st)
    {
      left := FeedOnce(parser, left);
    }
    if parser.errno == Ok {
      RunStops(parser.Snap(), parser.log, left, parser.env);
    }
    OnePiece(parser.Snap(), parser.log, left, parser.env);
  }

  /** Feeding a single buffer. */
  lemma OnePiece(f: Fields, log: Log, piece: seq<byte>, env: Env)
    ensures Concat([piece]) == piece && FeedRun(f, log, [piece], env) == Skim(f, log, piece, env)
  {
    hide Skim, Upgraded;
    var pieces, o := [piece], Skim(f, log, piece, env).outcome;
    assert pieces[1..] == [] && piece + [] == piece && o.rest + [] == o.rest;
  }

  /**
   Feed a stream in the given nonempty buffers. What the parser ends in and what the application is told is what reading
   the buffers comes to, wherever callbacks pause; `left` is what follows an upgrade or a failed callback, or starts
   with an error.
   */
  method Feed(parser: Parser, pieces: seq<seq<byte>>) returns (left: seq<byte>, ghost ahead: seq<seq<byte>>)
    requires parser.Valid() && parser.errno == Ok && !Upgraded(parser.Snap(), parser.log)
    modifies parser
    ensures parser.Valid() && parser.errno != Paused
    ensures Interruptions(parser, old(parser.Now()), old(parser.calls), |pieces|)
    ensures parser.errno == Ok ==> left == [] || Upgraded(parser.Snap(), parser.log)
    ensures AllShort(pieces) ==>
              && parser.short == old(parser.short)
              && Fed(old(FeedRun(parser.Snap(), parser.log, pieces, parser.env)), parser, left, ahead)
  {
    hide Rank, Upgraded, UpToPending, Skim, Replies;
    ghost var target := FeedRun(parser.Snap(), parser.log, pieces, parser.env);
    left, ahead := [], [];
    var i := 0;
    assert pieces[0..] == pieces;
    while i < |pieces|
      invariant i <= |pieces| && parser.Valid() && parser.errno == Ok && left == []
      invariant !Upgraded(parser.Snap(), parser.log)
      invariant Interruptions(parser, old(parser.Now()), old(parser.calls), i)
      invariant AllShort(pieces) ==>
                  && parser.short == old(parser.short)
                  && Leads(FeedRun(parser.Snap(), parser.log, pieces[i..], parser.env), target)
    {
      ghost var f, log := parser.Snap(), parser.log;
      FeedStep(f, log, pieces, i, parser.env);
      hide FeedRun;
      left := FeedPiece(parser, pieces[i]);
      FeedResumes(f, log, pieces, i, parser.Snap(), parser.log, left, parser.env);
      i := i + 1;
      if parser.errno != Ok || Upgraded(parser.Snap(), parser.log) {
        ahead := [left] + pieces[i..];
        left := left + Concat(pieces[i..]);
        return;
      }
    }
  }

  /** Where the rest of a buffer leads where the buffer led, so does the rest of the stream. */
  lemma FeedResumes(
    f: Fields, log: Log, pieces: seq<seq<byte>>, i: nat, g: Fields, log1: Log, left: seq<byte>, env: Env)
    requires i < |pieces|
    ensures Concat([left] + pieces[i + 1..]) == left + Concat(pieces[i + 1..])
    ensures Leads(FeedRun(g, log1, [left], env), Skim(f, log, pieces[i], env)) ==>
              Leads(FeedRun(g, log1, [left] + pieces[i + 1..], env), FeedRun(f, log, pieces[i..], env))
  {
    OnePiece(g, log1, left, env);
    assert ([left] + pieces[i + 1..])[1..] == pieces[i + 1..] && pieces[i..][1..] == pieces[i + 1..];
    hide Skim, Upgraded;
  }

  /** What feeding the next buffer comes to. */
  lemma FeedStep(f: Fields, log: Log, pieces: seq<seq<byte>>, i: nat, env: Env)
    requires i < |pieces|
    ensures var r, s, rest := Skim(f, log, pieces[i], env), FeedRun(f, log, pieces[i..], env), Concat(pieces[i + 1..]);
            var o := r.outcome;
            && r.peak <= s.peak
            && (if o.Failed? then s.outcome == Failed(o.log, o.rest + rest, o.errno)
                else if Upgraded(o.f, o.log) then s.outcome == Stopped(o.f, o.log, o.rest + rest)
                else Leads(FeedRun(o.f, o.log, pieces[i + 1..], env), s))
  {
    hide Skim, Upgraded;
    assert pieces[i..][1..] == pieces[i + 1..];
  }

  /**
   Split independence: two parsers in the same state are fed the same bytes in different buffers, their callbacks
   pausing wherever they like. Unless one of them misses a byte, finds a header section too long or has a callback fail,
   both accept or both meet the same error at the same byte; when both accept, they end in the same state with the same
   log. Neither finds a section too long that is not, but for one byte for each call.
   */
  method FeedTwice(a: Parser, b: Parser, cut: seq<seq<byte>>, cut': seq<seq<byte>>)
    returns (left: seq<byte>, left': seq<byte>)
    requires a != b && a.Valid() && b.Valid() && a.errno == Ok && b.errno == Ok
    requires a.env == b.env && a.Snap() == b.Snap() && a.log == b.log && !Upgraded(a.Snap(), a.log)
    requires Concat(cut) == Concat(cut')
    modifies a, b
    ensures && AllShort(cut) && AllShort(cut')
            && a.Now().failures == old(a.Now().failures) && b.Now().failures == old(b.Now().failures)
            && a.errno != HeaderOverflow && b.errno != HeaderOverflow
            && !old(Missed(a.Snap(), a.log, cut, a.env)) && !old(Missed(a.Snap(), a.log, cut', a.env)) ==>
              && a.errno == b.errno && left == left'
              && (a.errno == Ok ==> a.Snap() == b.Snap() && a.log == b.log)
              && (a.errno != Ok ==>
                    var target := Run(old(a.Snap()), old(a.log), Concat(cut), a.env);
                    UpToPending(a.log, target.log) && UpToPending(b.log, target.log))
    ensures var f, log := old(a.Snap()), old(a.log);
            AllShort(cut) && old(a.short) && a.errno == HeaderOverflow && !Missed(f, log, cut, a.env) ==>
              MAX_HEADER_SIZE < Peak(f, log, Concat(cut), a.env) + a.calls
    ensures var f, log := old(a.Snap()), old(a.log);
            AllShort(cut') && old(b.short) && b.errno == HeaderOverflow && !Missed(f, log, cut', a.env) ==>
              MAX_HEADER_SIZE < Peak(f, log, Concat(cut), a.env) + b.calls
  {
    hide Run, Upgraded, UpToPending, FeedRun, Missed, Concat, Peak, Replies;
    FeedAgrees(a.Snap(), a.log, cut, a.env);
    FeedAgrees(a.Snap(), a.log, cut', a.env);
    ghost var ahead;
    left, ahead := Feed(a, cut);
    left', ahead := Feed(b, cut');
  }

  /**
   The header size limit. A parser rejects a stream for its size only if one of its header sections comes within as
   many bytes of the limit as there are buffers and pauses (and calls before). It accepts nothing with a section over
   the limit by more than the bytes that went uncounted, and none does while no callback interrupts a value at its end.
   */
  method FeedWithinLimit(parser: Parser, pieces: seq<seq<byte>>) returns (left: seq<byte>)
    requires parser.Valid() && parser.errno == Ok && !Upgraded(parser.Snap(), parser.log)
    modifies parser
    ensures Interruptions(parser, old(parser.Now()), old(parser.calls), |pieces|)
    ensures old(parser.short) && AllShort(pieces) ==>
            var over := old(parser.calls) + |pieces| + parser.Now().pauses - old(parser.Now().pauses);
            var f, log := old(parser.Snap()), old(parser.log);
            && (parser.errno == HeaderOverflow ==>
                  MAX_HEADER_SIZE < FeedRun(f, log, pieces, parser.env).peak + over)
            && (parser.errno == HeaderOverflow && !Missed(f, log, pieces, parser.env) ==>
                  MAX_HEADER_SIZE < Peak(f, log, Concat(pieces), parser.env) + over)
    ensures var target := FeedRun(old(parser.Snap()), old(parser.log), pieces, parser.env).outcome;
            old(parser.short) && AllShort(pieces) && parser.errno == Ok ==>
              target.Stopped? && target.f.seen.most <= MAX_HEADER_SIZE + parser.lost
    ensures old(parser.short) && AllShort(pieces) && parser.errno == Ok ==>
              && parser.nread <= MAX_HEADER_SIZE && parser.nread <= parser.seen.now + 1 + parser.calls
              && parser.seen.now <= parser.nread + parser.lost
  {
    hide Run, Upgraded, FeedRun, Missed, Peak, Concat, IsError, Sound, Replies;
    FeedAgrees(parser.Snap(), parser.log, pieces, parser.env);
    ghost var ahead;
    left, ahead := Feed(parser, pieces);
  }

  // ---------- any calls at all ----------

  /** What an application may do with a parser: give it a buffer, or nothing at the end, or end a pause. */
  datatype Call = Give(data: seq<byte>) | Resume

  /**
   Whatever the calls, however callbacks interrupt them and whether or not they end in an error, the callbacks make
   sense: chunks are announced, delivered in full and completed one at a time.
   */
  method Drive(parser: Parser, calls: seq<Call>)
    requires parser.Valid()
    modifies parser
    ensures parser.Valid() && HttpEvents.Balanced(parser.log)
  {
    hide Skim, Upgraded, HttpEvents.Balanced, Sound, HttpEvents.Orderly, Rank;
    for i := 0 to |calls|
      invariant parser.Valid()
    {
      match calls[i]
      case Give(data) =>
        if parser.errno != Ok || !Upgraded(parser.Snap(), parser.log) {
          var _ := parser.Execute(data);
        }
      case Resume =>
        if parser.errno == Paused {
          parser.Unpause();
        }
    }
    parser.InOrder();
    HttpEvents.OrderlyIsBalanced(parser.log);
  }

  // ---------- a byte that is missed ----------

  const SEEN_OR_NOT: seq<byte> := [98, 99, 1, 10]

  /** Four bytes of a header value, one of which has no place there: a strict parser accepts them, uncut. */
  lemma UncutIsAccepted(f: Fields, log: Log, env: Env)
    requires f.st.HeaderValueDiscardWs? && f.hs.General? && !Upgraded(f, log)
    ensures var o := FeedRun(f, log, [SEEN_OR_NOT], env).outcome;
            o.Stopped? && o.rest == [] && o.log == Emit(log, Data(FieldValue, [98, 99, 1]))
  {
    hide Skim, Upgraded, Emit;
    ValueStarts(f, log, SEEN_OR_NOT, env);
    var g, log1 := f.(st := HeaderValue, index := 0, seen := More(f.seen, 1)), Emit(log, Data(FieldValue, [98]));
    assert SEEN_OR_NOT[1..] == [99, 1, 10];
    DataIsNoExit(g, log, FieldValue, [98]);
    ValueSkipped(g, log1, env);
    EmitMerges(log, FieldValue, [98], [99, 1]);
    assert [98] + [99, 1] == [98, 99, 1];
    OnePiece(f, log, SEEN_OR_NOT, env);
  }

  lemma ValueStarts(f: Fields, log: Log, input: seq<byte>, env: Env)
    requires f.st.HeaderValueDiscardWs? && f.hs.General? && !Upgraded(f, log) && input != [] && input[0] == 98
    ensures var g := f.(st := HeaderValue, index := 0, seen := More(f.seen, 1));
            Skim(f, log, input, env).outcome == Skim(g, Emit(log, Data(FieldValue, [98])), input[1..], env).outcome
  {
    assert MoveOf(f, 98, env) == Note(HeaderValue, Data(FieldValue, [98]));
    assert After(f, 98, env) == f.(st := HeaderValue, index := 0, seen := More(f.seen, 1));
    hide MoveOf, EffectOf, After, Upgraded;
  }

  lemma ValueSkipped(f: Fields, log: Log, env: Env)
    requires InGeneralValue(f) && !Upgraded(f, log)
    ensures var o := Skim(f, log, [99, 1, 10], env).outcome;
            o.Stopped? && o.rest == [] && o.log == Emit(log, Data(FieldValue, [99, 1]))
  {
    var input: seq<byte> := [99, 1, 10];
    assert Skippable(input[0]) && Skippable(input[1]) && !Skippable(input[2]);
    assert ToEnd(input) == 2 && Skims(f, 99, env);
    assert input[2..] == [10] && input[..2] == [99, 1];
    var g, log1 := f.(seen := More(f.seen, 2)), Emit(log, Data(FieldValue, [99, 1]));
    DataIsNoExit(g, log, FieldValue, [99, 1]);
    ValueEnds(g, log1, env);
    hide Upgraded, Emit;
    EmitMerges(log, FieldValue, [99, 1], []);
    assert [99, 1] + [] == [99, 1];
  }

  lemma ValueEnds(f: Fields, log: Log, env: Env)
    requires InGeneralValue(f) && !Upgraded(f, log)
    ensures var o := Skim(f, log, [10], env).outcome;
            o.Stopped? && o.rest == [] && o.log == Emit(log, Data(FieldValue, []))
  {
    var g, log1 := f.(st := HeaderAlmostDone), Emit(log, Data(FieldValue, []));
    assert MoveOf(f, 10, env) == NoteAgain(HeaderAlmostDone, Data(FieldValue, [])) && After(f, 10, env) == g;
    assert MoveOf(g, 10, env) == To(HeaderValueLws) && !Skims(f, 10, env) && !Skims(g, 10, env);
    hide MoveOf, EffectOf, After, Upgraded;
    DataIsNoExit(g, log, FieldValue, []);
    DataIsNoExit(f, log, FieldValue, []);
    assert [10][1..] == [];
    assert Skim(After(g, 10, env), log1, [], env).outcome == Stopped(After(g, 10, env), log1, []);
    assert Skim(g, log1, [10], env).outcome == Stopped(After(g, 10, env), log1, []);
  }

  /** The same bytes in two buffers are refused. */
  lemma CutIsRefused(f: Fields, log: Log, env: Env)
    requires !env.lenient && f.st.HeaderValueDiscardWs? && f.hs.General? && !Upgraded(f, log)
    ensures var r := FeedRun(f, log, [SEEN_OR_NOT[..2], SEEN_OR_NOT[2..]], env).outcome;
            r.Failed? && r.errno == InvalidHeaderToken && r.rest == [1, 10]
  {
    hide Skim, Upgraded, Emit;
    var pieces: seq<seq<byte>> := [[98, 99], [1, 10]];
    assert SEEN_OR_NOT[..2] == pieces[0] && SEEN_OR_NOT[2..] == pieces[1];
    var g, log1 := f.(st := HeaderValue, index := 0, seen := More(f.seen, 1)), Emit(log, Data(FieldValue, [98]));
    ValueStarts(f, log, pieces[0], env);
    DataIsNoExit(g, log, FieldValue, [98]);
    assert pieces[0][1..] == [99];
    FirstCut(g, log1, env);
    var h, log2 := g.(seen := More(g.seen, 1)), Emit(log1, Data(FieldValue, [99]));
    DataIsNoExit(h, log1, FieldValue, [99]);
    SecondCut(h, log2, env);
    assert pieces[1..] == [pieces[1]] && pieces[1..][1..] == [];
    assert pieces[1] + [] == pieces[1];
  }

  lemma FirstCut(f: Fields, log: Log, env: Env)
    requires InGeneralValue(f) && !Upgraded(f, log)
    ensures var g, log1 := f.(seen := More(f.seen, 1)), Emit(log, Data(FieldValue, [99]));
            Skim(f, log, [99], env).outcome == Stopped(g, log1, [])
  {
    var g, log1 := f.(seen := More(f.seen, 1)), Emit(log, Data(FieldValue, [99]));
    assert ToEnd([99]) == 1 && Skims(f, 99, env) && [99][1..] == [] && [99][..1] == [99];
    assert Skim(g, log1, [], env) == Reading(Stopped(g, log1, []), g.seen.now);
    hide Upgraded, Emit, Skims;
  }

  lemma SecondCut(f: Fields, log: Log, env: Env)
    requires !env.lenient && InGeneralValue(f) && !Upgraded(f, log)
    ensures Skim(f, log, [1, 10], env).outcome == Failed(log, [1, 10], InvalidHeaderToken)
  {
    GeneralValueMove(f, 1, env);
    assert !Skims(f, 1, env);
    hide MoveOf, EffectOf, Upgraded, Skims;
  }

  // ---------- the way there ----------

  /** `GET /`, a line feed, `A` */
  const TO_NAME: seq<byte> := [71, 69, 84, 32, 47, 10, 65]

  const TO_VALUE: seq<byte> := TO_NAME + [58]

  /** One byte that is used up where no other protocol has been asked for. */
  lemma NextByte(f: Fields, log: Log, input: seq<byte>, env: Env)
    requires input != [] && !f.upgrade && MoveOf(f, input[0], env).Go? && MoveOf(f, input[0], env).consumed
    ensures Run(f, log, input, env)
            == Run(After(f, input[0], env), Noted(log, MoveOf(f, input[0], env).note), input[1..], env)
  {
    hide MoveOf, EffectOf, After;
  }

  lemma MethodByte(f: Fields, c: byte, env: Env)
    requires f.st.ReqMethod? && f.line.verb.GET? && 1 <= f.index <= 3 && c == [71, 69, 84, 32][f.index]
    ensures MoveOf(f, c, env) == To(if f.index == 3 then ReqSpacesBeforeUrl else ReqMethod)
    ensures var g := After(f, c, env);
            g.line.verb.GET? && g.index == f.index + 1 && g.upgrade == f.upgrade
  {
    assert MethodAfter(GET, f.index, c) == Some(GET);
    hide MethodAfter;
  }

  lemma FirstLetter(f: Fields, env: Env)
    requires f.st.StartReq?
    ensures MoveOf(f, 71, env) == Note(ReqMethod, MessageBegin)
    ensures var g := After(f, 71, env); g.line.verb.GET? && g.index == 1 && g.upgrade == f.upgrade
  {
  }

  lemma UrlBytes(f: Fields, env: Env)
    requires f.st.ReqSpacesBeforeUrl? && f.line.verb.GET? && !f.upgrade
    ensures MoveOf(f, 47, env) == Note(ReqPath, Data(Url, [47]))
    ensures var g := After(f, 47, env);
            !g.upgrade && MoveOf(g, 10, env) == Note(HeaderFieldStart, Data(Url, [])) && !After(g, 10, env).upgrade
  {
    assert UrlState(ReqSpacesBeforeUrl, 47) == ReqPath;
    hide UrlState;
  }

  lemma NameStarts(f: Fields, env: Env)
    requires f.st.HeaderFieldStart? && !f.upgrade
    ensures MoveOf(f, 65, env) == Note(HeaderField, Data(FieldName, [65]))
    ensures var g := After(f, 65, env); g.st.HeaderField? && g.hs.General? && !g.upgrade
  {
  }

  lemma NameEnds(f: Fields, env: Env)
    requires f.st.HeaderField? && f.hs.General? && !f.upgrade
    ensures MoveOf(f, 58, env) == Note(HeaderValueDiscardWs, Data(FieldName, []))
    ensures var g := After(f, 58, env); g.st.HeaderValueDiscardWs? && g.hs.General? && !g.upgrade
  {
  }

  const LOG_TO_VALUE: Log := [MessageBegin, Data(Url, [47]), Data(FieldName, [65])]

  /** A new parser of requests comes to a header value of no interest. */
  lemma ValueIsReached(f: Fields, env: Env)
    requires f.st.StartReq? && !f.upgrade
    ensures var o := Run(f, [], TO_VALUE, env);
            && o.Stopped? && o.rest == [] && o.log == LOG_TO_VALUE
            && o.f.st.HeaderValueDiscardWs? && o.f.hs.General? && !o.f.upgrade
  {
    LaterNotes();
    hide Run, MoveOf, EffectOf, Emit;
    NameIsReached(f, env);
    RunSplit(f, [], TO_NAME, [58], env);
    var o := Run(f, [], TO_NAME, env);
    NameEnds(o.f, env);
    assert o.rest + [58] == [58] && [58][1..] == [];
    NextByte(o.f, o.log, [58], env);
    RunStops(After(o.f, 58, env), Noted(o.log, MoveOf(o.f, 58, env).note), [], env);
  }

  /** A new parser of requests comes to a header name of no interest. */
  lemma NameIsReached(f: Fields, env: Env)
    requires f.st.StartReq? && !f.upgrade
    ensures var o := Run(f, [], TO_NAME, env);
            && o.Stopped? && o.rest == [] && o.log == LOG_TO_VALUE
            && o.f.st.HeaderField? && o.f.hs.General? && !o.f.upgrade
  {
    hide Run, MoveOf, EffectOf, Noted;
    var s := TO_NAME;
    FirstLetter(f, env);
    NextByte(f, [], s, env);
    var f1, log1 := After(f, 71, env), Noted([], MoveOf(f, 71, env).note);
    MethodByte(f1, 69, env);
    NextByte(f1, log1, s[1..], env);
    var f2, log2 := After(f1, 69, env), Noted(log1, MoveOf(f1, 69, env).note);
    assert s[1..][1..] == s[2..];
    MethodByte(f2, 84, env);
    NextByte(f2, log2, s[2..], env);
    var f3, log3 := After(f2, 84, env), Noted(log2, MoveOf(f2, 84, env).note);
    assert s[2..][1..] == s[3..];
    MethodByte(f3, 32, env);
    NextByte(f3, log3, s[3..], env);
    var f4, log4 := After(f3, 32, env), Noted(log3, MoveOf(f3, 32, env).note);
    assert s[3..][1..] == [47, 10, 65];
    FirstNotes();
    NameIsNear(f4, log4, env);
  }

  lemma FirstNotes()
    ensures Noted([], Some(MessageBegin)) == [MessageBegin] && forall log: Log :: Noted(log, None) == log
  {
  }

  lemma LaterNotes()
    ensures var log1 := [MessageBegin, Data(Url, [47])];
            && Emit([MessageBegin], Data(Url, [47])) == log1 && Emit(log1, Data(Url, [])) == log1
            && Emit(log1, Data(FieldName, [65])) == LOG_TO_VALUE
            && Emit(LOG_TO_VALUE, Data(FieldName, [])) == LOG_TO_VALUE
  {
    var log1: Log := [MessageBegin, Data(Url, [47])];
    EmitNothing(log1, Url);
    EmitNothing(LOG_TO_VALUE, FieldName);
    assert log1 + [Data(FieldName, [65])] == LOG_TO_VALUE;
  }

  lemma NameIsNear(f: Fields, log: Log, env: Env)
    requires f.st.ReqSpacesBeforeUrl? && f.line.verb.GET? && !f.upgrade && log == [MessageBegin]
    ensures var o := Run(f, log, [47, 10, 65], env);
            && o.Stopped? && o.rest == [] && o.log == LOG_TO_VALUE
            && o.f.st.HeaderField? && o.f.hs.General? && !o.f.upgrade
  {
    LaterNotes();
    hide Run, MoveOf, EffectOf, Emit;
    var s: seq<byte> := [47, 10, 65];
    UrlBytes(f, env);
    NextByte(f, log, s, env);
    var f1, log1 := After(f, 47, env), Noted(log, MoveOf(f, 47, env).note);
    NextByte(f1, log1, s[1..], env);
    var f2, log2 := After(f1, 10, env), Noted(log1, MoveOf(f1, 10, env).note);
    assert s[1..][1..] == s[2..];
    NameStarts(f2, env);
    NextByte(f2, log2, s[2..], env);
    assert s[2..][1..] == [];
    RunStops(After(f2, 65, env), Noted(log2, MoveOf(f2, 65, env).note), [], env);
  }

  lemma BothCuts(f: Fields, env: Env)
    requires !env.lenient && f.st.StartReq? && !f.upgrade
    ensures var o := FeedRun(f, [], [TO_VALUE, SEEN_OR_NOT], env).outcome;
            o.Stopped? && o.rest == [] && o.log == LOG_TO_VALUE + [Data(FieldValue, [98, 99, 1])]
    ensures var r := FeedRun(f, [], [TO_VALUE, SEEN_OR_NOT[..2], SEEN_OR_NOT[2..]], env).outcome;
            r.Failed? && r.errno == InvalidHeaderToken && r.rest == [1, 10]
  {
    var o := Run(f, [], TO_VALUE, env);
    ValueIsReached(f, env);
    assert AllFit(TO_VALUE, env);
    FitBytesAgree(f, [], TO_VALUE, env);
    SkimAgrees(f, [], TO_VALUE, env);
    UncutIsAccepted(o.f, o.log, env);
    CutIsRefused(o.f, o.log, env);
    var uncut, twice := [TO_VALUE, SEEN_OR_NOT], [TO_VALUE, SEEN_OR_NOT[..2], SEEN_OR_NOT[2..]];
    assert uncut[1..] == [SEEN_OR_NOT] && twice[1..] == [SEEN_OR_NOT[..2], SEEN_OR_NOT[2..]];
    hide Run, Skim, Misses;
  }

  /** An application that never interrupts the parser. */
  ghost predicate Patient(reply: nat -> Reply) { forall n :: reply(n) == Continue }

  lemma {:induction false} PatientReplies(reply: nat -> Reply, n: nat)
    requires Patient(reply)
    ensures Replies(reply, n, Pause) == Replies(reply, n, Reply.Refuse) == 0
  {
    if 0 < n {
      PatientReplies(reply, n - 1);
    }
  }

  /** The peak of a stream is no more than it has bytes. */
  lemma {:induction false} FeedPeakIsBounded(f: Fields, log: Log, pieces: seq<seq<byte>>, env: Env)
    ensures FeedRun(f, log, pieces, env).peak <= f.seen.now + |Concat(pieces)|
    decreases |pieces|
  {
    if pieces != [] {
      hide Skim, Upgraded;
      PeakIsBounded(f, log, pieces[0], env);
      var o := Skim(f, log, pieces[0], env).outcome;
      if o.Stopped? && !Upgraded(o.f, o.log) {
        FeedPeakIsBounded(o.f, o.log, pieces[1..], env);
      }
    }
  }

  lemma FewBytes(f: Fields, env: Env)
    requires f.seen.now == 0
    ensures FeedRun(f, [], [TO_VALUE, SEEN_OR_NOT], env).peak <= 12
    ensures FeedRun(f, [], [TO_VALUE, SEEN_OR_NOT[..2], SEEN_OR_NOT[2..]], env).peak <= 12
  {
    var uncut, twice := [TO_VALUE, SEEN_OR_NOT], [TO_VALUE, SEEN_OR_NOT[..2], SEEN_OR_NOT[2..]];
    FeedPeakIsBounded(f, [], uncut, env);
    FeedPeakIsBounded(f, [], twice, env);
    hide FeedRun;
    var none: seq<seq<byte>> := [];
    assert uncut[1..] == [SEEN_OR_NOT] && uncut[1..][1..] == none;
    assert twice[1..] == [SEEN_OR_NOT[..2], SEEN_OR_NOT[2..]] && twice[1..][1..] == [SEEN_OR_NOT[2..]];
    assert |Concat(none)| == 0 && |Concat([SEEN_OR_NOT[2..]])| == 2 && |Concat(uncut[1..])| == 4;
    assert |Concat(twice[1..])| == 4 && |Concat(uncut)| == 12 && |Concat(twice)| == 12;
  }

  /** A new strict parser that is fed these bytes uncut accepts them, and tells the byte that has no place there. */
  method FeedUncut(env: Env, reply: nat -> Reply) returns (parser: Parser, left: seq<byte>)
    requires !env.lenient && Patient(reply)
    ensures fresh(parser) && parser.errno == Ok && left == []
    ensures parser.log == LOG_TO_VALUE + [Data(FieldValue, [98, 99, 1])]
  {
    parser := new Parser(Request, env, reply);
    BothCuts(parser.Snap(), env);
    FewBytes(parser.Snap(), env);
    ghost var ahead;
    hide Skim, Upgraded, FeedRun, Sound, Replies;
    left, ahead := Feed(parser, [TO_VALUE, SEEN_OR_NOT]);
    PatientReplies(reply, parser.told);
  }

  /** Fed the same bytes with a cut between them, it refuses that byte. */
  method FeedCut(env: Env, reply: nat -> Reply) returns (parser: Parser, left: seq<byte>)
    requires !env.lenient && Patient(reply)
    ensures fresh(parser) && parser.errno == InvalidHeaderToken && left == [1, 10]
  {
    parser := new Parser(Request, env, reply);
    BothCuts(parser.Snap(), env);
    FewBytes(parser.Snap(), env);
    ghost var ahead;
    hide Skim, Upgraded, FeedRun, Sound, Replies;
    left, ahead := Feed(parser, [TO_VALUE, SEEN_OR_NOT[..2], SEEN_OR_NOT[2..]]);
    PatientReplies(reply, parser.told);
  }
}
