/**
 Where the header size limit goes astray: a parser that is given a name byte by byte counts each byte twice, and one
 that is paused at the end of a value does not count the value at all.
 */
module HttpLimit {
  import opened Common
  import opened HttpTypes
  import opened HttpStep
  import opened HttpRun
  import opened HttpSkim
  import opened HttpMarks
  import opened HttpAhead
  import opened HttpParser
  import opened HttpFeed
  import HttpEvents

  function Letters(n: nat): (s: seq<byte>) { seq(n, _ => 65) }

  // ---------- counted twice ----------

  lemma NameGoesOn(f: Fields, log: Log, env: Env)
    requires f.st.HeaderField? && f.hs.General? && !Upgraded(f, log)
    ensures var o := Skim(f, log, [65], env).outcome;
            && o.Stopped? && o.rest == [] && o.f.st.HeaderField? && o.f.hs.General? && !Upgraded(o.f, o.log)
            && o.f.seen == More(f.seen, 1)
  {
    GeneralIsNoLength(f, 65);
    NameStep(f, 65, env);
    var g, log1 := After(f, 65, env), Emit(log, Data(FieldName, [65]));
    assert g.hs.General?;
    assert !Skims(f, 65, env) && [65][1..] == [];
    hide MoveOf, EffectOf, After, NameEffect, SecondLength, Upgraded, Emit;
    DataIsNoExit(g, log, FieldName, [65]);
    RunStops(g, log1, [], env);
  }

  /** One more byte of the name by itself. */
  method OneLetter(parser: Parser)
    requires parser.Valid() && parser.short && parser.errno == Ok && Patient(parser.reply)
    requires parser.st.HeaderField? && parser.hs.General? && !Upgraded(parser.Snap(), parser.log)
    modifies parser
    ensures parser.Valid() && parser.short
    ensures if MAX_HEADER_SIZE < old(parser.nread) + 2 then parser.errno == HeaderOverflow
            else && parser.errno == Ok && parser.nread == old(parser.nread) + 2
                 && parser.st.HeaderField? && parser.hs.General? && !Upgraded(parser.Snap(), parser.log)
                 && parser.seen == More(old(parser.seen), 1)
  {
    hide Skim, Upgraded, Rank, Sound, IsError, Passed, Replies;
    ghost var f, log := parser.Snap(), parser.log;
    NameGoesOn(f, log, parser.env);
    assert parser.NameAlone([65], 0);
    var n := parser.Execute([65]);
    PatientReplies(parser.reply, parser.told);
    if parser.errno == Ok {
      RunStops(parser.Snap(), parser.log, [65][n..], parser.env);
    }
  }

  /** A new parser, given what begins a request up to the first byte of a name. */
  method ToName(env: Env, reply: nat -> Reply) returns (parser: Parser)
    requires Patient(reply)
    ensures fresh(parser) && parser.Valid() && parser.short && parser.errno == Ok && parser.reply == reply
    ensures parser.st.HeaderField? && parser.hs.General? && !Upgraded(parser.Snap(), parser.log)
  {
    parser := new Parser(Request, env, reply);
    NameIsReached(parser.Snap(), env);
    assert AllFit(TO_NAME, env);
    FitBytesAgree(parser.Snap(), [], TO_NAME, env);
    SkimAgrees(parser.Snap(), [], TO_NAME, env);
    PeakIsBounded(parser.Snap(), [], TO_NAME, env);
    hide Skim, Run, FeedRun, Sound, Replies, Misses, Upgraded, AllFit;
    OnePiece(parser.Snap(), [], TO_NAME, env);
    var left := FeedPiece(parser, TO_NAME);
    PatientReplies(reply, parser.told);
    assert LOG_TO_VALUE[|LOG_TO_VALUE| - 1] == Data(FieldName, [65]);
    NoUpgradeYet(parser.Snap(), LOG_TO_VALUE);
  }

  lemma NoUpgradeYet(f: Fields, log: Log)
    requires !f.upgrade
    ensures !Upgraded(f, log)
  {
  }

  /**
   A parser of requests that is never interrupted refuses a header section of little more than half the limit, if the
   name of a header comes byte by byte.
   */
  method NameByBytes(env: Env, reply: nat -> Reply) returns (parser: Parser, given: seq<byte>)
    requires Patient(reply)
    ensures fresh(parser) && parser.errno == HeaderOverflow
    ensures |TO_NAME| <= |given| <= MAX_HEADER_SIZE / 2 + 8
    ensures given == TO_NAME + Letters(|given| - |TO_NAME|)
  {
    hide Skim, Upgraded, Sound, Replies, Patient;
    parser := ToName(env, reply);
    given := TO_NAME;
    while parser.errno == Ok
      invariant fresh(parser) && parser.Valid() && parser.short && parser.reply == reply
      invariant |TO_NAME| <= |given| && given == TO_NAME + Letters(|given| - |TO_NAME|)
      invariant if parser.errno == Ok
                then && 2 * (|given| - |TO_NAME|) <= parser.nread <= MAX_HEADER_SIZE
                     && parser.st.HeaderField? && parser.hs.General? && !Upgraded(parser.Snap(), parser.log)
                else parser.errno == HeaderOverflow && |given| <= MAX_HEADER_SIZE / 2 + 8
      decreases parser.errno == Ok, MAX_HEADER_SIZE - parser.nread
    {
      OneLetter(parser);
      given := given + [65];
    }
  }

  // ---------- not counted ----------

  /** A value of no interest, and its CR. */
  lemma ValueToCr(f: Fields, log: Log, n: nat, env: Env)
    requires InGeneralValue(f) && !Upgraded(f, log) && 0 < n
    ensures var o := Skim(f, log, Letters(n) + [13], env).outcome;
            o.Stopped? && o.rest == [] && o.f.seen == More(f.seen, n + 1)
  {
    var input := Letters(n) + [13];
    assert !Skippable(input[n]) && forall i :: 0 <= i < n ==> Skippable(input[i]);
    assert Skims(f, 65, env) && input[n..] == [13] && input[..n] == Letters(n);
    var g, log1 := f.(seen := More(f.seen, n)), Emit(log, Data(FieldValue, Letters(n)));
    DataIsNoExit(g, log, FieldValue, Letters(n));
    CrEnds(g, log1, env);
    hide Upgraded, Emit, ToEnd, Skims;
  }

  lemma CrEnds(f: Fields, log: Log, env: Env)
    requires InGeneralValue(f) && !Upgraded(f, log)
    ensures var o := Skim(f, log, [13], env).outcome; o.Stopped? && o.rest == [] && o.f.seen == More(f.seen, 1)
  {
    var g, log1 := After(f, 13, env), Emit(log, Data(FieldValue, []));
    assert MoveOf(f, 13, env) == Note(HeaderAlmostDone, Data(FieldValue, [])) && g.seen == More(f.seen, 1);
    assert !Skims(f, 13, env) && [13][1..] == [];
    hide MoveOf, EffectOf, After, Upgraded, Emit;
    DataIsNoExit(g, log, FieldValue, []);
    RunStops(g, log1, [], env);
  }

  /** An application that pauses whenever it is told of anything. */
  ghost predicate Pausing(reply: nat -> Reply) { forall n :: reply(n) == Pause }

  lemma {:induction false} PausingFailsNot(reply: nat -> Reply, n: nat)
    requires Pausing(reply)
    ensures Replies(reply, n, Reply.Refuse) == 0
  {
    if 0 < n {
      PausingFailsNot(reply, n - 1);
    }
  }

  /** A new parser, given what begins a request up to a header value. */
  method ToValue(env: Env, reply: nat -> Reply) returns (parser: Parser)
    requires Pausing(reply)
    ensures fresh(parser) && parser.Valid() && parser.short && parser.errno == Ok && parser.reply == reply
    ensures parser.st.HeaderValueDiscardWs? && parser.hs.General? && !Upgraded(parser.Snap(), parser.log)
    ensures parser.seen.now <= 8 && parser.calls <= 53
  {
    parser := new Parser(Request, env, reply);
    ValueIsReached(parser.Snap(), env);
    assert AllFit(TO_VALUE, env);
    FitBytesAgree(parser.Snap(), [], TO_VALUE, env);
    SkimAgrees(parser.Snap(), [], TO_VALUE, env);
    PeakIsBounded(parser.Snap(), [], TO_VALUE, env);
    hide Skim, Run, FeedRun, Sound, Replies, Misses, Upgraded, AllFit;
    OnePiece(parser.Snap(), [], TO_VALUE, env);
    PausingFailsNot(reply, parser.told);
    var left := FeedPiece(parser, TO_VALUE);
    PausingFailsNot(reply, parser.told);
    NoUpgradeYet(parser.Snap(), parser.log);
  }

  /** The first byte of the value. */
  method IntoValue(parser: Parser)
    requires parser.Valid() && parser.short && parser.errno == Ok && Pausing(parser.reply)
    requires parser.st.HeaderValueDiscardWs? && parser.hs.General? && !Upgraded(parser.Snap(), parser.log)
    requires parser.seen.now + parser.calls <= 100
    modifies parser
    ensures parser.Valid() && parser.short && parser.errno == Ok
    ensures InGeneralValue(parser.Snap()) && !Upgraded(parser.Snap(), parser.log)
    ensures parser.seen == More(old(parser.seen), 1) && parser.calls <= old(parser.calls) + 11
  {
    hide Skim, FeedRun, Sound, Replies, Upgraded;
    ghost var f, log := parser.Snap(), parser.log;
    ValueStarts(f, log, [98], parser.env);
    PeakIsBounded(f, log, [98], parser.env);
    ghost var g, log1 := f.(st := HeaderValue, index := 0, seen := More(f.seen, 1)), Emit(log, Data(FieldValue, [98]));
    DataIsNoExit(g, log, FieldValue, [98]);
    RunStops(g, log1, [], parser.env);
    assert [98][1..] == [];
    OnePiece(f, log, [98], parser.env);
    PausingFailsNot(parser.reply, parser.told);
    var left := FeedPiece(parser, [98]);
    PausingFailsNot(parser.reply, parser.told);
  }

  /**
   A parser of requests that is paused at the end of a value goes on with a header section over the limit, of which it
   has counted no more than a hundred or so bytes.
   */
  method ValueNotCounted(env: Env, reply: nat -> Reply) returns (parser: Parser)
    requires Pausing(reply)
    ensures fresh(parser) && parser.Valid() && parser.errno == Ok
    ensures MAX_HEADER_SIZE < parser.seen.now && parser.nread <= 100
  {
    hide Skim, FeedRun, Sound, Replies, Upgraded;
    parser := ToValue(env, reply);
    IntoValue(parser);
    ghost var f, log := parser.Snap(), parser.log;
    var data := Letters(MAX_HEADER_SIZE - 1) + [13];
    ValueToCr(f, log, MAX_HEADER_SIZE - 1, parser.env);
    assert parser.ValuePaused(data, 0);
    var n := parser.Execute(data);
    RunStops(parser.Snap(), parser.log, data[n..], parser.env);
    parser.Unpause();
  }
}
