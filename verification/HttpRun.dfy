/**
 Whole runs of the byte-at-a-time parser: the meaning `http_parser_execute` must have,
 however its input is cut into buffers and wherever its callbacks pause.
 */
module HttpRun {
  import opened Common
  import opened HttpTypes
  import opened HttpStep

  /** `Stopped`: all input used, or the rest left to another protocol. `Failed`: a parse error at the head of `rest`. */
  datatype Outcome = Stopped(f: Fields, log: Log, rest: seq<byte>) | Failed(log: Log, rest: seq<byte>, errno: Errno)

  /** The message just completed asked for another protocol: the parser exits here. */
  predicate Upgraded(f: Fields, log: Log) {
    f.upgrade && log != [] && log[|log| - 1] == MessageComplete
  }

  function Noted(log: Log, note: Option<Event>): (r: Log) {
    if note.Some? then Emit(log, note.value) else log
  }

  /** This byte belongs to a start line, a header section or a chunk header. */
  predicate Counts(f: Fields) { ParsingHeader(f.st) || (f.st.MessageDone? && f.flags.trailing) }

  /** The states that start the count of header bytes afresh. */
  predicate Resets(st: State) { st.HeadersDone? || st.ChunkSizeAlmostDone? || st.ChunkDataDone? }

  function SeenAfter(f: Fields, consumed: bool): (r: Bytes) {
    if Resets(f.st) then f.seen.(now := 0) else if consumed && Counts(f) then More(f.seen, 1) else f.seen
  }

  /** The fields after a turn that does not fail. */
  function After(f: Fields, c: byte, env: Env): (r: Fields)
    requires MoveOf(f, c, env).Go?
  {
    EffectOf(f, c, env).(st := MoveOf(f, c, env).st, seen := SeenAfter(f, MoveOf(f, c, env).consumed))
  }

  function Run(f: Fields, log: Log, input: seq<byte>, env: Env): (r: Outcome)
    decreases |input|, Rank(f.st)
  {
    if input == [] || Upgraded(f, log) then Stopped(f, log, input)
    else
      var m := MoveOf(f, input[0], env);
      if m.Fail? then Failed(log, input, m.errno)
      else if m.consumed then Run(After(f, input[0], env), Noted(log, m.note), input[1..], env)
      else
        MoveMakesProgress(f, input[0], env);
        Run(After(f, input[0], env), Noted(log, m.note), input, env)
  }

  /** Running on `a` and then on `b` is running on `a + b`. */
  lemma {:induction false} RunSplit(f: Fields, log: Log, a: seq<byte>, b: seq<byte>, env: Env)
    ensures var o := Run(f, log, a, env);
            Run(f, log, a + b, env) ==
            if o.Failed? then Failed(o.log, o.rest + b, o.errno) else Run(o.f, o.log, o.rest + b, env)
    decreases |a|, Rank(f.st)
  {
    if a == [] || Upgraded(f, log) {
      assert a + b == if a == [] then b else a + b;
    } else {
      assert (a + b)[0] == a[0] && (a + b)[1..] == a[1..] + b;
      var m := MoveOf(f, a[0], env);
      if m.Go? {
        if m.consumed {
          RunSplit(After(f, a[0], env), Noted(log, m.note), a[1..], b, env);
        } else {
          MoveMakesProgress(f, a[0], env);
          RunSplit(After(f, a[0], env), Noted(log, m.note), a, b, env);
        }
      }
    }
  }

  // ---------- invariants of every run ----------

  predicate InChunk(st: State) { PartOf(st) == ChunkPart }

  /** The header states that `s_header_field` knows. */
  predicate NameState(hs: HeaderState) {
    || hs.General? || hs.SeenC? || hs.SeenCO? || hs.SeenCON? || hs.MatchingConnection? || hs.MatchingProxyConnection?
    || hs.MatchingContentLength? || hs.MatchingTransferEncoding? || hs.MatchingUpgrade?
    || hs.Connection? || hs.ContentLength? || hs.TransferEncoding? || hs.Upgrade?
  }

  /** The length the state relies on. */
  predicate LengthOk(st: State, hs: HeaderState, n: uint64) {
    && (st.ChunkSize? || st.ChunkParameters? || st.ChunkSizeAlmostDone? ==> n < MAX64)
    && (st.ChunkData? || st.BodyIdentity? ==> 0 < n < MAX64)
    && (st.ChunkDataAlmostDone? ==> n == 0)
    && (st.HeaderValue? && hs.ContentLength? ==> n < MAX64)
  }

  /** The header state the state relies on. */
  predicate HeaderStateOk(st: State, hs: HeaderState) {
    && (st.HeaderField? ==> NameState(hs))
    && (st.HeaderValue? ==> !hs.Connection? && !hs.TransferEncoding?)
  }

  /** What the parser's assertions rely on. */
  predicate FieldsOk(f: Fields) {
    && f.index < 128
    && (InChunk(f.st) || f.flags.trailing ==> f.flags.chunked)
    && LengthOk(f.st, f.hs, f.contentLength)
    && HeaderStateOk(f.st, f.hs)
    && (f.st.BodyIdentity? ==> !f.flags.chunked)
  }

  lemma SeenIsFree(f: Fields, n: Bytes)
    requires FieldsOk(f)
    ensures FieldsOk(f.(seen := n))
  {
  }

  /** A state up to the end of the start line, or the one just after it. */
  predicate BeforeHeaders(st: State) {
    st.HeaderFieldStart? || PartOf(st).StartPart? || PartOf(st).ResponseLinePart? || PartOf(st).RequestLinePart?
  }

  lemma StartStaysEarly(st: State, c: byte)
    requires PartOf(st).StartPart? && StartMove(st, c).Go?
    ensures BeforeHeaders(StartMove(st, c).st)
  {
  }

  lemma ResponseLineStaysEarly(st: State, l: Line, c: byte)
    requires PartOf(st).ResponseLinePart? && ResponseLineMove(st, l, c).Go?
    ensures BeforeHeaders(ResponseLineMove(st, l, c).st)
  {
  }

  lemma RequestLineStaysEarly(st: State, index: nat, l: Line, c: byte)
    requires PartOf(st).RequestLinePart? && RequestLineMove(st, index, l, c).Go?
    ensures BeforeHeaders(RequestLineMove(st, index, l, c).st)
  {
  }

  /** A state that relies on nothing but the index and the trailing flag. */
  predicate Plain(st: State) { !InChunk(st) && !st.BodyIdentity? && !st.HeaderField? && !st.HeaderValue? }

  lemma PlainIsOk(f: Fields)
    requires Plain(f.st) && f.index < 128 && (f.flags.trailing ==> f.flags.chunked)
    ensures FieldsOk(f)
  {
  }

  lemma LineKeepsFieldsOk(f: Fields, c: byte, st: State)
    requires FieldsOk(f) && BeforeHeaders(f.st) && BeforeHeaders(st)
    ensures FieldsOk(LineEffect(f, c).(st := st))
  {
    assert LineIndexAfter(f, c) < 128;
    PlainIsOk(LineEffect(f, c).(st := st));
  }

  lemma NameKeepsFieldsOk(f: Fields, c: byte)
    requires FieldsOk(f) && f.st == HeaderField
    ensures FieldsOk(NameEffect(f, c))
  {
  }

  lemma ValueStartKeepsFieldsOk(f: Fields, c: byte)
    requires FieldsOk(f) && (f.hs == ContentLength ==> IsNum(c)) && PartOf(f.st) == HeaderPart
    ensures FieldsOk(ValueStartEffect(f, c).(st := HeaderValue))
  {
  }

  lemma ValueKeepsFieldsOk(f: Fields, c: byte)
    requires FieldsOk(f) && f.st == HeaderValue
    ensures FieldsOk(ValueEffect(f, c))
  {
    var m := ValueMatch(Matcher(f.hs, f.index), c);
    assert m.index < 128;
    assert !m.hs.Connection? && !m.hs.TransferEncoding?;
    assert m.hs.ContentLength? ==> f.hs.ContentLength?;
  }

  lemma HeaderMoveStates(f: Fields, c: byte, env: Env)
    requires PartOf(f.st) == HeaderPart && HeaderMove(f, c, env).Go?
    ensures var st := HeaderMove(f, c, env).st;
            && (PartOf(st) == HeaderPart || st == HeadersAlmostDone)
            && (st.HeaderValue? && !f.st.HeaderValue? ==> f.hs == ContentLength ==> IsNum(c))
            && (st.HeaderField? ==> f.st.HeaderField? || f.st.HeaderFieldStart?)
            && (st.HeaderField? ==> TokenOf(c) != 0 && (f.st.HeaderField? ==> c != ':' as int))
            && (st.HeaderValue? ==> f.st.HeaderValue? || f.st.HeaderValueStart? || f.st.HeaderValueDiscardWs?)
            && (st.HeaderValue? ==> (c != CR && c != LF) || f.st.HeaderValueStart?)
            && (st.HeaderValue? && f.st.HeaderValueDiscardWs? ==> c != SP && c != TAB)
  {
  }

  predicate Keeps(f: Fields, g: Fields) {
    g.index < 128 && g.flags.trailing == f.flags.trailing && (f.flags.chunked ==> g.flags.chunked)
  }

  lemma NameEffectKeeps(f: Fields, c: byte)
    requires f.index < 128
    ensures Keeps(f, NameEffect(f, c))
  {
  }

  lemma ValueEffectKeeps(f: Fields, c: byte)
    requires f.index < 128
    ensures Keeps(f, ValueEffect(f, c)) && Keeps(f, ValueStartEffect(f, c))
  {
  }

  lemma SettledKeeps(f: Fields)
    requires f.index < 128
    ensures Keeps(f, f.(flags := Settled(f.hs, f.flags)))
  {
  }

  lemma HeaderEffectKeeps(f: Fields, c: byte)
    requires f.index < 128
    ensures Keeps(f, HeaderEffect(f, c))
  {
    var g := HeaderEffect(f, c);
    NameEffectKeeps(f, c);
    ValueEffectKeeps(f, c);
    SettledKeeps(f);
    assert || g == f || g == NameEffect(f, c) || g == ValueEffect(f, c) || g == ValueStartEffect(f, c)
           || g == f.(flags := Settled(f.hs, f.flags)) || g == f.(index := 0, hs := FirstHeaderState(TokenOf(c)));
  }

  lemma HeaderKeepsFieldsOk(f: Fields, c: byte, env: Env)
    requires FieldsOk(f) && PartOf(f.st) == HeaderPart && HeaderMove(f, c, env).Go?
    ensures FieldsOk(HeaderEffect(f, c).(st := HeaderMove(f, c, env).st))
  {
    var m := HeaderMove(f, c, env);
    HeaderMoveStates(f, c, env);
    if m.st.HeaderField? && f.st.HeaderField? {
      NameKeepsFieldsOk(f, c);
    } else if m.st.HeaderValue? && f.st.HeaderValue? {
      ValueKeepsFieldsOk(f, c);
    } else if m.st.HeaderValue? {
      ValueStartKeepsFieldsOk(f, c);
    } else if m.st.HeaderField? {
      assert NameState(FirstHeaderState(TokenOf(c)));
    } else {
      var g := HeaderEffect(f, c);
      HeaderEffectKeeps(f, c);
      PlainIsOk(g.(st := m.st));
    }
  }

  lemma EndKeepsFieldsOk(f: Fields, c: byte, env: Env)
    requires FieldsOk(f) && PartOf(f.st) == HeadersEndPart && HeadersEndMove(f, c).Go?
    ensures FieldsOk(HeadersEffect(f, env).(st := HeadersEndMove(f, c).st))
  {
  }

  lemma BodyKeepsFieldsOk(f: Fields, c: byte)
    requires FieldsOk(f) && PartOf(f.st) == BodyPart && BodyMove(f, c).Go?
    ensures FieldsOk(BodyEffect(f).(st := BodyMove(f, c).st))
  {
  }

  lemma ChunkKeepsFieldsOk(f: Fields, c: byte)
    requires FieldsOk(f) && PartOf(f.st) == ChunkPart && ChunkMove(f, c).Go?
    ensures FieldsOk(ChunkEffect(f, c).(st := ChunkMove(f, c).st))
  {
  }

  /** Every turn keeps what the assertions rely on. */
  lemma TurnKeepsFieldsOk(f: Fields, c: byte, env: Env)
    requires FieldsOk(f) && MoveOf(f, c, env).Go?
    ensures FieldsOk(After(f, c, env))
  {
    TurnKeepsEffectOk(f, c, env);
    SeenIsFree(EffectOf(f, c, env).(st := MoveOf(f, c, env).st), SeenAfter(f, MoveOf(f, c, env).consumed));
  }

  lemma TurnKeepsEffectOk(f: Fields, c: byte, env: Env)
    requires FieldsOk(f) && MoveOf(f, c, env).Go?
    ensures FieldsOk(EffectOf(f, c, env).(st := MoveOf(f, c, env).st))
  {
    match PartOf(f.st)
    case StartPart =>
      StartStaysEarly(f.st, c);
      LineKeepsFieldsOk(f, c, MoveOf(f, c, env).st);
    case ResponseLinePart =>
      ResponseLineStaysEarly(f.st, f.line, c);
      LineKeepsFieldsOk(f, c, MoveOf(f, c, env).st);
    case RequestLinePart =>
      RequestLineStaysEarly(f.st, f.index, f.line, c);
      LineKeepsFieldsOk(f, c, MoveOf(f, c, env).st);
    case HeaderPart => HeaderKeepsFieldsOk(f, c, env);
    case HeadersEndPart => EndKeepsFieldsOk(f, c, env);
    case ChunkPart => ChunkKeepsFieldsOk(f, c);
    case BodyPart => BodyKeepsFieldsOk(f, c);
  }

  lemma {:induction false} RunKeepsFieldsOk(f: Fields, log: Log, input: seq<byte>, env: Env)
    requires FieldsOk(f)
    ensures var o := Run(f, log, input, env); o.Stopped? ==> FieldsOk(o.f)
    decreases |input|, Rank(f.st)
  {
    if input != [] && !Upgraded(f, log) {
      var m := MoveOf(f, input[0], env);
      if m.Go? {
        TurnKeepsFieldsOk(f, input[0], env);
        if m.consumed {
          RunKeepsFieldsOk(After(f, input[0], env), Noted(log, m.note), input[1..], env);
        } else {
          MoveMakesProgress(f, input[0], env);
          RunKeepsFieldsOk(After(f, input[0], env), Noted(log, m.note), input, env);
        }
      }
    }
  }
}
