/**
 What is still to come at position `p` of the buffer `data`; how it moves over one byte and over the runs of bytes
 that `http_parser_execute` takes in one go.
 */
module HttpAhead {
  import opened Common
  import opened HttpTypes
  import opened HttpStep
  import opened HttpRun
  import opened HttpSkim
  import opened HttpMarks
  import HttpEvents

  ghost function Ahead(f: Fields, log: Log, data: seq<byte>, p: nat, env: Env): (r: Reading)
    requires p <= |data|
  {
    Skim(f, log, data[p..], env)
  }

  /** The reading from here comes to what the whole buffer comes to, and has no higher peak. */
  predicate Leads(now: Reading, target: Reading) { now.outcome == target.outcome && now.peak <= target.peak }

  lemma AheadTurn(f: Fields, log: Log, data: seq<byte>, p: nat, env: Env)
    requires p < |data| && !Upgraded(f, log) && !Skims(f, data[p], env)
    ensures var m := MoveOf(f, data[p], env);
            if m.Fail? then Ahead(f, log, data, p, env).outcome == Failed(log, data[p..], m.errno)
            else Leads(Ahead(After(f, data[p], env), Noted(log, m.note), data, if m.consumed then p + 1 else p, env),
                       Ahead(f, log, data, p, env))
  {
    assert data[p..][1..] == data[p + 1..];
    if MoveOf(f, data[p], env).Go? && !MoveOf(f, data[p], env).consumed {
      MoveMakesProgress(f, data[p], env);
    }
  }

  /** No byte that is refused is skimmed from. */
  lemma RefusedIsSeen(f: Fields, c: byte, env: Env)
    requires MoveOf(f, c, env).Fail?
    ensures !Skims(f, c, env)
  {
    if Skims(f, c, env) { GeneralValueMove(f, c, env); }
  }

  // ---------- many bytes at once ----------

  /** The fields after `k` body bytes. */
  function AfterBody(f: Fields, k: nat): (r: Fields)
    requires TakesBody(f, k)
  {
    if f.st.BodyIdentityEof? then f
    else if k < f.contentLength then f.(contentLength := f.contentLength - k)
    else f.(contentLength := 0, st := if f.st.BodyIdentity? then MessageDone else ChunkDataAlmostDone)
  }

  predicate TakesBody(f: Fields, k: nat) {
    || f.st.BodyIdentityEof?
    || ((f.st.BodyIdentity? || f.st.ChunkData?) && 0 < f.contentLength < MAX64 && k <= f.contentLength)
  }

  /** The last byte of a fixed-length body is looked at once more. */
  predicate LookedAtTwice(f: Fields, k: nat) { f.st.BodyIdentity? && k == f.contentLength }

  lemma BodyByte(f: Fields, log: Log, input: seq<byte>, env: Env)
    requires TakesBody(f, 1) && input != [] && !Upgraded(f, log)
    ensures var rest := if LookedAtTwice(f, 1) then input else input[1..];
            && Run(f, log, input, env) == Run(AfterBody(f, 1), Emit(log, Data(Body, [input[0]])), rest, env)
            && Skim(f, log, input, env) == Skim(AfterBody(f, 1), Emit(log, Data(Body, [input[0]])), rest, env)
  {
    assert After(f, input[0], env) == AfterBody(f, 1);
  }

  lemma {:induction false} BodyBytes(f: Fields, log: Log, input: seq<byte>, k: nat, env: Env)
    requires 0 < k <= |input| && TakesBody(f, k) && !Upgraded(f, log)
    ensures var rest := input[if LookedAtTwice(f, k) then k - 1 else k..];
            && Run(f, log, input, env) == Run(AfterBody(f, k), Emit(log, Data(Body, input[..k])), rest, env)
            && Skim(f, log, input, env) == Skim(AfterBody(f, k), Emit(log, Data(Body, input[..k])), rest, env)
    decreases k
  {
    hide Run, Skim, Emit, Upgraded;
    BodyByte(f, log, input, env);
    if k == 1 {
      assert input[..1] == [input[0]];
    } else {
      var log1 := Emit(log, Data(Body, [input[0]]));
      DataIsNoExit(AfterBody(f, 1), log, Body, [input[0]]);
      BodyBytes(AfterBody(f, 1), log1, input[1..], k - 1, env);
      EmitMerges(log, Body, [input[0]], input[1..][..k - 1]);
      assert [input[0]] + input[1..][..k - 1] == input[..k];
      assert AfterBody(AfterBody(f, 1), k - 1) == AfterBody(f, k);
      var j := if LookedAtTwice(f, k) then k - 1 else k;
      assert input[1..][j - 1..] == input[j..];
    }
  }

  // ---------- one turn, with its mark and callback ----------

  /** The fields are as the parser's assertions need them, and fit what the application has been told. */
  ghost predicate Sound(f: Fields, log: Log) {
    FieldsOk(f) && LogFits(f.st, log) && HttpEvents.Fits(f, HttpEvents.PhaseOf(log))
  }

  /** Position `p` of the buffer, callbacks due included, comes to `target`. */
  ghost predicate At(
    f: Fields, log: Log, marks: Marks, data: seq<byte>, p: nat, env: Env, faithful: bool, target: Reading)
  {
    && p <= |data| && MarksOk(f.st, marks, p)
    && var due := Pend(f.st, log, marks, data, p);
    && Sound(f, due) && (faithful ==> Leads(Ahead(f, due, data, p, env), target))
  }

  /** The parser may look at the byte at `p`: its mark is set and no other protocol has begun. */
  ghost predicate Ready(f: Fields, log: Log, marks: Marks, data: seq<byte>, p: nat) {
    && p <= |data| && MarksOk(f.st, marks, p) && Marked(f.st, marks)
    && !Upgraded(f, Pend(f.st, log, marks, data, p))
  }

  function MarksAfter(marks: Marks, note: Option<Event>, p: nat): (r: Marks) {
    match note
    case Some(Data(d, bytes)) => if bytes == [] then Mark(marks, d, p) - {d} else Mark(marks, d, p)
    case _ => marks
  }

  /** Callbacks made in this turn. */
  ghost function LogAfter(log: Log, marks: Marks, note: Option<Event>, data: seq<byte>, p: nat): (r: Log)
    requires p <= |data| && forall d <- marks :: marks[d] <= p
  {
    match note
    case None => log
    case Some(Data(d, bytes)) => if bytes == [] then Emit(log, Data(d, data[Mark(marks, d, p)[d]..p])) else log
    case Some(ev) => Emit(log, ev)
  }

  lemma UpgradeStays(f: Fields, c: byte, env: Env)
    requires f.st != HeadersAlmostDone
    ensures EffectOf(f, c, env).upgrade == f.upgrade
  {
  }

  lemma HeadersEndNotes(f: Fields, c: byte, env: Env)
    requires f.st == HeadersAlmostDone && MoveOf(f, c, env).Go?
    ensures MoveOf(f, c, env).note in {Some(ChunkComplete), Some(HeadersComplete)}
  {
  }

  /** What a turn may report while it leaves its byte to be looked at again. */
  predicate KeepsByte(m: Move)
    requires m.Go?
  {
    m.consumed || m.note in {None, Some(Data(FieldValue, [])), Some(ChunkComplete), Some(HeadersComplete)}
  }

  lemma HeaderKeepsByte(f: Fields, c: byte, env: Env)
    ensures HeaderMove(f, c, env).Go? ==> KeepsByte(HeaderMove(f, c, env))
  {
  }

  lemma EndKeepsByte(f: Fields, c: byte)
    ensures HeadersEndMove(f, c).Go? ==> KeepsByte(HeadersEndMove(f, c))
    ensures BodyMove(f, c).Go? && f.st != BodyIdentity ==> KeepsByte(BodyMove(f, c))
  {
  }

  lemma StartKeepsByte(st: State, c: byte)
    ensures StartMove(st, c).Go? ==> KeepsByte(StartMove(st, c))
  {
  }

  lemma DataConsumes(f: Fields, c: byte, env: Env)
    requires f.st != BodyIdentity && MoveOf(f, c, env).Go?
    ensures KeepsByte(MoveOf(f, c, env))
  {
    hide StartMove, ResponseLineMove, RequestLineMove, HeaderMove, HeadersEndMove, ChunkMove, BodyMove;
    match PartOf(f.st)
    case StartPart => StartKeepsByte(f.st, c);
    case ResponseLinePart => ResponseLineConsumes(f.st, f.line, c);
    case RequestLinePart => RequestLineConsumes(f.st, f.index, f.line, c);
    case HeaderPart => HeaderKeepsByte(f, c, env);
    case HeadersEndPart => EndKeepsByte(f, c);
    case ChunkPart => ChunkConsumes(f, c);
    case BodyPart => EndKeepsByte(f, c);
  }

  lemma FieldKinds(st: State)
    ensures InField(st) ==> FieldOf(st).Some?
  {
  }

  /** Data is reported byte by byte, or all that is due. */
  predicate Whole(note: Option<Event>) { note.Some? && (note.value.Data? ==> note.value.bytes == []) }

  /** Setting marks and making callbacks as a note asks keeps the place. */
  lemma NoteKeepsPlace(
    f: Fields, g: Fields, note: Option<Event>, log: Log, marks: Marks, data: seq<byte>, p: nat, q: nat)
    requires p < |data| && p <= q <= p + 1 && MarksOk(f.st, marks, p) && Marked(f.st, marks)
    requires LogFits(f.st, Pend(f.st, log, marks, data, p)) && NoteFits(f.st, data[p], g.st, note)
    requires note.Some? && !Whole(note) ==> q == p + 1
    ensures var log1, marks1 := LogAfter(log, marks, note, data, p), MarksAfter(marks, note, p);
            && MarksOk(g.st, marks1, q) && Marked(g.st, marks1) && (Whole(note) ==> marks1 == map[])
            && var due := Pend(g.st, log1, marks1, data, q);
            && LogFits(g.st, due) && due == Noted(Pend(f.st, log, marks, data, p), note)
  {
    hide FieldOf, InField;
    FieldKinds(g.st);
    if note.None? || !note.value.Data? {
      assert marks == map[];
    } else if note.value.bytes == [] {
      DueIsMade(f.st, log, marks, data, p, note.value.field);
    } else {
      PendExtends(f.st, g.st, log, marks, data, p, p + 1);
      assert data[p..p + 1] == [data[p]];
    }
  }

  /** Only a completed message can leave the protocol. */
  lemma LeavesOnComplete(f: Fields, log: Log, c: byte, env: Env)
    requires MoveOf(f, c, env).Go? && !Upgraded(f, log)
    ensures Upgraded(After(f, c, env), Noted(log, MoveOf(f, c, env).note)) ==>
              MoveOf(f, c, env).note == Some(MessageComplete)
  {
    hide MoveOf, EffectOf;
    if MoveOf(f, c, env).note.None? {
      if f.st == HeadersAlmostDone { HeadersEndNotes(f, c, env); }
      UpgradeStays(f, c, env);
    }
  }

  lemma TurnKeepsSound(f: Fields, log: Log, c: byte, env: Env)
    requires Sound(f, log) && MoveOf(f, c, env).Go?
    ensures var g, log1 := After(f, c, env), Noted(log, MoveOf(f, c, env).note);
            FieldsOk(g) && HttpEvents.Fits(g, HttpEvents.PhaseOf(log1))
  {
    hide MoveOf, EffectOf, FieldsOk, LogFits, HttpEvents.Fits, HttpEvents.PhaseOf, HttpEvents.Next, Emit;
    TurnKeepsFieldsOk(f, c, env);
    HttpEvents.TurnKeepsOrder(f, c, env, HttpEvents.PhaseOf(log));
    var m := MoveOf(f, c, env);
    if m.note.Some? { HttpEvents.PhaseOfEmit(log, m.note.value); }
  }

  lemma TurnLeads(f: Fields, log: Log, data: seq<byte>, p: nat, env: Env, target: Reading)
    requires p < |data| && !Upgraded(f, log) && !Skims(f, data[p], env) && MoveOf(f, data[p], env).Go?
    requires Leads(Ahead(f, log, data, p, env), target)
    ensures var m := MoveOf(f, data[p], env);
            Leads(Ahead(After(f, data[p], env), Noted(log, m.note), data, if m.consumed then p + 1 else p, env), target)
  {
    hide Ahead, MoveOf, EffectOf, After, Upgraded, Skims;
    AheadTurn(f, log, data, p, env);
  }

  /** A turn keeps the place. */
  lemma TurnReady(
    f: Fields, log: Log, marks: Marks, data: seq<byte>, p: nat, env: Env, faithful: bool, target: Reading)
    requires p < |data| && !Bulk(f.st) && MoveOf(f, data[p], env).Go? && !Skims(f, data[p], env)
    requires At(f, log, marks, data, p, env, faithful, target) && Ready(f, log, marks, data, p)
    ensures forall d <- marks :: marks[d] <= p
    ensures var m := MoveOf(f, data[p], env);
            var g := After(f, data[p], env);
            var q := if m.consumed then p + 1 else p;
            var log1, marks1 := LogAfter(log, marks, m.note, data, p), MarksAfter(marks, m.note, p);
            && At(g, log1, marks1, data, q, env, faithful, target)
            && (if m.note == Some(MessageComplete) && g.upgrade then Upgraded(g, log1)
                else Ready(g, log1, marks1, data, q))
            && (Whole(m.note) ==> marks1 == map[])
  {
    assert f.st != BodyIdentity;
    hide Skim, MoveOf, EffectOf, FieldsOk, FieldOf, InField, Bulk, Pend, LogFits, NoteFits, Marked, MarksAfter,
         Skims, Leads;
    hide HttpEvents.Fits, HttpEvents.PhaseOf;
    var m := MoveOf(f, data[p], env);
    var due := Pend(f.st, log, marks, data, p);
    TurnKeepsSound(f, due, data[p], env);
    NotesFit(f, data[p], env);
    DataConsumes(f, data[p], env);
    if faithful { TurnLeads(f, due, data, p, env, target); }
    NoteKeepsPlace(f, After(f, data[p], env), m.note, log, marks, data, p, if m.consumed then p + 1 else p);
    LeavesOnComplete(f, due, data[p], env);
  }

  /** Making the callback that is due leaves no mark. */
  lemma DueIsMade(st: State, log: Log, marks: Marks, data: seq<byte>, p: nat, d: DataField)
    requires p <= |data| && MarksOk(st, marks, p) && Marked(st, marks)
    requires FieldOf(st).Some? ==> FieldOf(st).value == d && InField(st)
    ensures Mark(marks, d, p) - {d} == map[]
    ensures Emit(log, Data(d, data[Mark(marks, d, p)[d]..p])) == Emit(Pend(st, log, marks, data, p), Data(d, []))
  {
    hide FieldOf, InField;
    if FieldOf(st).Some? {
      EmitMerges(log, d, data[marks[d]..p], []);
      assert data[marks[d]..p] + [] == data[marks[d]..p];
    } else {
      assert marks == map[];
      assert data[p..p] == [];
    }
  }

  // ---------- counting header bytes ----------

  /** Where a turn may lead without using up its byte, and which states only a reset or a look-again leads to. */
  predicate StatesFit(f: Fields, m: Move)
    requires m.Go?
  {
    && (m.consumed ==> m.st != MessageDone)
    && (m.st == ChunkSizeStart ==> Resets(f.st) && m.consumed)
    && (!m.consumed ==>
          || (ParsingHeader(f.st) && ParsingHeader(m.st) && !f.st.HeadersDone? && !f.st.ChunkSizeAlmostDone?)
          || (f.st.HeadersAlmostDone? && f.flags.trailing && m.st == MessageDone)
          || (f.st.BodyIdentity? && m.st == MessageDone))
  }

  lemma EarlyStatesFit(f: Fields, m: Move)
    requires m.Go? && BeforeHeaders(f.st) && BeforeHeaders(m.st) && !f.st.HeaderFieldStart?
    ensures StatesFit(f, m)
  {
  }

  lemma HeaderStatesFit(f: Fields, c: byte, env: Env)
    requires PartOf(f.st).HeaderPart? && HeaderMove(f, c, env).Go?
    ensures StatesFit(f, HeaderMove(f, c, env))
  {
    HeaderMoveStates(f, c, env);
  }

  lemma EndStatesFit(f: Fields, c: byte)
    ensures PartOf(f.st).HeadersEndPart? && HeadersEndMove(f, c).Go? ==> StatesFit(f, HeadersEndMove(f, c))
    ensures PartOf(f.st).BodyPart? && BodyMove(f, c).Go? ==> StatesFit(f, BodyMove(f, c))
  {
  }

  lemma ChunkStatesFit(f: Fields, c: byte)
    requires PartOf(f.st).ChunkPart? && ChunkMove(f, c).Go?
    ensures StatesFit(f, ChunkMove(f, c))
  {
  }

  lemma MoveStatesFit(f: Fields, c: byte, env: Env)
    requires MoveOf(f, c, env).Go?
    ensures StatesFit(f, MoveOf(f, c, env))
  {
    hide StartMove, ResponseLineMove, RequestLineMove, HeaderMove, HeadersEndMove, ChunkMove, BodyMove, StatesFit,
         BeforeHeaders;
    match PartOf(f.st)
    case StartPart =>
      StartStaysEarly(f.st, c);
      EarlyIsPlain(f.st);
      EarlyStatesFit(f, MoveOf(f, c, env));
    case ResponseLinePart =>
      ResponseLineStaysEarly(f.st, f.line, c);
      EarlyIsPlain(f.st);
      EarlyStatesFit(f, MoveOf(f, c, env));
    case RequestLinePart =>
      RequestLineStaysEarly(f.st, f.index, f.line, c);
      EarlyIsPlain(f.st);
      EarlyStatesFit(f, MoveOf(f, c, env));
    case HeaderPart => HeaderStatesFit(f, c, env);
    case HeadersEndPart => EndStatesFit(f, c);
    case ChunkPart => ChunkStatesFit(f, c);
    case BodyPart => EndStatesFit(f, c);
  }

  lemma EarlyIsPlain(st: State)
    requires PartOf(st).StartPart? || PartOf(st).ResponseLinePart? || PartOf(st).RequestLinePart?
    ensures BeforeHeaders(st) && !st.HeaderFieldStart?
  {
  }

  lemma CompleteConsumes(f: Fields, c: byte, env: Env)
    requires MoveOf(f, c, env).Go? && MoveOf(f, c, env).note == Some(MessageComplete)
    ensures MoveOf(f, c, env).consumed
  {
    hide StartMove, ResponseLineMove, RequestLineMove, HeaderMove, HeadersEndMove, ChunkMove;
    if f.st != BodyIdentity { DataConsumes(f, c, env); }
  }

  lemma Progress(f: Fields, c: byte, env: Env)
    requires FieldsOk(f) && MoveOf(f, c, env).Go?
    ensures var m := MoveOf(f, c, env);
            && After(f, c, env).st == m.st && After(f, c, env).seen == SeenAfter(f, m.consumed)
            && (m.consumed ==> m.st != MessageDone)
            && (m.note == Some(MessageComplete) ==> m.consumed)
            && (!m.consumed ==> !Resets(f.st) && Counts(After(f, c, env)) == Counts(f) && Rank(m.st) < Rank(f.st))
            && (m.st == ChunkSizeStart ==> Resets(f.st) && m.consumed)
  {
    hide MoveOf, EffectOf, FieldsOk, Rank;
    MoveStatesFit(f, c, env);
    if !MoveOf(f, c, env).consumed {
      if MoveOf(f, c, env).note == Some(MessageComplete) { CompleteConsumes(f, c, env); }
      CountsStay(f, c, env);
      MoveMakesProgress(f, c, env);
    }
  }

  /** A byte looked at again is still of the header section, or still not. */
  lemma CountsStay(f: Fields, c: byte, env: Env)
    requires FieldsOk(f) && MoveOf(f, c, env).Go? && !MoveOf(f, c, env).consumed
    ensures Counts(After(f, c, env)) == Counts(f) && !Resets(f.st)
  {
    hide MoveOf, EffectOf, LengthOk, HeaderStateOk, InChunk;
    MoveStatesFit(f, c, env);
    if !ParsingHeader(MoveOf(f, c, env).st) {
      EndKeepsTrailing(f, c, env);
    }
  }

  /** What the parser asserts in the states that depend on a length or on the transfer coding. */
  lemma AssertionsHold(f: Fields)
    requires FieldsOk(f)
    ensures InChunk(f.st) ==> f.flags.chunked
    ensures f.st.BodyIdentity? || f.st.ChunkData? ==> 0 < f.contentLength < MAX64
    ensures f.st.ChunkDataAlmostDone? ==> f.contentLength == 0
    ensures f.st.HeaderValue? ==> !f.hs.Connection? && !f.hs.TransferEncoding?
    ensures f.st.HeaderField? ==> NameState(f.hs)
  {
  }

  lemma PlaceAssertions(
    f: Fields, log: Log, marks: Marks, data: seq<byte>, p: nat, env: Env, faithful: bool, target: Reading)
    requires At(f, log, marks, data, p, env, faithful, target)
    ensures FieldsOk(f)
    ensures f.st.HeaderValue? ==> !f.hs.Connection? && !f.hs.TransferEncoding?
    ensures f.st.HeaderField? ==> NameState(f.hs)
  {
  }

  lemma EndKeepsTrailing(f: Fields, c: byte, env: Env)
    requires (f.st.HeadersAlmostDone? && f.flags.trailing) || f.st.BodyIdentity?
    ensures EffectOf(f, c, env).flags == f.flags
  {
  }

  // ---------- errors ----------

  /** The only errors after which the parser can be told to go on. */
  predicate Live(errno: Errno) { errno == Ok || errno == Paused || errno == CallbackFailed }

  /** An error of the message itself, not of its size or of the application. */
  predicate Malformed(m: Move) { m.Fail? ==> !Live(m.errno) && m.errno != HeaderOverflow }

  lemma StartErrors(st: State, c: byte)
    ensures Malformed(StartMove(st, c))
  {
  }

  lemma ResponseLineErrors(st: State, l: Line, c: byte)
    ensures Malformed(ResponseLineMove(st, l, c))
  {
  }

  lemma RequestLineErrors(st: State, i: nat, l: Line, c: byte)
    ensures Malformed(RequestLineMove(st, i, l, c))
  {
    hide UrlState, MethodAfter, InUrl, UrlMayEnd;
  }

  lemma HeaderErrors(f: Fields, c: byte, env: Env)
    ensures Malformed(HeaderMove(f, c, env))
  {
  }

  lemma OtherErrors(f: Fields, c: byte)
    ensures Malformed(HeadersEndMove(f, c)) && Malformed(ChunkMove(f, c)) && Malformed(BodyMove(f, c))
  {
  }

  lemma ParseErrors(f: Fields, c: byte, env: Env)
    ensures Malformed(MoveOf(f, c, env))
  {
    hide Malformed, StartMove, ResponseLineMove, RequestLineMove, HeaderMove, HeadersEndMove, ChunkMove, BodyMove;
    StartErrors(f.st, c);
    ResponseLineErrors(f.st, f.line, c);
    RequestLineErrors(f.st, f.index, f.line, c);
    HeaderErrors(f, c, env);
    OtherErrors(f, c);
  }

  /** `log` lacks at most the data callback that was due when the error was met. */
  ghost predicate UpToPending(log: Log, full: Log) {
    log == full || exists d, bytes :: full == Emit(log, Data(d, bytes))
  }

  lemma PendIsPending(st: State, log: Log, marks: Marks, data: seq<byte>, p: nat)
    requires MarksOk(st, marks, p) && p <= |data|
    ensures UpToPending(log, Pend(st, log, marks, data, p))
  {
    hide FieldOf, InField;
  }

  ghost predicate PassedAt(
    target: Reading, data: seq<byte>, n: nat, log: Log, env: Env, f: Fields, due: Log, k: nat)
  {
    && k <= n <= |data| && (k == n || k + MAX_HEADER_SIZE < n)
    && UpToPending(log, due) && Leads(Ahead(f, due, data, k, env), target)
  }

  /** On the way to `target` the reading comes to `n`, or skips beyond it from afar, having told `log`. */
  ghost predicate Passed(target: Reading, data: seq<byte>, n: nat, log: Log, env: Env) {
    exists f, due, k :: PassedAt(target, data, n, log, env, f, due, k)
  }

  lemma AtPasses(f: Fields, log: Log, marks: Marks, data: seq<byte>, p: nat, env: Env, n: nat, target: Reading)
    requires At(f, log, marks, data, p, env, true, target)
    requires p == n || p + MAX_HEADER_SIZE < n <= |data|
    ensures Passed(target, data, n, log, env)
  {
    hide Ahead, Leads, Sound, UpToPending, Pend;
    var due := Pend(f.st, log, marks, data, p);
    PendIsPending(f.st, log, marks, data, p);
    assert PassedAt(target, data, n, log, env, f, due, p);
  }

  /** The end of the stream completes a message whose body goes on to there. */
  lemma EofKeepsSound(f: Fields, log: Log)
    requires Sound(f, log) && f.st.BodyIdentityEof?
    ensures Sound(f, Emit(log, MessageComplete))
  {
    HttpEvents.PhaseOfEmit(log, MessageComplete);
    hide FieldsOk, Emit, HttpEvents.PhaseOf;
  }

  lemma ValueEndMove(f: Fields, env: Env)
    requires f.st.HeaderValue?
    ensures MoveOf(f, CR, env) == Note(HeaderAlmostDone, Data(FieldValue, []))
    ensures !Skims(f, CR, env) && !Bulk(f.st) && !Resets(f.st) && SeenAfter(f, true) == More(f.seen, 1)
  {
  }

  /** Once the value is reported, nothing is due. */
  lemma ValueIsTold(f: Fields, log: Log, marks: Marks, data: seq<byte>, p: nat, env: Env, target: Reading)
    requires p < |data| && f.st.HeaderValue? && Ready(f, log, marks, data, p)
    requires At(f, log, marks, data, p, env, true, target)
    ensures Passed(target, data, p, LogAfter(log, marks, Some(Data(FieldValue, [])), data, p), env)
  {
    ValueIsField(f.st);
    hide Ahead, Leads, Sound, FieldOf, InField;
    var due := Pend(f.st, log, marks, data, p);
    assert LogAfter(log, marks, Some(Data(FieldValue, [])), data, p) == due;
    assert PassedAt(target, data, p, due, env, f, due, p);
  }

  /** At any place, callbacks have come in order so far, and the peak covers the header bytes so far. */
  lemma AtIsOrderly(
    f: Fields, log: Log, marks: Marks, data: seq<byte>, p: nat, env: Env, faithful: bool, target: Reading)
    requires At(f, log, marks, data, p, env, faithful, target)
    ensures HttpEvents.Orderly(log) && (faithful ==> f.seen.now <= target.peak)
  {
    hide FieldOf, InField, Skim, FieldsOk, HttpEvents.PhaseOf, LogFits, Emit;
    var due := Pend(f.st, log, marks, data, p);
    HttpEvents.FittingIsRight(f, HttpEvents.PhaseOf(due));
    hide HttpEvents.Fits;
    if FieldOf(f.st).Some? && FieldOf(f.st).value in marks {
      HttpEvents.PhaseOfEmit(log, Data(FieldOf(f.st).value, data[marks[FieldOf(f.st).value]..p]));
    }
  }

  /** A byte that is refused where the parser stands is where the whole buffer's reading fails. */
  lemma RefusedAt(
    f: Fields, log: Log, marks: Marks, data: seq<byte>, p: nat, env: Env, faithful: bool, target: Reading)
    requires p < |data| && MoveOf(f, data[p], env).Fail?
    requires At(f, log, marks, data, p, env, faithful, target) && Ready(f, log, marks, data, p)
    ensures var e := MoveOf(f, data[p], env).errno; !Live(e) && e != HeaderOverflow
    ensures HttpEvents.Orderly(log)
    ensures faithful ==>
              && target.outcome.Failed? && target.outcome.errno == MoveOf(f, data[p], env).errno
              && target.outcome.rest == data[p..] && UpToPending(log, target.outcome.log)
  {
    hide MoveOf, EffectOf, Sound, Pend, Upgraded, Marked, UpToPending, Skims, Ahead, HttpEvents.Orderly;
    RefusedIsSeen(f, data[p], env);
    AheadTurn(f, Pend(f.st, log, marks, data, p), data, p, env);
    ParseErrors(f, data[p], env);
    PendIsPending(f.st, log, marks, data, p);
    AtIsOrderly(f, log, marks, data, p, env, faithful, target);
  }

  // ---------- the runs of bytes the parser takes in one go ----------

  lemma NameStep(f: Fields, c: byte, env: Env)
    requires f.st.HeaderField? && TokenOf(c) != 0
    ensures MoveOf(f, c, env) ==
            if SecondLength(f, c) then Fail(UnexpectedContentLength) else Note(HeaderField, Data(FieldName, [c]))
    ensures !SecondLength(f, c) ==> After(f, c, env) == NameEffect(f, c).(st := HeaderField, seen := More(f.seen, 1))
  {
    hide NameEffect, SecondLength;
  }

  lemma ValueStep(f: Fields, c: byte, env: Env)
    requires f.st.HeaderValue? && Skippable(c)
    ensures MoveOf(f, c, env) ==
            if !env.lenient && !IsHeaderChar(c) then Fail(InvalidHeaderToken)
            else if f.hs.ContentLength? && BadLengthByte(f.contentLength, c) then Fail(InvalidContentLength)
            else Note(HeaderValue, Data(FieldValue, [c]))
    ensures MoveOf(f, c, env).Go? ==> After(f, c, env) == ValueEffect(f, c).(st := HeaderValue, seen := More(f.seen, 1))
  {
    hide ValueEffect, BadLengthByte;
  }

  /** A byte of a field name or value that leaves the state as it is keeps the place. */
  lemma FieldByteKeepsPlace(
    f: Fields, log: Log, marks: Marks, data: seq<byte>, p: nat, env: Env, faithful: bool, target: Reading,
    d: DataField)
    requires p < |data| && InField(f.st) && FieldOf(f.st) == Some(d)
    requires MoveOf(f, data[p], env) == Note(f.st, Data(d, [data[p]]))
    requires At(f, log, marks, data, p, env, faithful, target) && Ready(f, log, marks, data, p)
    requires !Skims(f, data[p], env)
    ensures At(After(f, data[p], env), log, marks, data, p + 1, env, faithful, target)
    ensures Ready(After(f, data[p], env), log, marks, data, p + 1)
  {
    hide MoveOf, EffectOf, FieldsOk, Ahead, Upgraded, LogFits, FieldOf, InField, At, Skims;
    assert !Bulk(f.st) by { FieldIsNotBulk(f.st); }
    TurnReady(f, log, marks, data, p, env, faithful, target);
  }

  lemma FieldIsNotBulk(st: State)
    ensures InField(st) ==> !Bulk(st)
  {
  }

  /** More of a header value fits what came before it. */
  lemma ValueKeepsSound(f: Fields, log: Log, bytes: seq<byte>, k: nat)
    requires Sound(f, log) && f.st.HeaderValue?
    ensures Sound(f.(seen := More(f.seen, k)), Emit(log, Data(FieldValue, bytes)))
  {
    SeenIsFree(f, More(f.seen, k));
    hide FieldsOk, Emit, HttpEvents.PhaseOf;
    HttpEvents.PhaseOfEmit(log, Data(FieldValue, bytes));
    DataIsNoExit(f, log, FieldValue, bytes);
    ValueFits(f, HttpEvents.PhaseOf(log), bytes, k);
    hide HttpEvents.Fits, HttpEvents.Next;
  }

  lemma ValueFits(f: Fields, ph: HttpEvents.Phase, bytes: seq<byte>, k: nat)
    requires HttpEvents.Fits(f, ph) && f.st.HeaderValue?
    ensures HttpEvents.Fits(f.(seen := More(f.seen, k)), HttpEvents.Next(ph, Data(FieldValue, bytes)))
  {
  }

  /** The value's end is where the next CR or LF is. */
  lemma SkipLeads(f: Fields, log: Log, data: seq<byte>, p: nat, q: nat, env: Env)
    requires p < q <= |data| && !Upgraded(f, log) && Skims(f, data[p], env)
    requires (forall i :: p <= i < q ==> Skippable(data[i])) && (q < |data| ==> !Skippable(data[q]))
    ensures Leads(
              Ahead(f.(seen := More(f.seen, q - p)), Emit(log, Data(FieldValue, data[p..q])), data, q, env),
              Ahead(f, log, data, p, env))
  {
    hide Skims, Skippable, Upgraded, Emit;
    assert ToEnd(data[p..]) == q - p;
    assert data[p..][..q - p] == data[p..q] && data[p..][q - p..] == data[q..];
  }

  /** Skipping ahead in a header value keeps the place. */
  lemma SkipKeepsPlace(
    f: Fields, log: Log, marks: Marks, data: seq<byte>, p: nat, q: nat, env: Env, faithful: bool, target: Reading)
    requires p < q <= |data| && Skims(f, data[p], env)
    requires At(f, log, marks, data, p, env, faithful, target) && Ready(f, log, marks, data, p)
    requires (forall i :: p <= i < q ==> Skippable(data[i])) && (q < |data| ==> !Skippable(data[q]))
    ensures At(f.(seen := More(f.seen, q - p)), log, marks, data, q, env, faithful, target)
    ensures Ready(f.(seen := More(f.seen, q - p)), log, marks, data, q)
  {
    var due := Pend(f.st, log, marks, data, p);
    ValueIsField(f.st);
    hide Sound, Skippable, FieldOf, InField, Ahead, Emit, Upgraded;
    ValueKeepsSound(f, due, data[p..q], q - p);
    PendExtends(f.st, f.st, log, marks, data, p, q);
    DataIsNoExit(f.(seen := More(f.seen, q - p)), due, FieldValue, data[p..q]);
    SkipLeads(f, due, data, p, q, env);
  }

  /** A value so long that its end is beyond the reach of the search is too long for a header. */
  lemma LongValuePeaks(f: Fields, log: Log, data: seq<byte>, p: nat, env: Env)
    requires p + MAX_HEADER_SIZE <= |data| && !Upgraded(f, log) && Skims(f, data[p], env)
    requires forall i :: p <= i < p + MAX_HEADER_SIZE ==> Skippable(data[i])
    ensures MAX_HEADER_SIZE <= Ahead(f, log, data, p, env).peak
  {
    var k := ToEnd(data[p..]);
    assert MAX_HEADER_SIZE <= k;
    hide Skims, Skippable, Upgraded, Emit;
    assert More(f.seen, k).now == f.seen.now + k;
  }

  /** Past a skip that jumps over the end of the value, only the fields are still sound. */
  lemma OverrunPlace(
    f: Fields, log: Log, marks: Marks, data: seq<byte>, p: nat, env: Env, faithful: bool, target: Reading)
    requires p + MAX_HEADER_SIZE < |data| && Skims(f, data[p], env)
    requires At(f, log, marks, data, p, env, faithful, target) && Ready(f, log, marks, data, p)
    requires forall i :: p <= i < p + MAX_HEADER_SIZE ==> Skippable(data[i])
    ensures var g := f.(seen := More(f.seen, |data| - p));
            At(g, log, marks, data, |data|, env, false, target) && Ready(g, log, marks, data, |data|)
    ensures faithful ==> MAX_HEADER_SIZE <= target.peak && Passed(target, data, |data|, log, env)
  {
    var q, due := |data|, Pend(f.st, log, marks, data, p);
    ValueIsField(f.st);
    if faithful { AtPasses(f, log, marks, data, p, env, q, target); }
    hide Passed, Sound, Skippable, FieldOf, InField, Ahead, Emit, Upgraded;
    ValueKeepsSound(f, due, data[p..q], q - p);
    PendExtends(f.st, f.st, log, marks, data, p, q);
    DataIsNoExit(f.(seen := More(f.seen, q - p)), due, FieldValue, data[p..q]);
    LongValuePeaks(f, due, data, p, env);
  }

  lemma NameIsField(st: State)
    ensures st.HeaderField? ==> FieldOf(st) == Some(FieldName) && InField(st)
  {
  }

  lemma GeneralIsNoLength(f: Fields, c: byte)
    ensures f.hs.General? ==> !SecondLength(f, c)
  {
  }

  lemma ValueIsField(st: State)
    ensures st.HeaderValue? ==> FieldOf(st) == Some(FieldValue) && InField(st)
  {
  }

  lemma BodyFields(f: Fields, k: nat)
    requires TakesBody(f, k)
    ensures FieldOf(f.st) == Some(Body) && !InField(f.st) && !InField(AfterBody(f, k).st)
    ensures FieldOf(AfterBody(f, k).st) == if LookedAtTwice(f, k) then None else Some(Body)
    ensures AfterBody(f, k).upgrade == f.upgrade
    ensures FieldsOk(f) ==> FieldsOk(AfterBody(f, k))
  {
  }

  lemma BodyAhead(f: Fields, log: Log, data: seq<byte>, p: nat, k: nat, env: Env)
    requires 0 < k <= |data| - p && TakesBody(f, k) && !Upgraded(f, log)
    ensures Ahead(f, log, data, p, env) ==
            Ahead(AfterBody(f, k), Emit(log, Data(Body, data[p..p + k])), data,
                  if LookedAtTwice(f, k) then p + k - 1 else p + k, env)
  {
    hide Skim, AfterBody, TakesBody, Emit, Upgraded;
    BodyBytes(f, log, data[p..], k, env);
    Slices(data, p, k);
  }

  lemma Slices(data: seq<byte>, p: nat, k: nat)
    requires 0 < k <= |data| - p
    ensures data[p..][..k] == data[p..p + k] && data[p..][k..] == data[p + k..]
    ensures data[p..][k - 1..] == data[p + k - 1..]
  {
  }

  /** The body takes the place of what is left to deliver. */
  lemma BodyKeepsSound(f: Fields, log: Log, bytes: seq<byte>)
    requires TakesBody(f, |bytes|) && Sound(f, log)
    ensures Sound(AfterBody(f, |bytes|), Emit(log, Data(Body, bytes)))
  {
    BodyFields(f, |bytes|);
    BodyFits(f, HttpEvents.PhaseOf(log), bytes);
    HttpEvents.PhaseOfEmit(log, Data(Body, bytes));
    hide FieldsOk, AfterBody, TakesBody, Emit, HttpEvents.Fits, HttpEvents.PhaseOf;
  }

  lemma BodyFits(f: Fields, ph: HttpEvents.Phase, bytes: seq<byte>)
    requires TakesBody(f, |bytes|) && HttpEvents.Fits(f, ph)
    ensures HttpEvents.Fits(AfterBody(f, |bytes|), HttpEvents.Next(ph, Data(Body, bytes)))
  {
    if f.st.ChunkData? {
      assert ph == HttpEvents.Open(f.contentLength) && !f.flags.trailing;
    } else {
      assert (ph.Idle? || ph.Plain?) && !f.flags.trailing;
    }
  }

  /** Body bytes taken at once keep the place. */
  lemma BodyKeepsPlace(
    f: Fields, log: Log, marks: Marks, data: seq<byte>, p: nat, k: nat, env: Env, faithful: bool, target: Reading)
    requires 0 < k <= |data| - p && TakesBody(f, k) && !LookedAtTwice(f, k)
    requires At(f, log, marks, data, p, env, faithful, target) && Ready(f, log, marks, data, p)
    ensures At(AfterBody(f, k), log, Mark(marks, Body, p), data, p + k, env, faithful, target)
    ensures Ready(AfterBody(f, k), log, Mark(marks, Body, p), data, p + k)
  {
    hide Sound, FieldOf, InField, AfterBody, TakesBody, Ahead, LookedAtTwice;
    var due := Pend(f.st, log, marks, data, p);
    BodyFields(f, k);
    BodyAhead(f, due, data, p, k, env);
    BodyKeepsSound(f, due, data[p..p + k]);
    PendExtends(f.st, AfterBody(f, k).st, log, marks, data, p, p + k);
  }

  /** The last body bytes are reported at once, and the last of them looked at again. */
  lemma BodyEndKeepsPlace(
    f: Fields, log: Log, marks: Marks, data: seq<byte>, p: nat, k: nat, env: Env, faithful: bool, target: Reading)
    requires 0 < k <= |data| - p && TakesBody(f, k) && LookedAtTwice(f, k)
    requires At(f, log, marks, data, p, env, faithful, target) && Ready(f, log, marks, data, p)
    ensures var marks1 := Mark(marks, Body, p);
            && marks1[Body] <= p && marks1 - {Body} == map[]
            && var log1 := Emit(log, Data(Body, data[marks1[Body]..p + k]));
            && At(AfterBody(f, k), log1, map[], data, p + k - 1, env, faithful, target)
            && Ready(AfterBody(f, k), log1, map[], data, p + k - 1)
  {
    hide Sound, FieldOf, InField, AfterBody, TakesBody, Ahead, LookedAtTwice;
    var due := Pend(f.st, log, marks, data, p);
    BodyFields(f, k);
    BodyAhead(f, due, data, p, k, env);
    BodyKeepsSound(f, due, data[p..p + k]);
    PendExtends(f.st, f.st, log, marks, data, p, p + k);
  }

  lemma ChunkEndMove(f: Fields, c: byte, env: Env)
    requires f.st.ChunkDataAlmostDone?
    ensures MoveOf(f, c, env) == Expect(c == CR, ChunkDataDone, Strict)
    ensures c == CR ==> After(f, c, env) == f.(st := ChunkDataDone)
  {
  }

  /** A fixed-length body has no trailer. */
  lemma NoTrailer(f: Fields)
    requires FieldsOk(f)
    ensures f.st.BodyIdentity? ==> !f.flags.trailing
  {
  }

  /** The end of a chunk's data reports what is due, if anything. */
  lemma ChunkEndKeepsPlace(
    f: Fields, log: Log, marks: Marks, data: seq<byte>, p: nat, env: Env, faithful: bool, target: Reading)
    requires p < |data| && f.st.ChunkDataAlmostDone? && data[p] == CR
    requires At(f, log, marks, data, p, env, faithful, target) && Ready(f, log, marks, data, p)
    ensures marks - {Body} == map[] && forall d <- marks :: marks[d] <= p
    ensures var log1 := if Body in marks then Emit(log, Data(Body, data[marks[Body]..p])) else log;
            && At(f.(st := ChunkDataDone), log1, map[], data, p + 1, env, faithful, target)
            && Ready(f.(st := ChunkDataDone), log1, map[], data, p + 1)
  {
    var due := Pend(f.st, log, marks, data, p);
    ChunkEndMove(f, data[p], env);
    hide Ahead, MoveOf, EffectOf, After, FieldsOk, HttpEvents.Fits, HttpEvents.PhaseOf;
    TurnKeepsSound(f, due, data[p], env);
    if faithful { TurnLeads(f, due, data, p, env, target); }
    assert due == if Body in marks then Emit(log, Data(Body, data[marks[Body]..p])) else log;
  }

  // ---------- the end of the buffer ----------

  lemma AtMostOneMark(
    f: Fields, log: Log, marks: Marks, data: seq<byte>, env: Env, faithful: bool, target: Reading)
    requires At(f, log, marks, data, |data|, env, faithful, target)
    ensures forall d <- marks, e <- marks :: d == e
  {
    hide FieldOf, Ahead, Sound;
  }

  lemma AllReported(marks: Marks)
    ensures marks - {FieldName} - {FieldValue} - {Url} - {Body} - {Status} == map[]
  {
    var left := marks - {FieldName} - {FieldValue} - {Url} - {Body} - {Status};
    forall d: DataField ensures d !in left {
      match d
      case Url | Status | FieldName | FieldValue | Body =>
    }
  }

  /** Making the callback for one kind of data, if it is due, keeps the place. */
  lemma ReportKeepsPlace(
    f: Fields, log: Log, marks: Marks, d: DataField, data: seq<byte>, env: Env, faithful: bool, target: Reading)
    requires At(f, log, marks, data, |data|, env, faithful, target)
    ensures forall k <- marks :: marks[k] <= |data|
    ensures d in marks ==> marks - {d} == map[]
    ensures var log1 := if d in marks then Emit(log, Data(d, data[marks[d]..|data|])) else log;
            At(f, log1, marks - {d}, data, |data|, env, faithful, target)
  {
    hide Ahead, Sound, FieldOf, InField, Emit;
    if d in marks {
      assert FieldOf(f.st) == Some(d);
      assert marks - {d} == map[];
    } else {
      assert marks - {d} == marks;
    }
  }
}
