/**
 The order of callbacks over whole runs: chunks are announced, delivered in full and completed,
 one at a time, and no message is complete while a chunk is open.
 */
module HttpEvents {
  import opened Common
  import opened HttpTypes
  import opened HttpStep
  import opened HttpRun

  /** How far a message has come by its callbacks; `Open(left)`: a chunk with `left` bytes to deliver. */
  datatype Phase = Idle | Plain | Open(left: nat) | Between | Wrong

  function Next(ph: Phase, ev: Event): (r: Phase) {
    match ev
    case MessageBegin => if ph.Idle? then Idle else Wrong
    case HeadersComplete => if ph.Idle? then Idle else Wrong
    case ChunkHeader(n) => if ph.Idle? || ph.Between? then Open(n) else Wrong
    case ChunkComplete => if ph == Open(0) then Between else Wrong
    case MessageComplete => if ph.Idle? || ph.Plain? || ph.Between? then Idle else Wrong
    case Data(d, bytes) =>
      if d.Body? then
        if ph.Idle? || ph.Plain? then Plain
        else if ph.Open? && |bytes| <= ph.left then Open(ph.left - |bytes|)
        else Wrong
      else if ph.Idle? || ph == Open(0) then ph  // start line and headers; a trailer
      else Wrong
  }

  function PhaseOf(log: Log): (r: Phase) {
    if log == [] then Idle else Next(PhaseOf(log[..|log| - 1]), log[|log| - 1])
  }

  /** Merging data callbacks does not change the phase. */
  lemma PhaseOfEmit(log: Log, ev: Event)
    ensures PhaseOf(Emit(log, ev)) == Next(PhaseOf(log), ev)
  {
    var out := Emit(log, ev);
    if |out| == |log| {
      var init, last := log[..|log| - 1], log[|log| - 1];
      assert out[..|out| - 1] == init;
      assert |last.bytes + ev.bytes| == |last.bytes| + |ev.bytes|;
    } else {
      assert out[..|out| - 1] == log;
    }
  }

  /** The callbacks so far came in an order that makes sense. */
  ghost predicate Orderly(log: Log) { PhaseOf(log) != Wrong }

  // ---------- every turn keeps the order ----------

  predicate AtStart(st: State) { st.Dead? || st.StartReqOrRes? || st.StartReq? || st.StartRes? }

  /** The phase a state stands for. */
  predicate Fits(f: Fields, ph: Phase) {
    var t, part := f.flags.trailing, PartOf(f.st);
    if AtStart(f.st) then ph.Idle?
    else if part.StartPart? || part.ResponseLinePart? || part.RequestLinePart? || f.st.HeadersDone? then ph.Idle? && !t
    else if part.HeaderPart? || f.st.HeadersAlmostDone? then if t then ph == Open(0) else ph.Idle?
    else if f.st.ChunkData? then ph == Open(f.contentLength) && !t
    else if f.st.ChunkDataAlmostDone? || f.st.ChunkDataDone? then ph == Open(0) && !t
    else if f.st.MessageDone? then if t then ph.Between? else ph.Plain?
    else if part.ChunkPart? then (ph.Idle? || ph.Between?) && !t
    else (ph.Idle? || ph.Plain?) && !t
  }

  function After1(ph: Phase, note: Option<Event>): (r: Phase) { if note.Some? then Next(ph, note.value) else ph }

  lemma StartKeepsOrder(f: Fields, c: byte, ph: Phase)
    requires Fits(f, ph) && PartOf(f.st).StartPart? && StartMove(f.st, c).Go?
    ensures var m := StartMove(f.st, c); Fits(LineEffect(f, c).(st := m.st), After1(ph, m.note))
  {
    hide LineAfter, LineIndexAfter;
  }

  lemma ResponseLineKeepsOrder(f: Fields, c: byte, ph: Phase)
    requires Fits(f, ph) && PartOf(f.st).ResponseLinePart? && ResponseLineMove(f.st, f.line, c).Go?
    ensures var m := ResponseLineMove(f.st, f.line, c); Fits(LineEffect(f, c).(st := m.st), After1(ph, m.note))
  {
    hide LineAfter, LineIndexAfter;
  }

  lemma RequestLineKeepsOrder(f: Fields, c: byte, ph: Phase)
    requires Fits(f, ph) && PartOf(f.st).RequestLinePart? && RequestLineMove(f.st, f.index, f.line, c).Go?
    ensures var m := RequestLineMove(f.st, f.index, f.line, c); Fits(LineEffect(f, c).(st := m.st), After1(ph, m.note))
  {
    hide LineAfter, LineIndexAfter, MethodAfter;
  }

  lemma HeaderKeepsOrder(f: Fields, c: byte, env: Env, ph: Phase)
    requires FieldsOk(f) && Fits(f, ph) && PartOf(f.st).HeaderPart? && HeaderMove(f, c, env).Go?
    ensures var m := HeaderMove(f, c, env); Fits(HeaderEffect(f, c).(st := m.st), After1(ph, m.note))
  {
    HeaderEffectKeeps(f, c);
    HeaderNotes(f, c, env);
    HeaderMoveStates(f, c, env);
    hide HeaderEffect, HeaderMove, FieldsOk;
  }

  lemma HeaderNotes(f: Fields, c: byte, env: Env)
    ensures var m := HeaderMove(f, c, env); m.Go? && m.note.Some? ==> m.note.value.Data? && !m.note.value.field.Body?
  {
  }

  lemma EndKeepsOrder(f: Fields, c: byte, env: Env, ph: Phase)
    requires FieldsOk(f) && Fits(f, ph) && PartOf(f.st).HeadersEndPart? && HeadersEndMove(f, c).Go?
    ensures var m := HeadersEndMove(f, c); Fits(HeadersEffect(f, env).(st := m.st), After1(ph, m.note))
  {
    hide NewMessage, NeedsEof, HasBody;
  }

  lemma ChunkKeepsOrder(f: Fields, c: byte, ph: Phase)
    requires FieldsOk(f) && Fits(f, ph) && PartOf(f.st).ChunkPart? && ChunkMove(f, c).Go?
    ensures var m := ChunkMove(f, c); Fits(ChunkEffect(f, c).(st := m.st), After1(ph, m.note))
  {
  }

  lemma BodyKeepsOrder(f: Fields, c: byte, ph: Phase)
    requires FieldsOk(f) && Fits(f, ph) && PartOf(f.st).BodyPart? && BodyMove(f, c).Go?
    ensures var m := BodyMove(f, c); Fits(BodyEffect(f).(st := m.st), After1(ph, m.note))
  {
    hide NewMessage;
  }

  lemma TurnKeepsOrder(f: Fields, c: byte, env: Env, ph: Phase)
    requires FieldsOk(f) && Fits(f, ph) && MoveOf(f, c, env).Go?
    ensures Fits(After(f, c, env), After1(ph, MoveOf(f, c, env).note))
  {
    hide StartMove, ResponseLineMove, RequestLineMove, HeaderMove, HeadersEndMove, ChunkMove, BodyMove;
    hide LineEffect, HeaderEffect, HeadersEffect, ChunkEffect, BodyEffect, FieldsOk;
    match PartOf(f.st)
    case StartPart => StartKeepsOrder(f, c, ph);
    case ResponseLinePart => ResponseLineKeepsOrder(f, c, ph);
    case RequestLinePart => RequestLineKeepsOrder(f, c, ph);
    case HeaderPart => HeaderKeepsOrder(f, c, env, ph);
    case HeadersEndPart => EndKeepsOrder(f, c, env, ph);
    case ChunkPart => ChunkKeepsOrder(f, c, ph);
    case BodyPart => BodyKeepsOrder(f, c, ph);
  }

  /** Over every run the callbacks come in order, also when it ends in an error. */
  lemma {:induction false} RunKeepsOrder(f: Fields, log: Log, input: seq<byte>, env: Env)
    requires FieldsOk(f) && Fits(f, PhaseOf(log))
    ensures var o := Run(f, log, input, env);
            PhaseOf(o.log) != Wrong && (o.Stopped? ==> Fits(o.f, PhaseOf(o.log)))
    decreases |input|, Rank(f.st)
  {
    hide MoveOf, EffectOf, FieldsOk, Fits, Rank, Upgraded;
    FittingIsRight(f, PhaseOf(log));
    if input != [] && !Upgraded(f, log) {
      var m := MoveOf(f, input[0], env);
      if m.Go? {
        var g := After(f, input[0], env);
        TurnKeepsFieldsOk(f, input[0], env);
        TurnKeepsOrder(f, input[0], env, PhaseOf(log));
        if m.note.Some? { PhaseOfEmit(log, m.note.value); }
        if m.consumed {
          RunKeepsOrder(g, Noted(log, m.note), input[1..], env);
        } else {
          MoveMakesProgress(f, input[0], env);
          RunKeepsOrder(g, Noted(log, m.note), input, env);
        }
      }
    }
  }

  lemma FittingIsRight(f: Fields, ph: Phase)
    requires Fits(f, ph)
    ensures ph != Wrong
  {
  }

  // ---------- what being in order means ----------

  function Headers(log: Log): (r: nat) {
    if log == [] then 0 else Headers(log[..|log| - 1]) + if log[|log| - 1].ChunkHeader? then 1 else 0
  }

  function Completes(log: Log): (r: nat) {
    if log == [] then 0 else Completes(log[..|log| - 1]) + if log[|log| - 1].ChunkComplete? then 1 else 0
  }

  /** The lengths announced by chunk headers. */
  function Announced(log: Log): (r: nat) {
    if log == [] then 0
    else Announced(log[..|log| - 1]) + if log[|log| - 1].ChunkHeader? then log[|log| - 1].length else 0
  }

  /** Body bytes delivered while a chunk was open. */
  function InChunks(log: Log): (r: nat) {
    if log == [] then 0
    else
      var init, last := log[..|log| - 1], log[|log| - 1];
      InChunks(init) + if last.Data? && last.field.Body? && Completes(init) < Headers(init) then |last.bytes| else 0
  }

  /** Chunk headers and completions alternate, and all that is announced is delivered when a chunk is complete. */
  lemma {:induction false} OrderMeansBalance(log: Log)
    requires PhaseOf(log) != Wrong
    ensures var ph := PhaseOf(log);
            && Headers(log) == Completes(log) + (if ph.Open? then 1 else 0)
            && Announced(log) == InChunks(log) + (if ph.Open? then ph.left else 0)
  {
    if log != [] {
      OrderMeansBalance(log[..|log| - 1]);
    }
  }

  /** A chunk is open after the first `k` callbacks. */
  predicate OpenAt(log: Log, k: nat)
    requires k <= |log|
  {
    Completes(log[..k]) < Headers(log[..k])
  }

  /** After `k` callbacks, at most one chunk is open; unless one is, all bytes announced were delivered in chunks. */
  ghost predicate InStep(log: Log, k: nat)
    requires k <= |log|
  {
    && Completes(log[..k]) <= Headers(log[..k]) <= Completes(log[..k]) + 1
    && InChunks(log[..k]) <= Announced(log[..k])
    && (!OpenAt(log, k) ==> InChunks(log[..k]) == Announced(log[..k]))
  }

  predicate IsBody(ev: Event) { ev.Data? && ev.field.Body? }

  /** No message is complete from callback `i` to `j`. */
  ghost predicate SameMessage(log: Log, i: nat, j: nat)
    requires i <= j <= |log|
  {
    forall k :: i <= k < j ==> log[k] != MessageComplete
  }

  /** Body data, if the message has a chunk header, before it or after, lies in an open chunk. */
  ghost predicate BodyIsChunk(log: Log, header: nat, body: nat)
    requires header < |log| && body < |log|
  {
    && log[header].ChunkHeader? && IsBody(log[body])
    && SameMessage(log, if header < body then header else body, if header < body then body else header) ==>
      OpenAt(log, body)
  }

  /**
   At every point, chunk headers and completions have alternated, and by the time a chunk is complete exactly its bytes
   were delivered; no message is complete while a chunk is open; a body is all in chunks or not at all.
   */
  ghost predicate Balanced(log: Log) {
    && (forall k :: 0 <= k <= |log| ==> InStep(log, k))
    && (forall k :: 0 <= k < |log| && log[k] == MessageComplete ==> !OpenAt(log, k))
    && (forall i, k :: 0 <= i < |log| && 0 <= k < |log| ==> BodyIsChunk(log, i, k))
  }

  lemma OrderlyIsBalanced(log: Log)
    requires Orderly(log)
    ensures Balanced(log)
  {
    hide PhaseOf, Headers, Completes, Announced, InChunks;
    forall k | 0 <= k <= |log| ensures InStep(log, k) {
      PrefixIsRight(log, k);
      OrderMeansBalance(log[..k]);
    }
    forall k | 0 <= k < |log| && log[k] == MessageComplete ensures !OpenAt(log, k) {
      PhaseStep(log, k);
      OrderMeansBalance(log[..k]);
    }
    forall i, k | 0 <= i < |log| && 0 <= k < |log| ensures BodyIsChunk(log, i, k) {
      BodyLiesInChunks(log, i, k);
    }
  }

  lemma PhaseStep(log: Log, k: nat)
    requires Orderly(log) && k < |log|
    ensures PhaseOf(log[..k + 1]) == Next(PhaseOf(log[..k]), log[k])
    ensures PhaseOf(log[..k]) != Wrong && PhaseOf(log[..k + 1]) != Wrong
  {
    PrefixIsRight(log, k);
    PrefixIsRight(log, k + 1);
    assert log[..k + 1][..k] == log[..k];
  }

  lemma BodyLiesInChunks(log: Log, header: nat, body: nat)
    requires Orderly(log) && header < |log| && body < |log|
    ensures BodyIsChunk(log, header, body)
  {
    hide PhaseOf, Headers, Completes, Announced, InChunks;
    if log[header].ChunkHeader? && IsBody(log[body]) {
      PhaseStep(log, header);
      PhaseStep(log, body);
      OrderMeansBalance(log[..body]);
      if header < body && SameMessage(log, header, body) {
        ChunkedStays(log, header + 1, body);
      } else if body < header && SameMessage(log, body, header) && !PhaseOf(log[..body]).Open? {
        PlainStays(log, body + 1, header);
      }
    }
  }

  /** Once a message has a chunk, it is between chunks or in one. */
  lemma {:induction false} ChunkedStays(log: Log, i: nat, k: nat)
    requires Orderly(log) && i <= k <= |log| && SameMessage(log, i, k)
    requires PhaseOf(log[..i]).Open? || PhaseOf(log[..i]).Between?
    ensures PhaseOf(log[..k]).Open? || PhaseOf(log[..k]).Between?
    decreases k
  {
    hide PhaseOf;
    if i < k {
      ChunkedStays(log, i, k - 1);
      PhaseStep(log, k - 1);
    }
  }

  /** Once a message has a body outside of chunks, nothing but more of it comes. */
  lemma {:induction false} PlainStays(log: Log, i: nat, k: nat)
    requires Orderly(log) && i <= k <= |log| && SameMessage(log, i, k) && PhaseOf(log[..i]).Plain?
    ensures PhaseOf(log[..k]).Plain?
    decreases k
  {
    hide PhaseOf;
    if i < k {
      PlainStays(log, i, k - 1);
      PhaseStep(log, k - 1);
    }
  }

  lemma {:induction false} PrefixIsRight(log: Log, k: nat)
    requires PhaseOf(log) != Wrong && k <= |log|
    ensures PhaseOf(log[..k]) != Wrong
    decreases |log|
  {
    if k < |log| {
      PrefixIsRight(log[..|log| - 1], k);
      assert log[..|log| - 1][..k] == log[..k];
    } else {
      assert log[..k] == log;
    }
  }
}
