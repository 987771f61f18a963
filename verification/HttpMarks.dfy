/**
 Data marks: where, in the buffer at hand, the bytes of a data callback that is still due begin.
 */
module HttpMarks {
  import opened Common
  import opened HttpTypes
  import opened HttpStep
  import opened HttpRun

  type Marks = map<DataField, nat>

  /** States entered with a mark set at the start of a buffer. */
  predicate InField(st: State) { InUrl(st) || st.ResStatus? || st.HeaderField? || st.HeaderValue? }

  /** The one mark that may be set in a state. */
  function FieldOf(st: State): (r: Option<DataField>) {
    if InUrl(st) then Some(Url)
    else if st.ResStatus? then Some(Status)
    else if st.HeaderField? then Some(FieldName)
    else if st.HeaderValue? then Some(FieldValue)
    else if st.BodyIdentity? || st.BodyIdentityEof? || st.ChunkData? || st.ChunkDataAlmostDone? then Some(Body)
    else None
  }

  predicate MarksOk(st: State, marks: Marks, p: nat) {
    forall d <- marks :: FieldOf(st) == Some(d) && marks[d] <= p
  }

  predicate Marked(st: State, marks: Marks) { InField(st) ==> FieldOf(st).value in marks }

  /** The log once the data callback that is due has been made. */
  ghost function Pend(st: State, log: Log, marks: Marks, data: seq<byte>, p: nat): (r: Log)
    requires MarksOk(st, marks, p) && p <= |data|
  {
    if FieldOf(st).Some? && FieldOf(st).value in marks
    then Emit(log, Data(FieldOf(st).value, data[marks[FieldOf(st).value]..p]))
    else log
  }

  /** Inside a field, some of its data has been reported or is due. */
  predicate LogFits(st: State, log: Log) {
    InField(st) ==> log != [] && log[|log| - 1].Data? && log[|log| - 1].field == FieldOf(st).value
  }

  function Mark(marks: Marks, d: DataField, p: nat): (r: Marks) { if d in marks then marks else marks[d := p] }

  /** The marks `http_parser_execute` starts with. */
  function FirstMarks(st: State): (marks: Marks)
    ensures MarksOk(st, marks, 0) && Marked(st, marks) && (marks != map[] ==> InField(st))
  {
    if st.HeaderField? then map[FieldName := 0]
    else if st.HeaderValue? then map[FieldValue := 0]
    else if InUrl(st) then map[Url := 0]
    else if st.ResStatus? then map[Status := 0]
    else map[]
  }

  lemma FirstMarksAddNothing(st: State, log: Log, data: seq<byte>)
    requires LogFits(st, log)
    ensures Pend(st, log, FirstMarks(st), data, 0) == log
  {
    if InField(st) {
      EmitNothing(log, FieldOf(st).value);
    }
  }

  lemma EmitNothing(log: Log, d: DataField)
    requires log != [] && log[|log| - 1].Data? && log[|log| - 1].field == d
    ensures Emit(log, Data(d, [])) == log
  {
    assert log[|log| - 1].bytes + [] == log[|log| - 1].bytes;
    assert log == log[..|log| - 1] + [log[|log| - 1]];
  }

  /** How a turn's callback and the marks before and after it go together. */
  predicate NoteFits(st0: State, c: byte, st1: State, note: Option<Event>) {
    match note
    case None => FieldOf(st0).None? && FieldOf(st1) in {None, Some(Body)} && !InField(st1)
    case Some(Data(d, bytes)) =>
      && (FieldOf(st0).Some? ==> FieldOf(st0).value == d && InField(st0))
      && if bytes == [] then FieldOf(st1).None? else FieldOf(st1) == Some(d) && bytes == [c]
    case Some(_) => FieldOf(st0).None? && FieldOf(st1) in {None, Some(Body)} && !InField(st1)
  }

  predicate Bulk(st: State) { st.BodyIdentity? || st.BodyIdentityEof? || st.ChunkData? || st.ChunkDataAlmostDone? }

  lemma LineNotesFit(f: Fields, c: byte, m: Move)
    requires m.Go?
    requires || (PartOf(f.st).StartPart? && m == StartMove(f.st, c))
             || (PartOf(f.st).ResponseLinePart? && m == ResponseLineMove(f.st, f.line, c))
    ensures NoteFits(f.st, c, m.st, m.note)
  {
  }

  lemma RequestNotesFit(f: Fields, c: byte)
    requires PartOf(f.st).RequestLinePart? && RequestLineMove(f.st, f.index, f.line, c).Go?
    ensures var m := RequestLineMove(f.st, f.index, f.line, c); NoteFits(f.st, c, m.st, m.note)
  {
  }

  lemma HeaderNotesFit(f: Fields, c: byte, env: Env)
    requires PartOf(f.st).HeaderPart? && HeaderMove(f, c, env).Go?
    ensures var m := HeaderMove(f, c, env); NoteFits(f.st, c, m.st, m.note)
  {
  }

  lemma ChunkNotesFit(f: Fields, c: byte)
    requires PartOf(f.st).ChunkPart? && !Bulk(f.st) && ChunkMove(f, c).Go?
    ensures var m := ChunkMove(f, c); NoteFits(f.st, c, m.st, m.note)
  {
  }

  lemma EndNotesFit(f: Fields, c: byte, env: Env)
    requires PartOf(f.st).HeadersEndPart? || f.st.MessageDone?
    requires MoveOf(f, c, env).Go?
    ensures var m := MoveOf(f, c, env); NoteFits(f.st, c, m.st, m.note)
  {
  }

  lemma NotesFit(f: Fields, c: byte, env: Env)
    requires !Bulk(f.st) && MoveOf(f, c, env).Go?
    ensures var m := MoveOf(f, c, env); NoteFits(f.st, c, m.st, m.note)
  {
    match PartOf(f.st)
    case StartPart | ResponseLinePart => LineNotesFit(f, c, MoveOf(f, c, env));
    case RequestLinePart => RequestNotesFit(f, c);
    case HeaderPart => HeaderNotesFit(f, c, env);
    case ChunkPart => ChunkNotesFit(f, c);
    case HeadersEndPart | BodyPart => EndNotesFit(f, c, env);
  }

  lemma SlicesJoin(data: seq<byte>, i: nat, j: nat, k: nat)
    requires i <= j <= k <= |data|
    ensures data[i..j] + data[j..k] == data[i..k]
  {
  }

  /** Data newly due, from `p` to `q`, is what a callback at `p` would have merged with. */
  lemma PendExtends(st0: State, st1: State, log: Log, marks: Marks, data: seq<byte>, p: nat, q: nat)
    requires p <= q <= |data| && MarksOk(st0, marks, p) && FieldOf(st1).Some?
    requires FieldOf(st0).None? || FieldOf(st0) == FieldOf(st1)
    ensures var d := FieldOf(st1).value;
            && MarksOk(st1, Mark(marks, d, p), q)
            && Pend(st1, log, Mark(marks, d, p), data, q) == Emit(Pend(st0, log, marks, data, p), Data(d, data[p..q]))
  {
    var d := FieldOf(st1).value;
    if d in marks {
      EmitMerges(log, d, data[marks[d]..p], data[p..q]);
      SlicesJoin(data, marks[d], p, q);
    }
  }
}
