/**
 The streaming parser itself: `http_parser_execute` with its buffers, data marks, fast paths, header-size count and
 pauses, proved against the reading of the buffer by `Skim`.
 */
module HttpParser {
  import opened Common
  import opened HttpTypes
  import opened HttpStep
  import opened HttpRun
  import opened HttpSkim
  import opened HttpMarks
  import opened HttpAhead
  import HttpEvents

  /** After a switch case: fetch the next byte, look at this one again, or leave `http_parser_execute`. */
  datatype Flow = Fetch | Reexecute | Return

  /** Between messages. */
  predicate AtStart(st: State) { st.Dead? || st.StartReqOrRes? || st.StartRes? || st.StartReq? }

  predicate Interrupted(errno: Errno) { errno == Paused || errno == CallbackFailed }

  /** What the application answers to a callback. */
  datatype Reply = Continue | Pause | Refuse

  /** How many of the first `n` callbacks got this reply. */
  ghost function Replies(reply: nat -> Reply, n: nat, r: Reply): (count: nat) {
    if n == 0 then 0 else Replies(reply, n - 1, r) + if reply(n - 1) == r then 1 else 0
  }

  /** How often callbacks paused the parser and failed, and how many header bytes went uncounted by it. */
  datatype Book = Book(pauses: nat, failures: nat, lost: nat)

  /** Too short for the 32-bit count of header bytes to wrap. */
  predicate Short(data: seq<byte>) { |data| + MAX_HEADER_SIZE < 0x1_0000_0000 }

  /** The error the reading comes to, but for the data callback that was due. */
  ghost predicate IsError(target: Outcome, log: Log, rest: seq<byte>, errno: Errno) {
    target.Failed? && target.errno == errno && target.rest == rest && UpToPending(log, target.log)
  }

  class Parser {
    const env: Env
    /** The application's answer to the n-th callback. */
    const reply: nat -> Reply

    var st: State
    var hs: HeaderState
    var index: nat
    var contentLength: uint64
    var flags: Flags
    var upgrade: bool
    var line: Line
    var nread: uint32
    var errno: Errno

    // Not in the source: what the application was told, in how many callbacks, and the true header-byte count.
    var log: Log
    var told: nat
    var seen: Bytes
    /** No buffer could make the 32-bit count wrap. */
    ghost var short: bool
    /** Header bytes used up but never counted. */
    ghost var lost: nat
    /** Calls of `Execute` so far. */
    ghost var calls: nat

    constructor (kind: ParserType, env: Env, reply: nat -> Reply)
      ensures Valid() && errno == Ok && log == [] && told == 0 && short && lost == 0 && calls == 0 && nread == 0
      ensures this.env == env && this.reply == reply
      ensures Snap() == Fields(
                if kind.Request? then StartReq else if kind.Response? then StartRes else StartReqOrRes,
                General, 0, 0, NO_FLAGS, false, Line(kind, 0, 0, 0, DELETE), Bytes(0, 0))
    {
      this.env, this.reply := env, reply;
      st := if kind.Request? then StartReq else if kind.Response? then StartRes else StartReqOrRes;
      hs, index, contentLength, flags, upgrade := General, 0, 0, NO_FLAGS, false;
      line := Line(kind, 0, 0, 0, DELETE);
      nread, errno, seen := 0, Ok, Bytes(0, 0);
      log, told, short, lost, calls := [], 0, true, 0, 0;
    }

    function Snap(): (r: Fields)
      reads this
    {
      Fields(st, hs, index, contentLength, flags, upgrade, line, seen)
    }

    /** How the application has interrupted the parser so far. */
    ghost function Now(): (book: Book)
      reads this
    {
      Book(Replies(reply, told, Pause), Replies(reply, told, Reply.Refuse), lost)
    }

    /**
     What has come of the callbacks since `book`: the parser is paused if and only if one of them paused it, has failed
     if and only if one of them failed, and only where a header value is interrupted at its CR do bytes go uncounted.
     */
    ghost predicate Since(book: Book)
      reads this
    {
      && Now().pauses == book.pauses + (if errno == Paused then 1 else 0)
      && Now().failures == book.failures + (if errno == CallbackFailed then 1 else 0)
      && book.lost <= lost && (book.lost < lost ==> Interrupted(errno) && st.HeaderAlmostDone?)
    }

    /** The header-byte count where `due` bytes are counted but not yet used up, and `over` will never be. */
    ghost predicate Counted(due: nat, over: nat)
      reads this
    {
      && nread <= MAX_HEADER_SIZE
      && (st.ChunkSizeStart? ==> nread == due)
      && (short ==> nread <= seen.now + due + calls + over)
      && (short ==> seen.now + due <= nread + lost && seen.most <= MAX_HEADER_SIZE + lost)
    }

    /** `k` bytes are used up but not counted yet. */
    ghost predicate Uncounted(k: nat)
      reads this
    {
      && nread <= MAX_HEADER_SIZE
      && (short ==> nread + k <= seen.now + 1 + calls)
      && (short ==> seen.now + 1 <= nread + k + lost)
      && (short ==> seen.most <= MAX_HEADER_SIZE + lost || seen.most == seen.now)
    }

    /** What holds between calls. */
    ghost predicate Valid()
      reads this
    {
      if Live(errno) then Sound(Snap(), log) && Counted(Due(false), 0) else HttpEvents.Orderly(log)
    }

    /** At position `p`, with `target` what the whole buffer comes to. */
    ghost predicate Here(target: Reading, data: seq<byte>, p: nat, marks: Marks)
      reads this
    {
      At(Snap(), log, marks, data, p, env, Short(data), target)
    }

    /** The byte to be looked at is counted already, if it will count: it is looked at again, now or after a pause. */
    ghost function Due(again: bool): (r: nat)
      reads this
    {
      if Counts(Snap()) && (again || st.MessageDone?) then 1 else 0
    }

    /** About to look at the byte at `p`, for the first time or again; or at the end of the buffer. */
    ghost predicate Going(target: Reading, data: seq<byte>, p: nat, marks: Marks, again: bool)
      reads this
    {
      && errno == Ok && p <= |data| && Here(target, data, p, marks) && Ready(Snap(), log, marks, data, p)
      && Counted(Due(again), if p == |data| then 1 else 0)
      && (short ==> Short(data))
      && (again ==> p < |data|)
    }

    /** On leaving with `n` bytes used up. */
    ghost predicate Left(target: Reading, data: seq<byte>, n: nat)
      reads this
    {
      && n <= |data|
      && (if Live(errno)
          then Here(target, data, n, map[]) && Counted(Due(false), 1)
          else HttpEvents.Orderly(log))
      && (errno == Ok ==> n == |data| || Upgraded(Snap(), log))
      && (errno == HeaderOverflow && short ==> MAX_HEADER_SIZE <= target.peak + calls)
      && (errno == HeaderOverflow && Short(data) ==> Passed(target, data, n, log, env))
      && (!Live(errno) && errno != HeaderOverflow && Short(data) ==> IsError(target.outcome, log, data[n..], errno))
    }

    /** A switch case entered at `p` has come to `r`: no byte is looked at twice in the same state. */
    ghost predicate Came(
      flow: Flow, target: Reading, data: seq<byte>, p: nat, r: nat, marks: Marks, rank: nat, since: Book)
      reads this
    {
      && (flow == Return ==> Left(target, data, r))
      && (flow != Return ==> Going(target, data, r, marks, flow == Reexecute))
      && (flow == Fetch ==> p < r)
      && (flow == Reexecute ==> p <= r && Rank(st) < rank)
      && (flow == Return && Live(errno) ==> p < r || (p == r && Rank(st) < rank))
      && Since(since)
    }

    /** Only `Execute` counts calls and buffers. */
    ghost predicate Kept(calls0: nat, short0: bool)
      reads this
    {
      calls == calls0 && short == short0
    }

    /** The buffer ends with one byte of a name, and the name began before it. */
    ghost predicate NameAlone(data: seq<byte>, p: nat)
      reads `st, `hs
    {
      st.HeaderField? && hs.General? && p + 1 == |data| && TokenOf(data[p]) != 0
    }

    /** The buffer ends with the CR of a value of no interest, and the application pauses when told of the value. */
    ghost predicate ValuePaused(data: seq<byte>, p: nat)
      reads `st, `hs, `told
    {
      && st.HeaderValue? && hs.General? && reply(told) == Pause
      && p + 1 < |data| <= p + MAX_HEADER_SIZE && data[|data| - 1] == CR
      && (forall i :: p <= i < |data| - 1 ==> Skippable(data[i]) && IsHeaderChar(data[i]))
    }

    /**
     Where the count goes astray, from `n`, the byte at hand included: a byte of a name alone is counted once more, and
     of a value that is interrupted no other byte is, though all are used up.
     */
    ghost predicate Astray(alone: bool, paused: bool, n: nat, all: bool)
      reads `nread, `errno
    {
      && (alone ==> if MAX_HEADER_SIZE < n + 1 then errno == HeaderOverflow else Live(errno) && nread == n + 1)
      && (paused ==> if MAX_HEADER_SIZE < n then errno == HeaderOverflow else errno == Paused && nread == n && all)
    }

    method Load(g: Fields)
      modifies this`st, this`hs, this`index, this`contentLength, this`flags, this`upgrade, this`line, this`seen
      ensures Snap() == g
    {
      st, hs, index, contentLength := g.st, g.hs, g.index, g.contentLength;
      flags, upgrade, line, seen := g.flags, g.upgrade, g.line, g.seen;
    }

    /** A callback; the application may pause the parser or report failure. */
    method Callback(ev: Event)
      requires errno == Ok
      modifies this`log, this`errno, this`told
      ensures log == Emit(old(log), ev) && Live(errno) && told == old(told) + 1
      ensures errno == Paused <==> reply(old(told)) == Pause
      ensures Since(old(Now()))
    {
      log, told := Emit(log, ev), told + 1;
      match reply(told - 1)
      case Continue =>
      case Pause => errno := Paused;
      case Refuse => errno := CallbackFailed;
    }

    /** `COUNT_HEADER_SIZE` */
    method Count(k: nat)
      requires errno == Ok
      modifies this`nread, this`errno
      ensures nread == (old(nread) + k) % 0x1_0000_0000
      ensures errno == if nread > MAX_HEADER_SIZE then HeaderOverflow else Ok
    {
      nread := (nread + k) % 0x1_0000_0000;
      if nread > MAX_HEADER_SIZE {
        errno := HeaderOverflow;
      }
    }

    /** `MARK`, `CALLBACK_DATA` and `CALLBACK_NOTIFY`: data is marked where it begins, and reported when it ends. */
    method Notify(note: Option<Event>, data: seq<byte>, p: nat, marks0: Marks) returns (marks: Marks)
      requires errno == Ok && p <= |data| && forall d <- marks0 :: marks0[d] <= p
      modifies this`log, this`errno, this`told
      ensures log == LogAfter(old(log), marks0, note, data, p) && marks == MarksAfter(marks0, note, p)
      ensures Live(errno) && Since(old(Now()))
      ensures !Whole(note) ==> errno == Ok
      ensures note == Some(MessageComplete) ==> log != [] && log[|log| - 1] == MessageComplete
      ensures Whole(note) && reply(old(told)) == Pause ==> errno == Paused
    {
      marks := marks0;
      if note.Some? {
        match note.value
        case Data(d, bytes) =>
          marks := Mark(marks, d, p);
          if bytes == [] {
            Callback(Data(d, data[marks[d]..p]));
            marks := marks - {d};
          }
        case ev => Callback(ev);
      }
    }

    /** The effects of a turn that does not fail. */
    method Advance(m: Move, data: seq<byte>, p: nat, marks0: Marks, ghost target: Reading)
      returns (r: nat, marks: Marks)
      requires errno == Ok && p < |data| && !Bulk(st) && m == MoveOf(Snap(), data[p], env) && m.Go?
      requires !Skims(Snap(), data[p], env)
      requires Here(target, data, p, marks0) && Ready(Snap(), log, marks0, data, p)
      modifies this
      ensures Kept(old(calls), old(short)) && Live(errno) && Since(old(Now()))
      ensures Here(target, data, r, marks)
      ensures st == m.st && r == (if m.consumed then p + 1 else p)
      ensures (!Whole(m.note) ==> errno == Ok) && (Whole(m.note) ==> marks == map[])
      ensures if m.note == Some(MessageComplete) && upgrade then Upgraded(Snap(), log)
              else Ready(Snap(), log, marks, data, r)
      ensures nread == (if Resets(old(st)) then 0 else old(nread)) && seen == SeenAfter(old(Snap()), m.consumed)
      ensures !m.consumed ==> Counts(Snap()) == old(Counts(Snap()))
      ensures lost == old(lost) && log == LogAfter(old(log), marks0, m.note, data, p)
      ensures Whole(m.note) && reply(old(told)) == Pause ==> errno == Paused
    {
      hide MoveOf, EffectOf, After, Sound, Pend, MarksAfter, LogAfter, Counts, Resets, Rank, Marked, Bulk, Ahead,
           Skims, Leads, Replies;
      TurnReady(Snap(), log, marks0, data, p, env, Short(data), target);
      PlaceAssertions(Snap(), log, marks0, data, p, env, Short(data), target);
      Progress(Snap(), data[p], env);
      Step(data[p]);
      r := if m.consumed then p + 1 else p;
      marks := Notify(m.note, data, p, marks0);
    }

    /** The new fields, and the count of header bytes where it starts afresh. */
    method Step(c: byte)
      requires MoveOf(Snap(), c, env).Go?
      modifies this`st, this`hs, this`index, this`contentLength, this`flags, this`upgrade, this`line, this`seen,
               this`nread
      ensures Snap() == After(old(Snap()), c, env) && nread == if Resets(old(st)) then 0 else old(nread)
    {
      hide MoveOf, EffectOf, After;
      if Resets(st) {
        nread := 0;
      }
      Load(After(Snap(), c, env));
    }

    /** `SET_ERRNO` and `goto error`; `f` are the fields as the case at hand holds them. */
    method Refuse(
      e: Errno, ghost f: Fields, data: seq<byte>, p: nat, ghost marks: Marks, ghost target: Reading)
      requires p < |data| && MoveOf(f, data[p], env) == Fail(e)
      requires At(f, log, marks, data, p, env, Short(data), target) && Ready(f, log, marks, data, p)
      modifies this`errno
      ensures errno == e && !Live(e) && Left(target, data, p)
    {
      hide MoveOf, EffectOf, At, Ready, UpToPending, HttpEvents.Orderly, Passed, Replies;
      RefusedAt(f, log, marks, data, p, env, Short(data), target);
      errno := e;
    }

    /** `COUNT_HEADER_SIZE` has found too many header bytes. */
    lemma Overflowed(data: seq<byte>, p: nat, marks: Marks, faithful: bool, target: Reading)
      requires errno == HeaderOverflow && At(Snap(), log, marks, data, p, env, faithful, target)
      requires short ==> MAX_HEADER_SIZE <= target.peak + calls
      requires !faithful && Short(data) ==> Passed(target, data, p, log, env)
      ensures Left(target, data, p)
    {
      if faithful { AtPasses(Snap(), log, marks, data, p, env, p, target); }
      hide Passed;
      AtIsOrderly(Snap(), log, marks, data, p, env, faithful, target);
      hide Sound, Ahead, HttpEvents.Orderly, Passed, Replies;
    }

    lemma TurnAssertions(data: seq<byte>, p: nat, marks: Marks, target: Reading)
      requires Going(target, data, p, marks, true)
      ensures FieldsOk(Snap())
      ensures st.ChunkSizeStart? ==> nread == 1
      ensures InChunk(st) ==> flags.chunked
      ensures st.BodyIdentity? || st.ChunkData? ==> contentLength != 0 && contentLength != MAX64
      ensures st.ChunkDataAlmostDone? ==> contentLength == 0
    {
      PlaceAssertions(Snap(), log, marks, data, p, env, Short(data), target);
      AssertionsHold(Snap());
      hide Ready, At, FieldsOk;
    }

    /** One case of the switch that looks at a single byte. */
    method Turn(data: seq<byte>, p: nat, marks0: Marks, ghost target: Reading)
      returns (flow: Flow, r: nat, marks: Marks)
      requires Going(target, data, p, marks0, true) && !Bulk(st) && !Skims(Snap(), data[p], env)
      modifies this
      ensures Came(flow, target, data, p, r, marks, Rank(old(st)), old(Now())) && Kept(old(calls), old(short))
    {
      hide MoveOf, EffectOf, After, FieldOf, InField, Upgraded, Rank, Bulk, IsError, Resets, Ready, Skims,
           HttpEvents.Orderly, Passed, Replies;
      var m := MoveOf(Snap(), data[p], env);
      TurnAssertions(data, p, marks0, target);
      hide FieldsOk, Counts, At, IsError;
      assert st.ChunkSizeStart? ==> nread == 1;
      assert InChunk(st) ==> flags.chunked;
      assert st.BodyIdentity? || st.ChunkData? ==> contentLength != 0 && contentLength != MAX64;
      assert st.ChunkDataAlmostDone? ==> contentLength == 0;
      if m.Fail? {
        Refuse(m.errno, Snap(), data, p, marks0, target);
        return Return, p, marks0;
      }
      flow, r, marks := Proceed(m, data, p, marks0, target);
    }

    /** A case of the switch that does not fail. */
    method Proceed(m: Move, data: seq<byte>, p: nat, marks0: Marks, ghost target: Reading)
      returns (flow: Flow, r: nat, marks: Marks)
      requires Going(target, data, p, marks0, true) && !Bulk(st) && !Skims(Snap(), data[p], env)
      requires FieldsOk(Snap()) && m == MoveOf(Snap(), data[p], env) && m.Go?
      modifies this
      ensures Came(flow, target, data, p, r, marks, Rank(old(st)), old(Now())) && Kept(old(calls), old(short))
    {
      hide MoveOf, EffectOf, After, Upgraded, Rank, Bulk, IsError, Resets, Ready, Skims, FieldsOk, Counts, At,
           HttpEvents.Orderly, Passed, Replies;
      Progress(Snap(), data[p], env);
      r, marks := Advance(m, data, p, marks0, target);
      flow := if errno != Ok || (m.note == Some(MessageComplete) && upgrade) then Return
              else if m.consumed then Fetch else Reexecute;
    }

    /** The reading has been through as many header bytes as are used up. */
    lemma PeakReached(data: seq<byte>, p: nat, marks: Marks, target: Reading)
      requires Here(target, data, p, marks)
      ensures Short(data) ==> seen.now <= target.peak
    {
      hide At;
      AtIsOrderly(Snap(), log, marks, data, p, env, Short(data), target);
    }

    // ---------- header fields ----------

    /** One more byte of a field name. */
    method NameByte(data: seq<byte>, p: nat, ghost marks: Marks, ghost target: Reading)
      requires p < |data| && st.HeaderField? && TokenOf(data[p]) != 0 && !SecondLength(Snap(), data[p])
      requires Here(target, data, p, marks) && Ready(Snap(), log, marks, data, p)
      modifies this`st, this`hs, this`index, this`contentLength, this`flags, this`upgrade, this`line, this`seen
      ensures st.HeaderField? && seen == More(old(seen), 1)
      ensures Here(target, data, p + 1, marks) && Ready(Snap(), log, marks, data, p + 1)
    {
      hide MoveOf, EffectOf, After, At, Ready, NameEffect, SecondLength;
      NameStep(Snap(), data[p], env);
      NameIsField(st);
      FieldByteKeepsPlace(Snap(), log, marks, data, p, env, Short(data), target, FieldName);
      Load(NameEffect(Snap(), data[p]).(st := HeaderField, seen := More(seen, 1)));
    }

    /** The bytes of a name up to one that is no token, the end of the buffer, or an error. */
    method NameBytes(data: seq<byte>, p: nat, ghost marks: Marks, ghost target: Reading) returns (r: nat)
      requires errno == Ok && p < |data| && st.HeaderField?
      requires Here(target, data, p, marks) && Ready(Snap(), log, marks, data, p)
      modifies this`st, this`hs, this`index, this`contentLength, this`flags, this`upgrade, this`line, this`seen,
               this`errno
      ensures p <= r <= |data| && (errno == Ok || !Live(errno))
      ensures errno != Ok ==> Left(target, data, r)
      ensures errno == Ok ==> st.HeaderField? && seen == More(old(seen), r - p)
      ensures errno == Ok ==> Here(target, data, r, marks) && Ready(Snap(), log, marks, data, r)
      ensures old(NameAlone(data, p)) ==> errno == Ok && r == |data|
    {
      hide MoveOf, EffectOf, After, At, Ready, NameEffect, SecondLength, TokenOf, Left;
      r := p;
      while r < |data| && TokenOf(data[r]) != 0
        invariant p <= r <= |data| && errno == Ok && st.HeaderField? && seen == More(old(seen), r - p)
        invariant Here(target, data, r, marks) && Ready(Snap(), log, marks, data, r)
        invariant r == p ==> hs == old(hs)
      {
        PlaceAssertions(Snap(), log, marks, data, r, env, Short(data), target);
        assert NameState(hs);
        GeneralIsNoLength(Snap(), data[r]);
        if SecondLength(Snap(), data[r]) {
          NameStep(Snap(), data[r], env);
          Refuse(UnexpectedContentLength, Snap(), data, r, marks, target);
          return;
        }
        NameByte(data, r, marks, target);
        r := r + 1;
      }
    }

    /** The bytes of a name are counted. */
    method CountName(data: seq<byte>, start: nat, p: nat, ghost marks: Marks, ghost target: Reading)
      requires errno == Ok && start <= p <= |data| && start < |data| && st.HeaderField? && Uncounted(p - start)
      requires Here(target, data, p, marks) && Ready(Snap(), log, marks, data, p) && (short ==> Short(data))
      modifies this`nread, this`errno
      ensures errno == Ok || errno == HeaderOverflow
      ensures if errno == Ok then Going(target, data, p, marks, p < |data|) else Left(target, data, p)
      ensures p == start + 1 ==> if MAX_HEADER_SIZE < old(nread) + 1 then errno != Ok
                               else errno == Ok && nread == old(nread) + 1
    {
      hide At, Ready, IsError, Upgraded, HttpEvents.Orderly, Passed;
      Count(p - start);
      PeakReached(data, p, marks, target);
      if errno != Ok {
        Overflowed(data, p, marks, Short(data), target);
      }
    }

    /** `s_header_field`: the whole name, as far as it is in the buffer. */
    method Name(data: seq<byte>, p: nat, marks0: Marks, ghost target: Reading)
      returns (flow: Flow, r: nat, marks: Marks)
      requires Going(target, data, p, marks0, true) && st.HeaderField?
      modifies this
      ensures Came(flow, target, data, p, r, marks, Rank(old(st)), old(Now())) && Kept(old(calls), old(short))
      ensures Astray(old(NameAlone(data, p)), false, old(nread), r == |data|)
      ensures old(NameAlone(data, p)) ==> flow != Reexecute
    {
      hide At, Ready, Left, Replies;
      flow, marks := Fetch, marks0;
      r := NameBytes(data, p, marks, target);
      if errno == Ok {
        CountName(data, p, r, marks, target);
      }
      if errno != Ok {
        flow := Return;
      } else if r < |data| {
        flow, r, marks := Turn(data, r, marks, target);
      }
    }

    /** `memchr`: the first `c` among the `limit` bytes from `from`, or -1. */
    method MemChr(data: seq<byte>, from: nat, limit: nat, c: byte) returns (i: int)
      requires from + limit <= |data|
      ensures i == -1 || (from <= i < from + limit && data[i] == c)
      ensures forall j :: from <= j < (if i == -1 then from + limit else i) ==> data[j] != c
    {
      i := from;
      while i < from + limit
        invariant from <= i <= from + limit
        invariant forall j :: from <= j < i ==> data[j] != c
      {
        if data[i] == c {
          return;
        }
        i := i + 1;
      }
      return -1;
    }

    /** Where a value that is not examined ends in the buffer, looking no further than a header may reach. */
    method SkipTo(data: seq<byte>, p: nat) returns (q: nat, ghost over: bool)
      requires p < |data| && Skippable(data[p])
      ensures p < q <= |data| && (q < |data| ==> !Skippable(data[q]))
      ensures !over ==> forall i :: p <= i < q ==> Skippable(data[i])
      ensures over ==> q == |data| && p + MAX_HEADER_SIZE < |data|
      ensures over ==> forall i :: p <= i < p + MAX_HEADER_SIZE ==> Skippable(data[i])
    {
      var limit := if |data| - p < MAX_HEADER_SIZE then |data| - p else MAX_HEADER_SIZE;
      var cr := MemChr(data, p, limit, CR);
      var lf := MemChr(data, p, limit, LF);
      over := cr == -1 && lf == -1 && limit < |data| - p;
      if cr != -1 {
        q := if lf != -1 && cr >= lf then lf else cr;
      } else if lf != -1 {
        q := lf;
      } else {
        q := |data|;
      }
    }

    /** One more byte of a value that is examined; `h` is the header state, written back later. */
    method ValueByte(h: HeaderState, data: seq<byte>, p: nat, ghost marks: Marks, ghost faithful: bool,
                     ghost target: Reading)
      returns (h1: HeaderState)
      requires p < |data| && st.HeaderValue? && Skippable(data[p]) && (env.lenient || IsHeaderChar(data[p]))
      requires !h.General? && (h.ContentLength? ==> !BadLengthByte(contentLength, data[p]))
      requires var f := Snap().(hs := h);
               At(f, log, marks, data, p, env, faithful, target) && Ready(f, log, marks, data, p)
      modifies this`index, this`contentLength, this`flags, this`seen
      ensures seen == More(old(seen), 1)
      ensures var f := Snap().(hs := h1);
              At(f, log, marks, data, p + 1, env, faithful, target) && Ready(f, log, marks, data, p + 1)
    {
      hide MoveOf, EffectOf, After, At, Ready, ValueMatch, FieldOf, InField;
      ghost var f := Snap().(hs := h);
      var m := ValueMatch(Matcher(h, index), data[p]);
      ValueStep(f, data[p], env);
      ValueIsField(st);
      FieldByteKeepsPlace(f, log, marks, data, p, env, faithful, target, FieldValue);
      if h.ContentLength? && data[p] != SP {
        contentLength := contentLength * 10 + (data[p] - 48);
      }
      if IsOption(h) && data[p] == ',' as int {
        flags := Settled(h, flags);
      }
      h1, index, seen := m.hs, m.index, More(seen, 1);
      assert Snap().(hs := h1) == ValueEffect(f, data[p]).(st := HeaderValue, seen := More(f.seen, 1));
    }

    /** Skip ahead to the end of a value that is not examined, or beyond it where no header may reach. */
    method Skip(h: HeaderState, data: seq<byte>, p: nat, ghost marks: Marks, ghost target: Reading)
      returns (q: nat, ghost over: bool)
      requires p < |data| && Skims(Snap().(hs := h), data[p], env)
      requires InValue(h, data, p, marks, target, false)
      modifies this`seen
      ensures p < q <= |data| && seen == More(old(seen), q - p) && (q < |data| ==> !Skippable(data[q]))
      ensures !over ==> forall i :: p <= i < q ==> Skippable(data[i])
      ensures InValue(h, data, q, marks, target, over) && (over ==> Overran(data, p, q, target))
    {
      ghost var f := Snap().(hs := h);
      q, over := SkipTo(data, p);
      hide At, Ready, Skippable, Skims;
      if over {
        OverrunPlace(f, log, marks, data, p, env, Short(data), target);
      } else {
        SkipKeepsPlace(f, log, marks, data, p, q, env, Short(data), target);
      }
      seen := More(seen, q - p);
      assert Snap().(hs := h) == f.(seen := More(f.seen, q - p));
    }

    /** A skip went to the end of the buffer, over more than a header section may hold. */
    ghost predicate Overran(data: seq<byte>, start: nat, p: nat, target: Reading)
      reads this
    {
      && p == |data| && start + MAX_HEADER_SIZE < p
      && (Short(data) ==> MAX_HEADER_SIZE <= target.peak && Passed(target, data, p, log, env))
    }

    /** Where a value stands, `h` its header state; `over` if a skip went beyond what a header may reach. */
    ghost predicate InValue(
      h: HeaderState, data: seq<byte>, p: nat, marks: Marks, target: Reading, over: bool) reads this
    {
      var f := Snap().(hs := h);
      At(f, log, marks, data, p, env, Short(data) && !over, target) && Ready(f, log, marks, data, p)
    }

    /** The switch on the header state, for one byte of a value. */
    method ValueTurn(h0: HeaderState, data: seq<byte>, p: nat, ghost marks: Marks, ghost target: Reading)
      returns (r: nat, h: HeaderState, ghost over: bool)
      requires errno == Ok && p < |data| && st.HeaderValue? && Skippable(data[p])
      requires InValue(h0, data, p, marks, target, false)
      modifies this`hs, this`index, this`contentLength, this`flags, this`seen, this`errno
      ensures errno == Ok || !Live(errno)
      ensures errno != Ok ==> r == p && Left(target, data, r)
      ensures errno == Ok ==> p < r <= |data| && seen == More(old(seen), r - p)
      ensures errno == Ok ==> InValue(h, data, r, marks, target, over) && (over ==> Overran(data, p, r, target))
      ensures h0.General? && IsHeaderChar(data[p]) ==>
                errno == Ok && h.General? && (r < |data| ==> !Skippable(data[r]))
                && (!over ==> forall i :: p <= i < r ==> Skippable(data[i]))
    {
      hide MoveOf, EffectOf, After, At, Ready, BadLengthByte, Left, Overran;
      r, h, over := p, h0, false;
      ghost var f := Snap().(hs := h);
      ValueStep(f, data[p], env);
      PlaceAssertions(f, log, marks, data, p, env, Short(data), target);
      assert !h.Connection? && !h.TransferEncoding?;
      if !env.lenient && !IsHeaderChar(data[p]) {
        Refuse(InvalidHeaderToken, f, data, p, marks, target);
      } else if h.General? {
        r, over := Skip(h, data, p, marks, target);
      } else if h.ContentLength? && BadLengthByte(contentLength, data[p]) {
        hs := h;
        Refuse(InvalidContentLength, f, data, p, marks, target);
      } else {
        h := ValueByte(h, data, p, marks, Short(data), target);
        r := p + 1;
      }
    }

    /** The bytes of a value up to its CR or LF, the end of the buffer, or an error. */
    method ValueBytes(data: seq<byte>, p: nat, ghost marks: Marks, ghost target: Reading)
      returns (r: nat, h: HeaderState, ghost over: bool)
      requires errno == Ok && p < |data| && st.HeaderValue? && InValue(hs, data, p, marks, target, false)
      modifies this`hs, this`index, this`contentLength, this`flags, this`seen, this`errno
      ensures p <= r <= |data| && (errno == Ok || !Live(errno))
      ensures errno != Ok ==> Left(target, data, r)
      ensures errno == Ok ==> seen == More(old(seen), r - p) && (r < |data| ==> data[r] == CR || data[r] == LF)
      ensures errno == Ok ==> InValue(h, data, r, marks, target, over) && (over ==> Overran(data, p, r, target))
      ensures old(ValuePaused(data, p)) ==> errno == Ok && r == |data| - 1
    {
      hide InValue, Left;
      r, h, over := p, hs, false;
      while r < |data| && data[r] != CR && data[r] != LF
        invariant p <= r <= |data| && errno == Ok && seen == More(old(seen), r - p)
        invariant InValue(h, data, r, marks, target, over) && (over ==> Overran(data, p, r, target))
        invariant old(ValuePaused(data, p)) ==> h.General? && (r == p || r == |data| - 1)
      {
        r, h, over := ValueTurn(h, data, r, marks, target);
        if errno != Ok {
          return;
        }
      }
    }

    /** `s_header_value`: the value as far as it is in the buffer; the header state is kept in `h` meanwhile. */
    method Value(data: seq<byte>, p: nat, marks0: Marks, ghost target: Reading)
      returns (flow: Flow, r: nat, marks: Marks)
      requires Going(target, data, p, marks0, true) && st.HeaderValue?
      modifies this
      ensures Came(flow, target, data, p, r, marks, Rank(old(st)), old(Now())) && Kept(old(calls), old(short))
      ensures Astray(false, old(ValuePaused(data, p)), old(nread), r == |data|)
    {
      hide At, Ready, Left, Upgraded, Replies;
      flow, marks := Fetch, marks0;
      var h;
      ghost var over;
      assert Snap().(hs := hs) == Snap();
      r, h, over := ValueBytes(data, p, marks, target);
      if errno != Ok {
        flow := Return;
      } else {
        hs := h;
        if r < |data| && data[r] == CR {
          flow, r, marks := ValueEnd(data, p, r, marks, target);
        } else {
          flow, r, marks := ValueStops(data, p, r, marks, over, target);
        }
      }
    }

    /** LF, or the end of the buffer: the bytes are counted before the value is reported. */
    method ValueStops(
      data: seq<byte>, start: nat, p: nat, marks0: Marks, ghost over: bool, ghost target: Reading)
      returns (flow: Flow, r: nat, marks: Marks)
      requires errno == Ok && start <= p <= |data| && start < |data| && st.HeaderValue?
      requires (p < |data| ==> data[p] == LF)
      requires InValue(hs, data, p, marks0, target, over) && (over ==> Overran(data, start, p, target))
      requires Uncounted(p - start) && (short ==> Short(data))
      modifies this
      ensures Came(flow, target, data, start, r, marks, Rank(old(st)), old(Now())) && Kept(old(calls), old(short))
    {
      hide MoveOf, EffectOf, At, Ready, IsError, HttpEvents.Orderly, Passed, Replies;
      flow, r, marks := Fetch, p, marks0;
      assert Snap().(hs := hs) == Snap();
      Count(r - start);
      if errno != Ok {
        if !over { PeakReached(data, r, marks, target); }
        Overflowed(data, r, marks, Short(data) && !over, target);
        flow := Return;
      } else if r < |data| {
        flow, r, marks := Turn(data, r, marks, target);
      }
    }

    /** The value is reported; if that interrupts the parser, its bytes are never counted. */
    method ReportValue(data: seq<byte>, start: nat, p: nat, marks0: Marks, ghost target: Reading) returns (marks: Marks)
      requires errno == Ok && start <= p < |data| && st.HeaderValue? && data[p] == CR
      requires Here(target, data, p, marks0) && Ready(Snap(), log, marks0, data, p)
      requires Uncounted(p - start) && (short ==> Short(data))
      modifies this
      ensures Kept(old(calls), old(short)) && Since(old(Now())) && st.HeaderAlmostDone? && Live(errno)
      ensures errno != Ok ==> Left(target, data, p + 1)
      ensures nread == old(nread) && (errno != Ok ==> lost == old(lost) + (p - start))
      ensures reply(old(told)) == Pause ==> errno == Paused
      ensures errno == Ok ==>
                && Here(target, data, p + 1, marks) && Ready(Snap(), log, marks, data, p + 1)
                && Uncounted(p - start + 1) && (Short(data) ==> Passed(target, data, p, log, env))
    {
      hide MoveOf, EffectOf, After, At, Ready, Passed, LogAfter, HttpEvents.Orderly, Replies, Skims, Bulk, Resets,
           SeenAfter, IsError, Upgraded, Leads;
      ValueEndMove(Snap(), env);
      if Short(data) { ValueIsTold(Snap(), log, marks0, data, p, env, target); }
      var r;
      r, marks := Advance(Note(HeaderAlmostDone, Data(FieldValue, [])), data, p, marks0, target);
      if errno != Ok {
        lost := lost + (p - start);
      }
    }

    /** The value is reported: its bytes are counted. */
    method CountValue(data: seq<byte>, start: nat, p: nat, marks: Marks, ghost target: Reading)
      returns (flow: Flow, r: nat)
      requires errno == Ok && start <= p < |data| && st.HeaderAlmostDone?
      requires Here(target, data, p + 1, marks) && Ready(Snap(), log, marks, data, p + 1)
      requires Uncounted(p - start + 1) && (short ==> Short(data))
      requires Short(data) ==> Passed(target, data, p, log, env)
      modifies this`nread, this`errno
      ensures flow == (if errno == Ok then Fetch else Return) && r == (if errno == Ok then p + 1 else p)
      ensures errno == Ok || errno == HeaderOverflow
      ensures flow == Return ==> Left(target, data, r)
      ensures flow == Fetch ==> Going(target, data, r, marks, false)
    {
      hide At, Ready, Passed, HttpEvents.Orderly, IsError;
      Count(p - start);
      PeakReached(data, p + 1, marks, target);
      AtIsOrderly(Snap(), log, marks, data, p + 1, env, Short(data), target);
      flow, r := if errno == Ok then Fetch else Return, if errno == Ok then p + 1 else p;
    }

    /** CR ends the value: it is reported before its bytes are counted. */
    method ValueEnd(data: seq<byte>, start: nat, p: nat, marks0: Marks, ghost target: Reading)
      returns (flow: Flow, r: nat, marks: Marks)
      requires errno == Ok && start <= p < |data| && st.HeaderValue? && data[p] == CR
      requires Here(target, data, p, marks0) && Ready(Snap(), log, marks0, data, p)
      requires Uncounted(p - start) && (short ==> Short(data))
      modifies this
      ensures Kept(old(calls), old(short)) && flow != Reexecute && (Live(errno) ==> start < r)
      ensures Since(old(Now()))
      ensures flow == Return ==> Left(target, data, r)
      ensures flow == Fetch ==> Going(target, data, r, marks, false)
      ensures reply(old(told)) == Pause ==> errno == Paused && nread == old(nread) && r == p + 1
    {
      hide At, Ready, Passed, HttpEvents.Orderly, Replies, IsError, Left, Uncounted, Upgraded;
      marks := ReportValue(data, start, p, marks0, target);
      if errno != Ok {
        return Return, p + 1, marks;
      }
      flow, r := CountValue(data, start, p, marks, target);
    }

    // ---------- bodies ----------

    /** `s_body_identity` and `s_chunk_data`: as much of the body as is in the buffer. */
    method Content(data: seq<byte>, p: nat, marks0: Marks, ghost target: Reading)
      returns (flow: Flow, r: nat, marks: Marks)
      requires Going(target, data, p, marks0, true) && (st.BodyIdentity? || st.ChunkData?)
      modifies this
      ensures Came(flow, target, data, p, r, marks, Rank(old(st)), old(Now())) && Kept(old(calls), old(short))
    {
      hide At, Ready, Left, FieldsOk, Counted, Due;
      var toRead := if contentLength < |data| - p then contentLength else |data| - p;
      TurnAssertions(data, p, marks0, target);
      assert contentLength != 0 && contentLength != MAX64;
      if st.BodyIdentity? && toRead == contentLength {
        r := p + toRead - 1;
        flow, marks := ContentEnd(data, p, toRead, marks0, target);
      } else {
        flow, r := Fetch, p + toRead;
        marks := ContentPart(data, p, toRead, marks0, target);
      }
    }

    /** More of the body is to come, or it is a chunk's. */
    method ContentPart(data: seq<byte>, p: nat, k: nat, marks0: Marks, ghost target: Reading)
      returns (marks: Marks)
      requires 0 < k <= |data| - p && k <= contentLength < MAX64
      requires (st.ChunkData? || (st.BodyIdentity? && k < contentLength))
      requires Going(target, data, p, marks0, true)
      modifies this`contentLength, this`st
      ensures Going(target, data, p + k, marks, false)
    {
      hide At, Ready;
      BodyKeepsPlace(Snap(), log, marks0, data, p, k, env, Short(data), target);
      marks := Mark(marks0, Body, p);
      TakeBody(k);
    }

    /** `k` bytes of the body are taken. */
    method TakeBody(k: nat)
      requires 0 < k <= contentLength < MAX64 && (st.ChunkData? || st.BodyIdentity?)
      modifies this`contentLength, this`st
      ensures Snap() == AfterBody(old(Snap()), k)
    {
      contentLength := contentLength - k;
      if contentLength == 0 {
        st := if st.BodyIdentity? then MessageDone else ChunkDataAlmostDone;
      }
    }

    /** The body is complete: it is reported at once, and its last byte looked at again. */
    method ContentEnd(data: seq<byte>, p: nat, k: nat, marks0: Marks, ghost target: Reading)
      returns (flow: Flow, marks: Marks)
      requires 0 < k <= |data| - p && k == contentLength < MAX64 && st.BodyIdentity?
      requires Going(target, data, p, marks0, true)
      modifies this`contentLength, this`st, this`log, this`errno, this`told
      ensures st == MessageDone && flow != Fetch && Since(old(Now()))
      ensures flow == Return ==> Interrupted(errno)
      ensures flow == Return ==> Left(target, data, p + k - 1)
      ensures flow == Reexecute ==> Going(target, data, p + k - 1, marks, true)
    {
      hide At, Ready, FieldsOk, IsError, Upgraded, Replies;
      PlaceAssertions(Snap(), log, marks0, data, p, env, Short(data), target);
      NoTrailer(Snap());
      flow, marks := ReportBody(data, p, k, marks0, target);
    }

    method ReportBody(data: seq<byte>, p: nat, k: nat, marks0: Marks, ghost target: Reading)
      returns (flow: Flow, marks: Marks)
      requires errno == Ok && 0 < k <= |data| - p && k == contentLength < MAX64 && st.BodyIdentity?
      requires Here(target, data, p, marks0) && Ready(Snap(), log, marks0, data, p)
      modifies this`contentLength, this`st, this`log, this`errno, this`told
      ensures st == MessageDone && Live(errno) && Since(old(Now()))
      ensures flow == (if errno == Ok then Reexecute else Return) && marks == map[]
      ensures Here(target, data, p + k - 1, marks) && Ready(Snap(), log, marks, data, p + k - 1)
    {
      hide At, Ready, Emit, Replies;
      BodyEndKeepsPlace(Snap(), log, marks0, data, p, k, env, Short(data), target);
      marks := Mark(marks0, Body, p);
      TakeBody(k);
      assert st == MessageDone;
      hide AfterBody;
      Callback(Data(Body, data[marks[Body]..p + k]));
      marks := marks - {Body};
      flow := if errno == Ok then Reexecute else Return;
    }

    /** `s_body_identity_eof`: the whole buffer is body. */
    method ContentToEof(data: seq<byte>, p: nat, marks0: Marks, ghost target: Reading)
      returns (flow: Flow, r: nat, marks: Marks)
      requires Going(target, data, p, marks0, true) && st.BodyIdentityEof?
      ensures Came(flow, target, data, p, r, marks, Rank(st), Now())
    {
      hide Ready, At;
      BodyKeepsPlace(Snap(), log, marks0, data, p, |data| - p, env, Short(data), target);
      flow, r, marks := Fetch, |data|, Mark(marks0, Body, p);
    }

    /** `s_chunk_data_almost_done`: what is due of the chunk is reported. */
    method ChunkEnd(data: seq<byte>, p: nat, marks0: Marks, ghost target: Reading)
      returns (flow: Flow, r: nat, marks: Marks)
      requires Going(target, data, p, marks0, true) && st.ChunkDataAlmostDone?
      modifies this
      ensures Came(flow, target, data, p, r, marks, Rank(old(st)), old(Now())) && Kept(old(calls), old(short))
    {
      hide MoveOf, EffectOf, Ready, At, Emit, IsError, FieldsOk, HttpEvents.Orderly, Passed, Replies;
      TurnAssertions(data, p, marks0, target);
      assert flags.chunked && contentLength == 0;
      marks := marks0;
      if data[p] != CR {
        ChunkEndMove(Snap(), data[p], env);
        Refuse(Strict, Snap(), data, p, marks0, target);
        return Return, p, marks;
      }
      r := p + 1;
      flow, marks := ReportChunk(data, p, marks, target);
    }

    method ReportChunk(data: seq<byte>, p: nat, marks0: Marks, ghost target: Reading)
      returns (flow: Flow, marks: Marks)
      requires errno == Ok && st.ChunkDataAlmostDone? && p < |data| && data[p] == CR
      requires Here(target, data, p, marks0) && Ready(Snap(), log, marks0, data, p)
      modifies this`st, this`log, this`errno, this`told
      ensures st == ChunkDataDone && Live(errno) && Since(old(Now()))
      ensures flow == (if errno == Ok then Fetch else Return) && marks == map[]
      ensures Here(target, data, p + 1, marks) && Ready(Snap(), log, marks, data, p + 1)
    {
      hide Ready, At, Emit, Replies;
      ChunkEndKeepsPlace(Snap(), log, marks0, data, p, env, Short(data), target);
      st := ChunkDataDone;
      flow, marks := Flush(Body, data, p, marks0);
    }

    /** `CALLBACK_DATA` and `CALLBACK_DATA_NOADVANCE`: report what is due of a field, if anything. */
    method Flush(d: DataField, data: seq<byte>, p: nat, marks0: Marks) returns (flow: Flow, marks: Marks)
      requires errno == Ok && p <= |data| && forall k <- marks0 :: marks0[k] <= p
      modifies this`log, this`errno, this`told
      ensures log == if d in marks0 then Emit(old(log), Data(d, data[marks0[d]..p])) else old(log)
      ensures marks == marks0 - {d} && Live(errno) && Since(old(Now()))
      ensures flow == if errno == Ok then Fetch else Return
      ensures d !in marks0 ==> flow == Fetch
    {
      flow, marks := Fetch, marks0;
      if d in marks {
        Callback(Data(d, data[marks[d]..p]));
        marks := marks - {d};
        if errno != Ok {
          flow := Return;
        }
      }
    }

    // ---------- http_parser_execute ----------

    /** The switch on the state. */
    method Switch(data: seq<byte>, p: nat, marks0: Marks, ghost target: Reading)
      returns (flow: Flow, r: nat, marks: Marks)
      requires Going(target, data, p, marks0, true)
      modifies this
      ensures Came(flow, target, data, p, r, marks, Rank(old(st)), old(Now())) && Kept(old(calls), old(short))
      ensures Astray(old(NameAlone(data, p)), old(ValuePaused(data, p)), old(nread), r == |data|)
      ensures old(NameAlone(data, p)) ==> flow != Reexecute
    {
      hide Left, Going;
      if st.HeaderField? {
        flow, r, marks := Name(data, p, marks0, target);
      } else if st.HeaderValue? {
        flow, r, marks := Value(data, p, marks0, target);
      } else if st.BodyIdentity? || st.ChunkData? {
        flow, r, marks := Content(data, p, marks0, target);
      } else if st.BodyIdentityEof? {
        flow, r, marks := ContentToEof(data, p, marks0, target);
      } else if st.ChunkDataAlmostDone? {
        flow, r, marks := ChunkEnd(data, p, marks0, target);
      } else {
        flow, r, marks := Turn(data, p, marks0, target);
      }
    }

    /** While what is due at the end of the buffer is reported: `undone` are the marks if no callback interrupts. */
    ghost predicate Reporting(
      flow: Flow, data: seq<byte>, marks: Marks, undone: Marks, target: Reading, since: Book) reads this
    {
      && Here(target, data, |data|, marks) && Live(errno)
      && flow == (if errno == Ok then Fetch else Return) && marks == (if errno == Ok then undone else map[])
      && Since(since)
    }

    /** One of the five callbacks for what is due at the end of the buffer. */
    method Report(d: DataField, data: seq<byte>, marks0: Marks, ghost target: Reading)
      returns (flow: Flow, marks: Marks)
      requires errno == Ok && Here(target, data, |data|, marks0)
      modifies this`log, this`errno, this`told
      ensures Reporting(flow, data, marks, marks0 - {d}, target, old(Now()))
    {
      hide Ahead, Sound, Replies;
      ReportKeepsPlace(Snap(), log, marks0, d, data, env, Short(data), target);
      flow, marks := Flush(d, data, |data|, marks0);
    }

    method ReportHeaders(data: seq<byte>, marks0: Marks, ghost target: Reading)
      returns (flow: Flow, marks: Marks)
      requires errno == Ok && Here(target, data, |data|, marks0)
      modifies this`log, this`errno, this`told
      ensures Reporting(flow, data, marks, marks0 - {FieldName} - {FieldValue}, target, old(Now()))
    {
      hide Here, Replies;
      flow, marks := Report(FieldName, data, marks0, target);
      if flow != Return {
        flow, marks := Report(FieldValue, data, marks, target);
      }
    }

    method ReportOthers(data: seq<byte>, marks0: Marks, ghost target: Reading)
      returns (flow: Flow, marks: Marks)
      requires errno == Ok && Here(target, data, |data|, marks0)
      modifies this`log, this`errno, this`told
      ensures Reporting(flow, data, marks, marks0 - {Url} - {Body} - {Status}, target, old(Now()))
    {
      hide Here, Replies;
      flow, marks := Report(Url, data, marks0, target);
      if flow != Return {
        flow, marks := Report(Body, data, marks, target);
      }
      if flow != Return {
        flow, marks := Report(Status, data, marks, target);
      }
    }

    /** The end of the buffer: at most one mark is set, and what it marks is reported. */
    method Finish(data: seq<byte>, marks0: Marks, ghost target: Reading)
      requires Going(target, data, |data|, marks0, false)
      modifies this`log, this`errno, this`told
      ensures Left(target, data, |data|) && Live(errno) && Since(old(Now()))
    {
      hide At, Ready, Upgraded, IsError, Short, HttpEvents.Orderly, Passed, Replies;
      AtMostOneMark(Snap(), log, marks0, data, env, Short(data), target);
      assert forall d <- marks0, e <- marks0 :: d == e;
      AllReported(marks0);
      var flow, marks := ReportHeaders(data, marks0, target);
      if flow != Return {
        flow, marks := ReportOthers(data, marks, target);
      }
    }

    /** One byte of the buffer, looked at until a case is done with it or leaves. */
    method Byte(data: seq<byte>, p: nat, marks0: Marks, ghost target: Reading)
      returns (flow: Flow, r: nat, marks: Marks)
      requires Going(target, data, p, marks0, false) && p < |data|
      modifies this
      ensures flow != Reexecute && Came(flow, target, data, p, r, marks, Rank(old(st)), old(Now()))
      ensures Kept(old(calls), old(short))
      ensures Astray(old(NameAlone(data, p)), old(ValuePaused(data, p)), old(nread) + 1, r == |data|)
    {
      hide At, Ready, Rank, IsError, Upgraded, HttpEvents.Orderly, Passed, Replies;
      flow, r, marks := Reexecute, p, marks0;
      ghost var alone, paused := NameAlone(data, p), ValuePaused(data, p);
      if ParsingHeader(st) {
        Count(1);
        if errno != Ok {
          PeakReached(data, p, marks, target);
          Overflowed(data, p, marks, Short(data), target);
          return Return, r, marks;
        }
      }
      ghost var rank := Rank(st);
      while flow == Reexecute
        invariant flow == Reexecute ==> p <= r && Rank(st) <= rank && Going(target, data, r, marks, true)
        invariant flow != Reexecute ==> Came(flow, target, data, p, r, marks, rank, old(Now()))
        invariant Kept(old(calls), old(short)) && Since(old(Now()))
        invariant alone || paused ==>
                    if flow == Reexecute
                    then && r == p && nread == old(nread) + 1
                         && alone == NameAlone(data, p) && paused == ValuePaused(data, p)
                    else Astray(alone, paused, old(nread) + 1, r == |data|)
        decreases flow == Reexecute, Rank(st)
      {
        flow, r, marks := Switch(data, r, marks, target);
      }
    }

    /** The bytes of the buffer in turn; `first` is the rank of the state before the first of them. */
    method Buffer(data: seq<byte>, ghost target: Reading) returns (n: nat)
      requires data != [] && Going(target, data, 0, FirstMarks(st), false)
      modifies this
      ensures Left(target, data, n) && Kept(old(calls), old(short))
      ensures Live(errno) ==> 0 < n || Rank(st) < Rank(old(st))
      ensures Since(old(Now()))
      ensures Astray(old(NameAlone(data, 0)), old(ValuePaused(data, 0)), old(nread) + 1, n == |data|)
    {
      hide At, Ready, Rank, IsError, Upgraded, FirstMarks, HttpEvents.Orderly, Passed, Replies;
      var p, marks := 0, FirstMarks(st);
      while p < |data|
        invariant Going(target, data, p, marks, false)
        invariant Kept(old(calls), old(short)) && Now() == old(Now()) && (p == 0 ==> st == old(st))
        invariant if p == 0 then nread == old(nread) && hs == old(hs) && told == old(told)
                  else Astray(old(NameAlone(data, 0)), old(ValuePaused(data, 0)), old(nread) + 1, p == |data|)
      {
        var flow;
        flow, p, marks := Byte(data, p, marks, target);
        if flow == Return {
          return p;
        }
      }
      Finish(data, marks, target);
      return |data|;
    }

    /** An empty buffer means the end of the stream. */
    method EndOfStream() returns (n: nat)
      requires Valid() && errno == Ok
      modifies this`log, this`errno, this`told
      ensures Valid() && Since(old(Now()))
      ensures if st.BodyIdentityEof? then n == 0 && log == Emit(old(log), MessageComplete) && Live(errno)
              else if AtStart(st) then n == 0 && log == old(log) && errno == Ok
              else n == 1 && log == old(log) && errno == InvalidEofState
    {
      hide FieldsOk, Emit, Replies;
      n := 0;
      if st.BodyIdentityEof? {
        EofKeepsSound(Snap(), log);
        hide Sound;
        Callback(MessageComplete);
      } else if !AtStart(st) {
        HttpEvents.FittingIsRight(Snap(), HttpEvents.PhaseOf(log));
        errno := InvalidEofState;
        n := 1;
      }
    }

    /**
     What a call with a nonempty buffer comes to, `target` being what the whole buffer comes to: what is left of it
     leads there too, an error is the same one at the same byte, and a header section is only found too long, at a byte
     the reading comes to, when, but for one byte for each call, it is.
     */
    ghost predicate Told(target: Reading, data: seq<byte>, n: nat)
      reads this
    {
      && n <= |data|
      && (errno == Ok ==> n == |data| || Upgraded(Snap(), log))
      && (Short(data) ==>
            if Live(errno) then Leads(Skim(Snap(), log, data[n..], env), target)
            else if errno == HeaderOverflow then Passed(target, data, n, log, env)
            else IsError(target.outcome, log, data[n..], errno))
      && (errno == HeaderOverflow && short ==> MAX_HEADER_SIZE < target.peak + calls)
    }

    lemma Starts(data: seq<byte>, target: Reading)
      requires Valid() && errno == Ok && !Upgraded(Snap(), log) && target == Skim(Snap(), log, data, env)
      requires short ==> Short(data)
      ensures Going(target, data, 0, FirstMarks(st), false)
    {
      hide Skim, FieldOf, InField, FirstMarks, Upgraded, FieldsOk, HttpEvents.Fits, HttpEvents.PhaseOf;
      FirstMarksAddNothing(st, log, data);
      assert data[0..] == data;
    }

    /** A nonempty buffer. */
    method Read(data: seq<byte>) returns (n: nat)
      requires Valid() && errno == Ok && !Upgraded(Snap(), log) && data != []
      modifies this
      ensures Valid() && Kept(old(calls) + 1, old(short) && Short(data)) && Since(old(Now()))
      ensures Told(old(Skim(Snap(), log, data, env)), data, n)
      ensures Live(errno) ==> 0 < n || Rank(st) < Rank(old(st))
      ensures Astray(old(NameAlone(data, 0)), old(ValuePaused(data, 0)), old(nread) + 1, n == |data|)
    {
      hide Skim, Rank, IsError, Sound, FieldOf, InField, FirstMarks, Upgraded, HttpEvents.Orderly, Passed, Replies,
           NameAlone, ValuePaused, Astray, Going;
      ghost var target := Skim(Snap(), log, data, env);
      short := short && Short(data);
      Starts(data, target);
      n := Buffer(data, target);
      calls := calls + 1;
    }

    /**
     `http_parser_execute`. However often its callbacks interrupt it, and whatever it takes in one go, the parser reads
     the buffer as `Skim` does.
     */
    method Execute(data: seq<byte>) returns (n: nat)
      requires Valid() && (errno == Ok ==> !Upgraded(Snap(), log))
      modifies this
      ensures Valid() && calls == old(calls) + 1
      ensures old(errno) != Ok ==>
                && n == 0 && errno == old(errno) && Snap() == old(Snap()) && log == old(log)
                && short == old(short) && Now() == old(Now()) && told == old(told)
      ensures old(errno) == Ok ==> Since(old(Now())) && short == (old(short) && Short(data))
      ensures old(errno) == Ok && data == [] ==>
                if old(st).BodyIdentityEof? then n == 0 && log == Emit(old(log), MessageComplete) && Live(errno)
                else if AtStart(old(st)) then n == 0 && log == old(log) && errno == Ok
                else n == 1 && log == old(log) && errno == InvalidEofState
      ensures old(errno) == Ok && data != [] ==>
                && Told(old(Skim(Snap(), log, data, env)), data, n)
                && (Live(errno) ==> 0 < n || Rank(st) < Rank(old(st)))
                && Astray(old(NameAlone(data, 0)), old(ValuePaused(data, 0)), old(nread) + 1, n == |data|)
    {
      hide Skim, Rank, Sound, Upgraded, Told, HttpEvents.Orderly, Astray, NameAlone, ValuePaused, Replies;
      if errno != Ok {
        calls := calls + 1;
        return 0;
      }
      if data == [] {
        n := EndOfStream();
        calls := calls + 1;
        return;
      }
      n := Read(data);
    }

    /** Between calls, also after an error, all callbacks have come in order. */
    lemma InOrder()
      requires Valid()
      ensures HttpEvents.Orderly(log)
    {
      if Live(errno) {
        HttpEvents.FittingIsRight(Snap(), HttpEvents.PhaseOf(log));
        hide HttpEvents.Fits, HttpEvents.PhaseOf, FieldsOk;
      }
    }

    /** `http_parser_pause(parser, 0)` */
    method Unpause()
      requires Valid() && (errno == Ok || errno == Paused)
      modifies this`errno
      ensures Valid() && errno == Ok
    {
      errno := Ok;
    }
  }
}
