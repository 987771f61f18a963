/**
 Reading a buffer as `http_parser_execute` does: like `Run`, except that in a header value of no interest it looks for
 the end of the value at once and at none of the bytes on the way. What that misses, and when it misses nothing.
 */
module HttpSkim {
  import opened Common
  import opened HttpTypes
  import opened HttpStep
  import opened HttpRun

  predicate Skippable(c: byte) { c != CR && c != LF }

  predicate InGeneralValue(f: Fields) { f.st.HeaderValue? && f.hs.General? }

  /** This byte of a value is looked at, and the next ones are not. */
  predicate Skims(f: Fields, c: byte, env: Env) {
    InGeneralValue(f) && Skippable(c) && (env.lenient || IsHeaderChar(c))
  }

  /** The number of bytes before the first CR or LF. */
  function ToEnd(input: seq<byte>): (k: nat)
    ensures k <= |input| && (forall i :: 0 <= i < k ==> Skippable(input[i])) && (k < |input| ==> !Skippable(input[k]))
  {
    if input == [] || !Skippable(input[0]) then 0 else 1 + ToEnd(input[1..])
  }

  /** What reading comes to, and the most header bytes there are on the way since the count last started afresh. */
  datatype Reading = Reading(outcome: Outcome, peak: nat)

  function Max(a: nat, b: nat): (r: nat) { if a > b then a else b }

  function Higher(n: nat, r: Reading): (result: Reading) { r.(peak := Max(n, r.peak)) }

  function Skim(f: Fields, log: Log, input: seq<byte>, env: Env): (r: Reading)
    ensures f.seen.now <= r.peak && |r.outcome.rest| <= |input|
    ensures r.outcome.Stopped? ==>
              && (r.outcome.rest == [] || Upgraded(r.outcome.f, r.outcome.log))
              && r.outcome.f.seen.now <= r.peak
    decreases |input|, Rank(f.st)
  {
    if input == [] || Upgraded(f, log) then Reading(Stopped(f, log, input), f.seen.now)
    else if Skims(f, input[0], env) then
      var k := ToEnd(input);
      Higher(f.seen.now, Skim(f.(seen := More(f.seen, k)), Emit(log, Data(FieldValue, input[..k])), input[k..], env))
    else
      var m := MoveOf(f, input[0], env);
      if m.Fail? then Reading(Failed(log, input, m.errno), f.seen.now)
      else if m.consumed then
        Higher(f.seen.now, Skim(After(f, input[0], env), Noted(log, m.note), input[1..], env))
      else
        MoveMakesProgress(f, input[0], env);
        Higher(f.seen.now, Skim(After(f, input[0], env), Noted(log, m.note), input, env))
  }

  /** The peak is no more than there are bytes. */
  lemma {:induction false} PeakIsBounded(f: Fields, log: Log, input: seq<byte>, env: Env)
    ensures var r := Skim(f, log, input, env);
            && r.peak <= f.seen.now + |input|
            && (r.outcome.Stopped? ==> r.outcome.f.seen.now + |r.outcome.rest| <= f.seen.now + |input|)
    decreases |input|, Rank(f.st)
  {
    hide MoveOf, EffectOf, Upgraded, Rank;
    if input != [] && !Upgraded(f, log) {
      if Skims(f, input[0], env) {
        var k := ToEnd(input);
        PeakIsBounded(f.(seen := More(f.seen, k)), Emit(log, Data(FieldValue, input[..k])), input[k..], env);
      } else {
        var m := MoveOf(f, input[0], env);
        if m.Go? {
          if m.consumed {
            PeakIsBounded(After(f, input[0], env), Noted(log, m.note), input[1..], env);
          } else {
            MoveMakesProgress(f, input[0], env);
            PeakIsBounded(After(f, input[0], env), Noted(log, m.note), input, env);
          }
        }
      }
    }
  }

  /** The peak of the byte-at-a-time reading. */
  function Peak(f: Fields, log: Log, input: seq<byte>, env: Env): (n: nat)
    ensures f.seen.now <= n
    decreases |input|, Rank(f.st)
  {
    if input == [] || Upgraded(f, log) then f.seen.now
    else
      var m := MoveOf(f, input[0], env);
      if m.Fail? then f.seen.now
      else if m.consumed then Max(f.seen.now, Peak(After(f, input[0], env), Noted(log, m.note), input[1..], env))
      else
        MoveMakesProgress(f, input[0], env);
        Max(f.seen.now, Peak(After(f, input[0], env), Noted(log, m.note), input, env))
  }

  /** The peak over `a` and then `b`. */
  lemma {:induction false} PeakSplit(f: Fields, log: Log, a: seq<byte>, b: seq<byte>, env: Env)
    ensures var o := Run(f, log, a, env);
            Peak(f, log, a + b, env) ==
            if o.Failed? || Upgraded(o.f, o.log) then Peak(f, log, a, env)
            else Max(Peak(f, log, a, env), Peak(o.f, o.log, b, env))
    decreases |a|, Rank(f.st)
  {
    hide MoveOf, EffectOf, Upgraded, Rank;
    if a == [] || Upgraded(f, log) {
      assert a + b == if a == [] then b else a + b;
    } else {
      assert (a + b)[0] == a[0] && (a + b)[1..] == a[1..] + b;
      var m := MoveOf(f, a[0], env);
      if m.Go? {
        if m.consumed {
          PeakSplit(After(f, a[0], env), Noted(log, m.note), a[1..], b, env);
        } else {
          MoveMakesProgress(f, a[0], env);
          PeakSplit(After(f, a[0], env), Noted(log, m.note), a, b, env);
        }
      }
    }
  }

  // ---------- a header value of no interest ----------

  lemma DataIsNoExit(f: Fields, log: Log, d: DataField, bytes: seq<byte>)
    ensures var log1 := Emit(log, Data(d, bytes));
            log1 != [] && log1[|log1| - 1].Data? && log1[|log1| - 1].field == d && !Upgraded(f, log1)
  {
  }

  lemma GeneralValueMove(f: Fields, c: byte, env: Env)
    requires InGeneralValue(f) && Skippable(c)
    ensures MoveOf(f, c, env) ==
            if Skims(f, c, env) then Note(HeaderValue, Data(FieldValue, [c])) else Fail(InvalidHeaderToken)
    ensures MoveOf(f, c, env).Go? ==> After(f, c, env) == f.(seen := More(f.seen, 1))
  {
  }

  lemma ValueByte(f: Fields, log: Log, input: seq<byte>, env: Env)
    requires InGeneralValue(f) && input != [] && Skippable(input[0]) && !Upgraded(f, log)
    ensures Run(f, log, input, env) ==
            if Skims(f, input[0], env)
            then Run(f.(seen := More(f.seen, 1)), Emit(log, Data(FieldValue, [input[0]])), input[1..], env)
            else Failed(log, input, InvalidHeaderToken)
    ensures Skims(f, input[0], env) ==>
              Peak(f, log, input, env)
              == Peak(f.(seen := More(f.seen, 1)), Emit(log, Data(FieldValue, [input[0]])), input[1..], env)
  {
    GeneralValueMove(f, input[0], env);
  }

  /** Value bytes that are all fit for a header can be taken at once. */
  lemma {:induction false} ValueBytes(f: Fields, log: Log, input: seq<byte>, k: nat, env: Env)
    requires 0 < k <= |input| && !Upgraded(f, log) && forall i :: 0 <= i < k ==> Skims(f, input[i], env)
    ensures var g, log1 := f.(seen := More(f.seen, k)), Emit(log, Data(FieldValue, input[..k]));
            && Run(f, log, input, env) == Run(g, log1, input[k..], env)
            && Peak(f, log, input, env) == Peak(g, log1, input[k..], env)
    decreases k
  {
    hide Run, Peak, Emit, Upgraded, IsHeaderChar;
    ValueByte(f, log, input, env);
    if k == 1 {
      assert input[..1] == [input[0]];
    } else {
      var log1 := Emit(log, Data(FieldValue, [input[0]]));
      DataIsNoExit(f.(seen := More(f.seen, 1)), log, FieldValue, [input[0]]);
      ValueBytes(f.(seen := More(f.seen, 1)), log1, input[1..], k - 1, env);
      EmitMerges(log, FieldValue, [input[0]], input[1..][..k - 1]);
      assert [input[0]] + input[1..][..k - 1] == input[..k];
      assert input[1..][k - 1..] == input[k..];
    }
  }

  // ---------- what skimming misses ----------

  /** Byte `i` is skimmed from, and the byte after it has no place in a header. */
  ghost predicate MissesAt(f: Fields, log: Log, input: seq<byte>, i: nat, env: Env) {
    && !env.lenient && i + 1 < |input| && !IsHeaderChar(input[i + 1])
    && var o := Run(f, log, input[..i], env);
       o.Stopped? && o.rest == [] && !Upgraded(o.f, o.log) && Skims(o.f, input[i], env)
  }

  /**
   Read byte by byte, two neighbouring bytes of the buffer are in the same header value of no interest, the first fit
   for a header and the second not.
   */
  ghost predicate Misses(f: Fields, log: Log, input: seq<byte>, env: Env) {
    exists i: nat :: MissesAt(f, log, input, i, env)
  }

  lemma NoValueAgain(f: Fields, c: byte, env: Env)
    requires MoveOf(f, c, env).Go? && !MoveOf(f, c, env).consumed
    ensures !MoveOf(f, c, env).st.HeaderValue?
  {
    hide StartMove, ResponseLineMove, RequestLineMove, HeaderMove, HeadersEndMove, ChunkMove;
    match PartOf(f.st)
    case StartPart => StartStaysEarly(f.st, c);
    case ResponseLinePart => ResponseLineStaysEarly(f.st, f.line, c);
    case RequestLinePart => RequestLineStaysEarly(f.st, f.index, f.line, c);
    case HeaderPart => HeaderValueConsumes(f, c, env);
    case HeadersEndPart => EndHasNoValue(f, c);
    case ChunkPart => ChunkConsumes(f, c);
    case BodyPart =>
  }

  lemma HeaderValueConsumes(f: Fields, c: byte, env: Env)
    ensures var m := HeaderMove(f, c, env); m.Go? && m.st.HeaderValue? ==> m.consumed
  {
  }

  lemma EndHasNoValue(f: Fields, c: byte)
    ensures var m := HeadersEndMove(f, c); m.Go? ==> !m.st.HeaderValue?
  {
  }

  /** A turn that looks at the first byte misses nothing. */
  lemma TurnMissesNothing(f: Fields, log: Log, input: seq<byte>, env: Env)
    requires input != [] && !Upgraded(f, log) && !Skims(f, input[0], env)
    ensures var m := MoveOf(f, input[0], env);
            Misses(f, log, input, env) <==>
            m.Go? && Misses(After(f, input[0], env), Noted(log, m.note), if m.consumed then input[1..] else input, env)
  {
    hide MoveOf, EffectOf, After, Upgraded, Skims, IsHeaderChar, Rank;
    var m := MoveOf(f, input[0], env);
    assert !MissesAt(f, log, input, 0, env) by { assert input[..0] == []; }
    if m.Fail? {
      forall i: nat ensures !MissesAt(f, log, input, i, env) {
        if 0 < i < |input| { assert input[..i][0] == input[0]; }
      }
    } else if m.consumed {
      var g, log1 := After(f, input[0], env), Noted(log, m.note);
      forall i: nat ensures MissesAt(f, log, input, i + 1, env) <==> MissesAt(g, log1, input[1..], i, env) {
        if i + 1 < |input| {
          assert input[..i + 1][0] == input[0] && input[..i + 1][1..] == input[1..][..i];
        }
      }
      MissesShifts(f, log, input, g, log1, input[1..], 1, env);
    } else {
      MoveMakesProgress(f, input[0], env);
      LooksAgain(f, log, input, env);
    }
  }

  lemma MissesShifts(
    f: Fields, log: Log, input: seq<byte>, g: Fields, log1: Log, input1: seq<byte>, k: nat, env: Env)
    requires forall i: nat :: i < k ==> !MissesAt(f, log, input, i, env)
    requires forall i: nat :: MissesAt(f, log, input, i + k, env) <==> MissesAt(g, log1, input1, i, env)
    ensures Misses(f, log, input, env) <==> Misses(g, log1, input1, env)
  {
    hide MissesAt;
    if i: nat :| MissesAt(f, log, input, i, env) {
      assert MissesAt(f, log, input, (i - k) + k, env);
      assert MissesAt(g, log1, input1, i - k, env);
    }
    if i: nat :| MissesAt(g, log1, input1, i, env) {
      assert MissesAt(f, log, input, i + k, env);
    }
  }

  lemma LooksAgain(f: Fields, log: Log, input: seq<byte>, env: Env)
    requires input != [] && !Upgraded(f, log) && !Skims(f, input[0], env)
    requires MoveOf(f, input[0], env).Go? && !MoveOf(f, input[0], env).consumed
    ensures Misses(f, log, input, env) <==>
            Misses(After(f, input[0], env), Noted(log, MoveOf(f, input[0], env).note), input, env)
  {
    var g, log1 := After(f, input[0], env), Noted(log, MoveOf(f, input[0], env).note);
    NoValueAgain(f, input[0], env);
    assert !Skims(g, input[0], env);
    hide MoveOf, EffectOf, After, Upgraded, Skims, IsHeaderChar, Rank;
    MoveMakesProgress(f, input[0], env);
    assert input[..0] == [];
    forall i: nat ensures MissesAt(f, log, input, i, env) <==> MissesAt(g, log1, input, i, env) {
      if 0 < i < |input| { assert input[..i][0] == input[0]; }
    }
    hide MissesAt;
    MissesShifts(f, log, input, g, log1, input, 0, env);
  }

  /** Skimming over bytes fit for a header misses nothing. */
  lemma SkipMissesNothing(f: Fields, log: Log, input: seq<byte>, env: Env)
    requires input != [] && !Upgraded(f, log) && forall i :: 0 <= i < ToEnd(input) ==> Skims(f, input[i], env)
    requires 0 < ToEnd(input)
    ensures var k := ToEnd(input);
            Misses(f, log, input, env) <==>
            Misses(f.(seen := More(f.seen, k)), Emit(log, Data(FieldValue, input[..k])), input[k..], env)
  {
    var k := ToEnd(input);
    var g, log1 := f.(seen := More(f.seen, k)), Emit(log, Data(FieldValue, input[..k]));
    assert k < |input| ==> IsHeaderChar(input[k]);
    assert forall i :: 0 <= i < k ==> IsHeaderChar(input[i]) || env.lenient;
    hide Run, Emit, Upgraded, Skims, ToEnd, IsHeaderChar;
    forall i: nat ensures MissesAt(f, log, input, i + k, env) <==> MissesAt(g, log1, input[k..], i, env) {
      if i + k < |input| {
        ValueBytes(f, log, input[..i + k], k, env);
        assert input[..i + k][k..] == input[k..][..i] && input[..i + k][..k] == input[..k];
      }
    }
    MissesShifts(f, log, input, g, log1, input[k..], k, env);
  }

  /** Skimming over a byte that has no place in a header misses it. */
  lemma SkipMissesBadByte(f: Fields, log: Log, input: seq<byte>, j: nat, env: Env)
    requires 0 < j < ToEnd(input) && !Upgraded(f, log) && !Skims(f, input[j], env)
    requires forall i :: 0 <= i < j ==> Skims(f, input[i], env)
    ensures MissesAt(f, log, input, j - 1, env)
    ensures var o := Run(f, log, input, env); o.Failed? && o.errno == InvalidHeaderToken && o.rest == input[j..]
  {
    hide Run, Emit, Upgraded, IsHeaderChar;
    var g, log1 := f.(seen := More(f.seen, j)), Emit(log, Data(FieldValue, input[..j]));
    ValueBytes(f, log, input, j, env);
    DataIsNoExit(g, log, FieldValue, input[..j]);
    ValueByte(g, log1, input[j..], env);
    RunToByte(f, log, input, j - 1, env);
  }

  lemma RunToByte(f: Fields, log: Log, input: seq<byte>, i: nat, env: Env)
    requires i < |input| && !Upgraded(f, log) && forall j :: 0 <= j <= i ==> Skims(f, input[j], env)
    ensures var o := Run(f, log, input[..i], env);
            o.Stopped? && o.rest == [] && !Upgraded(o.f, o.log) && Skims(o.f, input[i], env)
  {
    if i > 0 {
      hide Emit, Upgraded, IsHeaderChar;
      var g, log1 := f.(seen := More(f.seen, i)), Emit(log, Data(FieldValue, input[..i]));
      ValueBytes(f, log, input[..i], i, env);
      assert input[..i][..i] == input[..i] && input[..i][i..] == [];
      DataIsNoExit(g, log, FieldValue, input[..i]);
      assert Run(g, log1, [], env) == Stopped(g, log1, []);
    }
  }

  /**
   Skimming comes to what reading byte by byte comes to if and only if there is no byte that it misses; if there is, it
   goes on beyond the byte at which the byte-at-a-time reading ends in an error.
   */
  lemma {:induction false} SkimAgrees(f: Fields, log: Log, input: seq<byte>, env: Env)
    ensures Skim(f, log, input, env).outcome == Run(f, log, input, env) <==> !Misses(f, log, input, env)
    ensures Misses(f, log, input, env) ==>
              |Skim(f, log, input, env).outcome.rest| < |Run(f, log, input, env).rest|
    ensures !Misses(f, log, input, env) ==> Skim(f, log, input, env).peak == Peak(f, log, input, env)
    decreases |input|, Rank(f.st)
  {
    hide MoveOf, EffectOf, Skims, IsHeaderChar, Rank, Misses;
    if input == [] || Upgraded(f, log) {
      NothingMissed(f, log, input, env);
    } else if Skims(f, input[0], env) {
      SkipAgrees(f, log, input, env);
    } else {
      hide Upgraded;
      TurnMissesNothing(f, log, input, env);
      var m := MoveOf(f, input[0], env);
      if m.Go? {
        if m.consumed {
          SkimAgrees(After(f, input[0], env), Noted(log, m.note), input[1..], env);
        } else {
          MoveMakesProgress(f, input[0], env);
          SkimAgrees(After(f, input[0], env), Noted(log, m.note), input, env);
        }
      }
    }
  }

  lemma NothingMissed(f: Fields, log: Log, input: seq<byte>, env: Env)
    requires input == [] || Upgraded(f, log)
    ensures !Misses(f, log, input, env)
  {
  }

  lemma SkipAgrees(f: Fields, log: Log, input: seq<byte>, env: Env)
    requires input != [] && !Upgraded(f, log) && Skims(f, input[0], env)
    ensures Skim(f, log, input, env).outcome == Run(f, log, input, env) <==> !Misses(f, log, input, env)
    ensures Misses(f, log, input, env) ==>
              |Skim(f, log, input, env).outcome.rest| < |Run(f, log, input, env).rest|
    ensures !Misses(f, log, input, env) ==> Skim(f, log, input, env).peak == Peak(f, log, input, env)
    decreases |input|, Rank(f.st), 0
  {
    var k := ToEnd(input);
    assert 0 < k;
    var g, log1 := f.(seen := More(f.seen, k)), Emit(log, Data(FieldValue, input[..k]));
    assert Skim(f, log, input, env) == Higher(f.seen.now, Skim(g, log1, input[k..], env));
    hide Run, Skim, Peak, Upgraded, IsHeaderChar, Rank, Misses, ToEnd, Emit;
    if j :| 0 <= j < k && !Skims(f, input[j], env) {
      var b := FirstBad(f, input, k, env);
      SkipMissesBadByte(f, log, input, b, env);
      MissesFrom(f, log, input, b - 1, env);
    } else {
      SkipMissesNothing(f, log, input, env);
      ValueBytes(f, log, input, k, env);
      SkimAgrees(g, log1, input[k..], env);
    }
  }

  lemma MissesFrom(f: Fields, log: Log, input: seq<byte>, i: nat, env: Env)
    requires MissesAt(f, log, input, i, env)
    ensures Misses(f, log, input, env)
  {
  }

  lemma FirstBad(f: Fields, input: seq<byte>, k: nat, env: Env) returns (b: nat)
    requires k <= |input| && exists j :: 0 <= j < k && !Skims(f, input[j], env)
    ensures b < k && !Skims(f, input[b], env) && forall i :: 0 <= i < b ==> Skims(f, input[i], env)
  {
    hide Skims;
    b := 0;
    while Skims(f, input[b], env)
      invariant b < k && forall i :: 0 <= i < b ==> Skims(f, input[i], env)
      decreases k - b
    {
      b := b + 1;
    }
  }

  // ---------- when nothing is missed ----------

  /** A buffer in which every byte is fit for a header, or headers are not checked at all. */
  predicate AllFit(input: seq<byte>, env: Env) { env.lenient || forall c <- input :: IsHeaderChar(c) }

  lemma FitBytesAgree(f: Fields, log: Log, input: seq<byte>, env: Env)
    requires AllFit(input, env)
    ensures !Misses(f, log, input, env)
  {
    hide Run, IsHeaderChar, Skims, Upgraded;
  }

  /** A miss means that the byte-at-a-time reading ends in an invalid header token. */
  lemma MissesMeansToken(f: Fields, log: Log, input: seq<byte>, env: Env)
    requires Misses(f, log, input, env)
    ensures var o := Run(f, log, input, env); o.Failed? && o.errno == InvalidHeaderToken
  {
    var i: nat :| MissesAt(f, log, input, i, env);
    var o := Run(f, log, input[..i], env);
    RunSplit(f, log, input[..i], input[i..], env);
    assert input[..i] + input[i..] == input && [] + input[i..] == input[i..];
    var log1 := Emit(o.log, Data(FieldValue, [input[i]]));
    ValueByte(o.f, o.log, input[i..], env);
    DataIsNoExit(o.f.(seen := More(o.f.seen, 1)), o.log, FieldValue, [input[i]]);
    ValueByte(o.f.(seen := More(o.f.seen, 1)), log1, input[i..][1..], env);
    hide Run, Upgraded;
  }
}
