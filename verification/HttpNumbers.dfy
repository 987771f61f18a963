/**
 Length arithmetic: the digits of a chunk size or a Content-Length are read exactly, or refused.
 */
module HttpNumbers {
  import opened Common
  import opened HttpTypes
  import opened HttpStep
  import opened HttpRun

  // ---------- numbers by place value ----------

  function Pow(base: nat, n: nat): (r: nat) { if n == 0 then 1 else base * Pow(base, n - 1) }

  /** The number the digits stand for: each counts for its place. */
  function Value(digits: seq<nat>, base: nat): (r: nat) {
    if digits == [] then 0 else digits[0] * Pow(base, |digits| - 1) + Value(digits[1..], base)
  }

  /** Appending a digit shifts the others by one place. */
  lemma {:induction false} ValueOfAppended(digits: seq<nat>, d: nat, base: nat)
    ensures Value(digits + [d], base) == Value(digits, base) * base + d
  {
    if digits == [] {
      assert digits + [d] == [d];
    } else {
      assert (digits + [d])[1..] == digits[1..] + [d];
      ValueOfAppended(digits[1..], d, base);
      var h, p, v := digits[0], Pow(base, |digits| - 1), Value(digits[1..], base);
      calc {
        Value(digits + [d], base);
        h * Pow(base, |digits|) + (v * base + d);
        h * (base * p) + v * base + d;
        { MulShift(h, base, p); }
        (h * p) * base + v * base + d;
        (h * p + v) * base + d;
      }
    }
  }

  lemma MulShift(a: nat, b: nat, c: nat)
    ensures a * (b * c) == (a * c) * b
  {
  }

  // ---------- chunk sizes ----------

  /** A digit of RFC 2616's HEX, and its value. */
  predicate IsHex(c: byte) { IsNum(c) || 65 <= c <= 70 || 97 <= c <= 102 }

  function HexDigit(c: byte): (r: nat)
    requires IsHex(c)
  {
    if IsNum(c) then c - 48 else if c <= 70 then c - 55 else c - 87
  }

  /** What passes for a digit: HEX, and all bytes from 128 up. */
  predicate IsSizeByte(c: byte) { IsHex(c) || 128 <= c }

  /** A byte that is no HEX digit counts as 0. */
  function SizeDigit(c: byte): (r: nat)
    requires IsSizeByte(c)
  {
    if IsHex(c) then HexDigit(c) else 0
  }

  function SizeDigits(s: seq<byte>): (digits: seq<nat>)
    requires forall c <- s :: IsSizeByte(c)
    ensures |digits| == |s|
  {
    if s == [] then [] else [SizeDigit(s[0])] + SizeDigits(s[1..])
  }

  /** The number that the digits of a chunk size stand for. */
  function SizeValue(s: seq<byte>): (r: nat)
    requires forall c <- s :: IsSizeByte(c)
  {
    Value(SizeDigits(s), 16)
  }

  lemma {:induction false} SizeDigitsAppend(s: seq<byte>, c: byte)
    requires (forall x <- s :: IsSizeByte(x)) && IsSizeByte(c)
    ensures SizeDigits(s + [c]) == SizeDigits(s) + [SizeDigit(c)]
  {
    if s == [] {
      assert s + [c] == [c];
    } else {
      assert (s + [c])[1..] == s[1..] + [c];
      SizeDigitsAppend(s[1..], c);
    }
  }

  lemma SizeValueAppend(s: seq<byte>, c: byte)
    requires (forall x <- s :: IsSizeByte(x)) && IsSizeByte(c)
    ensures SizeValue(s + [c]) == SizeValue(s) * 16 + SizeDigit(c)
  {
    SizeDigitsAppend(s, c);
    ValueOfAppended(SizeDigits(s), SizeDigit(c), 16);
  }

  /** One byte that is used up. */
  lemma OneByte(f: Fields, log: Log, c: byte, env: Env)
    requires !Upgraded(f, log) && MoveOf(f, c, env).Go? && MoveOf(f, c, env).consumed
    ensures Run(f, log, [c], env) == Stopped(After(f, c, env), Noted(log, MoveOf(f, c, env).note), [])
  {
    hide MoveOf, EffectOf, After, Upgraded;
    assert [c][1..] == [];
    assert Run(After(f, c, env), Noted(log, MoveOf(f, c, env).note), [], env)
        == Stopped(After(f, c, env), Noted(log, MoveOf(f, c, env).note), []);
  }

  lemma BadByte(f: Fields, log: Log, c: byte, env: Env)
    requires !Upgraded(f, log) && MoveOf(f, c, env).Fail?
    ensures Run(f, log, [c], env) == Failed(log, [c], MoveOf(f, c, env).errno)
  {
    hide MoveOf, EffectOf, Upgraded;
  }

  /** After `a`, the run goes on with `b`. */
  lemma Then(f: Fields, log: Log, a: seq<byte>, g: Fields, log': Log, b: seq<byte>, env: Env)
    requires Run(f, log, a, env) == Stopped(g, log', [])
    ensures Run(f, log, a + b, env) == Run(g, log', b, env)
  {
    hide Run;
    RunSplit(f, log, a, b, env);
    assert [] + b == b;
  }

  lemma ThenFailed(f: Fields, log: Log, a: seq<byte>, b: seq<byte>, env: Env)
    requires Run(f, log, a, env).Failed?
    ensures var o := Run(f, log, a, env); Run(f, log, a + b, env) == Failed(o.log, o.rest + b, o.errno)
  {
    hide Run;
    RunSplit(f, log, a, b, env);
  }

  const MAX_CHUNK: int := MAX64 - 16

  /** The fields while a chunk size is read. */
  function InSize(f: Fields, size: uint64, bytes: nat): (r: Fields) {
    f.(st := ChunkSize, contentLength := size, seen := More(f.seen, bytes))
  }

  lemma FirstSizeDigit(f: Fields, log: Log, c: byte, env: Env)
    requires f.st.ChunkSizeStart? && !Upgraded(f, log) && IsSizeByte(c)
    ensures Run(f, log, [c], env) == Stopped(InSize(f, SizeDigit(c), 1), log, [])
  {
    assert MoveOf(f, c, env) == To(ChunkSize) && After(f, c, env) == InSize(f, SizeDigit(c), 1);
    hide Run, MoveOf, EffectOf, Upgraded, After;
    OneByte(f, log, c, env);
  }

  lemma NextSizeDigit(f: Fields, log: Log, size: uint64, k: nat, c: byte, env: Env)
    requires !Upgraded(f, log) && IsSizeByte(c)
    ensures Run(InSize(f, size, k), log, [c], env) ==
            if size * 16 + SizeDigit(c) <= MAX_CHUNK then Stopped(InSize(f, size * 16 + SizeDigit(c), k + 1), log, [])
            else Failed(log, [c], InvalidContentLength)
  {
    var g := InSize(f, size, k);
    assert (MAX64 - 16) / 16 < size <==> MAX_CHUNK < size * 16 + SizeDigit(c);
    assert Unhex(c) == SizeDigit(c);
    assert MoveOf(g, c, env)
        == if size * 16 + SizeDigit(c) <= MAX_CHUNK then To(ChunkSize) else Fail(InvalidContentLength);
    assert size * 16 + SizeDigit(c) <= MAX_CHUNK ==> After(g, c, env) == InSize(f, size * 16 + SizeDigit(c), k + 1);
    hide Run, MoveOf, EffectOf, After;
    if size * 16 + SizeDigit(c) <= MAX_CHUNK {
      OneByte(g, log, c, env);
    } else {
      BadByte(g, log, c, env);
    }
  }

  /**
   A chunk size is read exactly when it is at most 2^64 - 17, and a larger one is refused at some digit; bytes from 128
   up count as the digit 0.
   */
  lemma {:induction false} ChunkSizeIsExact(f: Fields, log: Log, s: seq<byte>, env: Env)
    requires f.st.ChunkSizeStart? && !Upgraded(f, log) && s != [] && forall c <- s :: IsSizeByte(c)
    ensures var o := Run(f, log, s, env);
            if SizeValue(s) <= MAX_CHUNK then o == Stopped(InSize(f, SizeValue(s), |s|), log, [])
            else o.Failed? && o.errno == InvalidContentLength && o.log == log
    decreases |s|
  {
    hide Run, Upgraded;
    var init, c := s[..|s| - 1], s[|s| - 1];
    assert s == init + [c];
    SizeValueAppend(init, c);
    if init == [] {
      FirstSizeDigit(f, log, c, env);
      assert s == [c];
    } else {
      ChunkSizeIsExact(f, log, init, env);
      if SizeValue(init) <= MAX_CHUNK {
        NextSizeDigit(f, log, SizeValue(init), |init|, c, env);
        Then(f, log, init, InSize(f, SizeValue(init), |init|), log, [c], env);
      } else {
        ThenFailed(f, log, init, [c], env);
      }
    }
  }

  /**
   A chunk size may begin with any HEX digit, as it should, and also with any byte from 128 up, which is no digit;
   with no other byte.
   */
  lemma SizeStartsWith(f: Fields, log: Log, c: byte, env: Env)
    requires f.st.ChunkSizeStart? && !Upgraded(f, log)
    ensures Run(f, log, [c], env) ==
            if IsHex(c) || 128 <= c then Stopped(InSize(f, if IsHex(c) then HexDigit(c) else 0, 1), log, [])
            else Failed(log, [c], InvalidChunkSize)
  {
    if IsSizeByte(c) {
      hide Run, MoveOf, EffectOf, Upgraded, After;
      FirstSizeDigit(f, log, c, env);
    } else {
      assert MoveOf(f, c, env) == Fail(InvalidChunkSize);
      hide Run, MoveOf, EffectOf, Upgraded, After;
      BadByte(f, log, c, env);
    }
  }

  // ---------- content lengths ----------

  const MAX_LENGTH: int := MAX64 - 6

  predicate LengthByte(c: byte) { IsNum(c) || c == SP }

  /** The digits of a length; spaces do not count. */
  function DecDigits(s: seq<byte>): (r: seq<nat>)
    requires forall c <- s :: LengthByte(c)
  {
    if s == [] then [] else DecDigit(s[0]) + DecDigits(s[1..])
  }

  function DecDigit(c: byte): (r: seq<nat>)
    requires LengthByte(c)
  {
    if c == SP then [] else var d: nat := c - 48; [d]
  }

  function DecValue(s: seq<byte>): (r: nat)
    requires forall c <- s :: LengthByte(c)
  {
    Value(DecDigits(s), 10)
  }

  lemma {:induction false} DecDigitsAppend(s: seq<byte>, c: byte)
    requires (forall x <- s :: LengthByte(x)) && LengthByte(c)
    ensures DecDigits(s + [c]) == DecDigits(s) + DecDigit(c)
  {
    hide DecDigit;
    if s == [] {
      assert s + [c] == [c] && [c][1..] == [];
      assert DecDigit(c) + [] == DecDigit(c) && [] + DecDigit(c) == DecDigit(c);
    } else {
      assert (s + [c])[1..] == s[1..] + [c];
      DecDigitsAppend(s[1..], c);
      assert DecDigit(s[0]) + (DecDigits(s[1..]) + DecDigit(c)) == DecDigits(s) + DecDigit(c);
    }
  }

  lemma DecValueAppend(s: seq<byte>, c: byte)
    requires (forall x <- s :: LengthByte(x)) && LengthByte(c)
    ensures DecValue(s + [c]) == if c == SP then DecValue(s) else DecValue(s) * 10 + (c - 48)
  {
    DecDigitsAppend(s, c);
    if c == SP {
      assert DecDigits(s) + [] == DecDigits(s);
    } else {
      ValueOfAppended(DecDigits(s), c - 48, 10);
    }
  }

  /** The fields while a content length is read. */
  function InLength(f: Fields, n: uint64, bytes: nat): (r: Fields) {
    f.(st := HeaderValue, hs := ContentLength, index := 0, contentLength := n, seen := More(f.seen, bytes))
  }

  predicate LengthDue(f: Fields) { (f.st.HeaderValueDiscardWs? || f.st.HeaderValueStart?) && f.hs.ContentLength? }

  lemma FirstLengthDigit(f: Fields, log: Log, c: byte, env: Env)
    requires LengthDue(f) && !Upgraded(f, log) && IsNum(c)
    ensures Run(f, log, [c], env) == Stopped(InLength(f, c - 48, 1), Emit(log, Data(FieldValue, [c])), [])
  {
    assert MoveOf(f, c, env) == Note(HeaderValue, Data(FieldValue, [c])) && After(f, c, env) == InLength(f, c - 48, 1);
    hide Run, MoveOf, EffectOf, Upgraded, After;
    OneByte(f, log, c, env);
  }

  lemma NextLengthByte(f: Fields, log: Log, n: uint64, k: nat, c: byte, env: Env)
    requires !Upgraded(f, log) && LengthByte(c)
    ensures var g, m := InLength(f, n, k), if c == SP then n else n * 10 + (c - 48);
            Run(g, log, [c], env) ==
            if c == SP || m <= MAX_LENGTH then Stopped(InLength(f, m, k + 1), Emit(log, Data(FieldValue, [c])), [])
            else Failed(log, [c], InvalidContentLength)
  {
    var g, m := InLength(f, n, k), if c == SP then n else n * 10 + (c - 48);
    var fits := c == SP || m <= MAX_LENGTH;
    assert BadLengthByte(n, c) <==> !fits;
    assert MoveOf(g, c, env) == if fits then Note(HeaderValue, Data(FieldValue, [c])) else Fail(InvalidContentLength);
    assert fits ==> After(g, c, env) == InLength(f, m, k + 1);
    hide Run, MoveOf, EffectOf, After;
    if fits {
      OneByte(g, log, c, env);
    } else {
      BadByte(g, log, c, env);
    }
  }

  /** A content length is read exactly when it is at most 2^64 - 7, spaces aside; a larger one is refused. */
  lemma {:induction false} ContentLengthIsExact(f: Fields, log: Log, s: seq<byte>, env: Env)
    requires LengthDue(f) && !Upgraded(f, log) && s != [] && IsNum(s[0]) && forall c <- s :: LengthByte(c)
    ensures var o := Run(f, log, s, env);
            if DecValue(s) <= MAX_LENGTH
            then o == Stopped(InLength(f, DecValue(s), |s|), Emit(log, Data(FieldValue, s)), [])
            else o.Failed? && o.errno == InvalidContentLength
    decreases |s|
  {
    hide Run, Upgraded, Emit;
    var init, c := s[..|s| - 1], s[|s| - 1];
    assert s == init + [c];
    DecValueAppend(init, c);
    if init == [] {
      FirstLengthDigit(f, log, c, env);
      assert s == [c];
    } else {
      ContentLengthIsExact(f, log, init, env);
      if DecValue(init) <= MAX_LENGTH {
        var log' := Emit(log, Data(FieldValue, init));
        StillGoing(f, log, init);
        NextLengthByte(f, log', DecValue(init), |init|, c, env);
        Then(f, log, init, InLength(f, DecValue(init), |init|), log', [c], env);
        EmitMerges(log, FieldValue, init, [c]);
      } else {
        ThenFailed(f, log, init, [c], env);
      }
    }
  }

  lemma StillGoing(f: Fields, log: Log, bytes: seq<byte>)
    ensures !Upgraded(f, Emit(log, Data(FieldValue, bytes)))
  {
  }
}
