/**
 The options of a Connection header: which of keep-alive, close and upgrade a list of elements turns on.
 */
module HttpOptions {
  import opened Common
  import opened HttpTypes
  import opened HttpStep
  import opened HttpRun
  import opened HttpSkim
  import opened HttpAhead
  import opened HttpNumbers
  import opened HttpHeaders

  const COMMA: byte := 44

  // ---------- one element ----------

  /** The element, in any case, is a beginning of `word`, but not all of it. */
  predicate Begun(e: seq<byte>, word: string) { 0 < |e| < |word| && IsPrefix(LowerAll(e), word) }

  /** The element is `word`, in any case, with nothing but spaces after it. */
  predicate Whole(e: seq<byte>, word: string) {
    && |word| <= |e| && Is(LowerAll(e[..|word|]), word)
    && forall i :: |word| <= i < |e| ==> e[i] == SP
  }

  lemma BegunGrows(e: seq<byte>, c: byte, word: string)
    requires e != []
    ensures Begun(e + [c], word) <==> Begun(e, word) && |e| + 1 < |word| && Lower(c) == word[|e|] as int
  {
    hide Lower;
    assert LowerAll(e + [c]) == LowerAll(e) + [Lower(c)];
    PrefixGrows(LowerAll(e), Lower(c), word);
  }

  lemma WholeGrows(e: seq<byte>, c: byte, word: string)
    requires e != [] && 1 < |word|
    ensures Whole(e + [c], word) <==>
            || (Whole(e, word) && c == SP)
            || (|e| + 1 == |word| && Begun(e, word) && Lower(c) == word[|e|] as int)
  {
    hide Lower;
    var v, n := e + [c], |word|;
    if |v| == n {
      assert v[..n] == v && LowerAll(v) == LowerAll(e) + [Lower(c)];
      PrefixGrows(LowerAll(e), Lower(c), word);
    } else if n < |v| {
      assert v[..n] == e[..n];
      assert forall i :: n <= i < |e| ==> v[i] == e[i];
      assert v[|e|] == c;
    }
  }

  /** What the matcher of one word says about the element read so far. */
  predicate Tracks(m: Matcher, e: seq<byte>, word: string, reading: HeaderState, hit: HeaderState) {
    && (m.hs == reading <==> Begun(e, word)) && (m.hs == hit <==> Whole(e, word))
    && (Begun(e, word) ==> m.index == |e| - 1)
  }

  lemma TrackStep(
    m: Matcher, n: Matcher, e: seq<byte>, c: byte, word: string, reading: HeaderState, hit: HeaderState)
    requires e != [] && 1 < |word| < 100 && Tracks(m, e, word, reading, hit)
    requires reading != hit && reading != Token && hit != Token
    requires m.hs == reading ==> n == Match(m, Lower(c), word, Token, hit)
    requires m.hs == hit ==> n.hs == if c == SP then hit else Token
    requires m.hs != reading && m.hs != hit ==> n.hs != reading && n.hs != hit
    ensures Tracks(n, e + [c], word, reading, hit)
  {
    BegunGrows(e, c, word);
    WholeGrows(e, c, word);
    hide Lower, IsPrefix, LowerAll, Is;
  }

  /** What the matcher says about an element, from its first byte that is no space. */
  predicate InElement(m: Matcher, e: seq<byte>) {
    && Tracks(m, e, "keep-alive", MatchingKeepAlive, KeepAlive)
    && Tracks(m, e, "close", MatchingClose, Close)
    && Tracks(m, e, "upgrade", MatchingConnUpgrade, ConnUpgrade)
    && (m.hs.MatchingKeepAlive? || m.hs.MatchingClose? || m.hs.MatchingConnUpgrade?
        || m.hs.KeepAlive? || m.hs.Close? || m.hs.ConnUpgrade? || m.hs.Token?)
  }

  lemma ElementStep(m: Matcher, e: seq<byte>, c: byte)
    requires e != [] && c != COMMA && InElement(m, e)
    ensures InElement(ValueMatch(m, c), e + [c])
  {
    hide Lower, Tracks;
    var n := ValueMatch(m, c);
    assert m.hs.MatchingKeepAlive? ==> n == Match(m, Lower(c), "keep-alive", Token, KeepAlive);
    assert m.hs.MatchingClose? ==> n == Match(m, Lower(c), "close", Token, Close);
    assert m.hs.MatchingConnUpgrade? ==> n == Match(m, Lower(c), "upgrade", Token, ConnUpgrade);
    hide ValueMatch;
    TrackStep(m, n, e, c, "keep-alive", MatchingKeepAlive, KeepAlive);
    TrackStep(m, n, e, c, "close", MatchingClose, Close);
    TrackStep(m, n, e, c, "upgrade", MatchingConnUpgrade, ConnUpgrade);
  }

  lemma ElementStarts(c: byte)
    ensures InElement(Matcher(OptionStart(Lower(c)), 0), [c])
  {
    hide Lower;
    OneLetter(c, "keep-alive");
    OneLetter(c, "close");
    OneLetter(c, "upgrade");
    hide Begun, Whole;
  }

  lemma OneLetter(c: byte, word: string)
    requires 1 < |word|
    ensures (Begun([c], word) <==> Lower(c) == word[0] as int) && !Whole([c], word)
  {
    hide Lower;
    assert LowerAll([c])[0] == Lower(c);
  }

  // ---------- reading a value ----------

  /** The matcher, and the options turned on so far. */
  datatype Reader = Reader(m: Matcher, flags: Flags)

  function ReadOne(r: Reader, c: byte): (next: Reader) {
    Reader(ValueMatch(r.m, c), if IsOption(r.m.hs) && c == COMMA then Settled(r.m.hs, r.flags) else r.flags)
  }

  function ReadAll(r: Reader, v: seq<byte>): (next: Reader)
    decreases |v|
  {
    if v == [] then r else ReadAll(ReadOne(r, v[0]), v[1..])
  }

  lemma {:induction false} ReadJoined(r: Reader, a: seq<byte>, b: seq<byte>)
    ensures ReadAll(r, a + b) == ReadAll(ReadAll(r, a), b)
    decreases |a|
  {
    hide ReadOne;
    if a == [] {
      assert a + b == b;
    } else {
      assert (a + b)[0] == a[0] && (a + b)[1..] == a[1..] + b;
      ReadJoined(ReadOne(r, a[0]), a[1..], b);
    }
  }

  lemma ReadAppended(r: Reader, a: seq<byte>, c: byte)
    ensures ReadAll(r, a + [c]) == ReadOne(ReadAll(r, a), c)
  {
    hide ReadOne;
    ReadJoined(r, a, [c]);
    assert [c][1..] == [];
    assert ReadAll(ReadOne(ReadAll(r, a), c), []) == ReadOne(ReadAll(r, a), c);
  }

  /** What is on once the line is over. */
  function SettledFlags(r: Reader): (flags: Flags) { Settled(r.m.hs, r.flags) }

  function Starting(c: byte, flags: Flags): (r: Reader) { Reader(Matcher(OptionStart(Lower(c)), 0), flags) }

  /** Reading an element, from its first byte that is no space. */
  lemma {:induction false} ElementRead(e: seq<byte>, flags: Flags)
    requires e != [] && COMMA !in e
    ensures var r := ReadAll(Starting(e[0], flags), e[1..]); InElement(r.m, e) && r.flags == flags
    decreases |e|
  {
    hide InElement, ValueMatch, OptionStart, Lower, Settled;
    var init, c := e[..|e| - 1], e[|e| - 1];
    assert e == init + [c];
    if init == [] {
      ElementStarts(c);
      assert e[1..] == [] && e == [c];
    } else {
      ElementRead(init, flags);
      assert e[1..] == init[1..] + [c] && init[0] == e[0];
      hide ReadAll;
      var r := ReadAll(Starting(e[0], flags), init[1..]);
      ReadAppended(Starting(e[0], flags), init[1..], c);
      ElementStep(r.m, init, c);
    }
  }

  /** The matcher has given up on the element: it only waits for the comma. */
  lemma {:induction false} TokenRead(r: Reader, e: seq<byte>)
    requires r.m.hs.Token? && COMMA !in e
    ensures ReadAll(r, e) == r
    decreases |e|
  {
    if e != [] {
      assert ReadOne(r, e[0]) == r;
      TokenRead(r, e[1..]);
    }
  }

  /** The matcher has given up on the value. */
  lemma {:induction false} GeneralRead(r: Reader, v: seq<byte>)
    requires r.m.hs.General?
    ensures ReadAll(r, v) == r
    decreases |v|
  {
    if v != [] {
      assert ReadOne(r, v[0]) == r;
      GeneralRead(r, v[1..]);
    }
  }

  // ---------- a list of elements ----------

  /** The elements, each after a comma. */
  function Tail(es: seq<seq<byte>>): (v: seq<byte>) {
    if es == [] then [] else [COMMA] + (es[0] + Tail(es[1..]))
  }

  /** The elements, with commas between them. */
  function Joined(es: seq<seq<byte>>): (v: seq<byte>)
    requires es != []
  {
    es[0] + Tail(es[1..])
  }

  ghost predicate Elements(es: seq<seq<byte>>) { es != [] && forall e <- es :: COMMA !in e }

  /** Without the spaces before it. */
  function Trim(e: seq<byte>): (r: seq<byte>) {
    if e != [] && Lower(e[0]) == SP then Trim(e[1..]) else e
  }

  lemma {:induction false} TrimRead(r: Reader, e: seq<byte>)
    requires r.m.hs.TokenStart?
    ensures ReadAll(r, e) == ReadAll(r, Trim(e)) && (COMMA !in e ==> COMMA !in Trim(e))
    ensures Trim(e) != [] ==> Lower(Trim(e)[0]) != SP
    decreases |e|
  {
    if e != [] && Lower(e[0]) == SP {
      SpaceRead(r, e[0]);
      TrimRead(r, e[1..]);
    }
  }

  lemma SpaceRead(r: Reader, c: byte)
    requires r.m.hs.TokenStart? && Lower(c) == SP
    ensures ReadOne(r, c) == r
  {
    assert TokenOf(SP) == 0;
    hide Lower, TokenOf;
  }

  /** What an element, its first spaces aside, is for the matcher; `Beginning`: of an option, but not all of it. */
  datatype Kind = Blank | NoToken | Named(hs: HeaderState) | Beginning | Other

  function KindOf(e: seq<byte>): (kind: Kind) {
    if e == [] then Blank
    else if Whole(e, "keep-alive") then Named(KeepAlive)
    else if Whole(e, "close") then Named(Close)
    else if Whole(e, "upgrade") then Named(ConnUpgrade)
    else if Begun(e, "keep-alive") || Begun(e, "close") || Begun(e, "upgrade") then Beginning
    else if TokenOf(Lower(e[0])) == 0 then NoToken
    else Other
  }

  /**
   What a list of elements turns on. A list ends at a blank element or one that does not begin like a token, and an
   element that is a beginning of an option hides the next one.
   */
  function Effect(flags: Flags, es: seq<seq<byte>>): (r: Flags)
    decreases |es|
  {
    if es == [] then flags
    else
      var kind := KindOf(Trim(es[0]));
      if kind.Blank? || kind.NoToken? then flags
      else if kind.Named? then Effect(Settled(kind.hs, flags), es[1..])
      else if kind.Beginning? && |es| > 1 then Effect(flags, es[2..])
      else Effect(flags, es[1..])
  }

  /** The first element is not trimmed, and anything may stand at its beginning. */
  function FirstEffect(flags: Flags, es: seq<seq<byte>>): (r: Flags)
    requires es != []
  {
    var kind := KindOf(es[0]);
    if kind.Named? then Effect(Settled(kind.hs, flags), es[1..])
    else if (kind.Blank? || kind.Beginning?) && |es| > 1 then Effect(flags, es[2..])
    else Effect(flags, es[1..])
  }

  lemma KindIs(m: Matcher, e: seq<byte>)
    requires e != [] && InElement(m, e)
    ensures var kind := KindOf(e);
            if kind.Named? then m.hs == kind.hs && IsOption(kind.hs)
            else if kind.Beginning? then m.hs.MatchingKeepAlive? || m.hs.MatchingClose? || m.hs.MatchingConnUpgrade?
            else m.hs.Token?
  {
    hide Whole, Begun, Lower, TokenOf;
  }

  /** What the comma after an element does. */
  lemma CommaRead(r: Reader, e: seq<byte>)
    requires e != [] && InElement(r.m, e)
    ensures var n, kind := ReadOne(r, COMMA), KindOf(e);
            if kind.Named? then n == Reader(Matcher(TokenStart, 0), Settled(kind.hs, r.flags))
            else if kind.Beginning? then n.m.hs.Token? && n.flags == r.flags
            else n == Reader(Matcher(TokenStart, 0), r.flags)
  {
    KindIs(r.m, e);
    hide KindOf, InElement, Settled;
    assert Lower(COMMA) == COMMA;
    CommaIsNoLetter(r.m, "keep-alive", KeepAlive);
    CommaIsNoLetter(r.m, "close", Close);
    CommaIsNoLetter(r.m, "upgrade", ConnUpgrade);
    hide Match, Lower;
  }

  lemma CommaIsNoLetter(m: Matcher, word: string, hit: HeaderState)
    requires forall i :: 0 <= i < |word| ==> word[i] != ','
    ensures Match(m, COMMA, word, Token, hit).hs.Token?
  {
  }

  /** After an element comes nothing, or a comma and the other elements. */
  lemma AfterElement(r: Reader, rest: seq<seq<byte>>)
    ensures ReadAll(r, Tail(rest)) == if rest == [] then r else ReadAll(ReadOne(r, COMMA), Joined(rest))
  {
    hide ReadOne;
    if rest != [] {
      assert Tail(rest)[0] == COMMA && Tail(rest)[1..] == Joined(rest);
    }
  }

  /** An element, from its first byte that is no space, and the list after it. */
  lemma RestRead(e: seq<byte>, flags: Flags, rest: seq<seq<byte>>)
    requires e != [] && COMMA !in e && forall x <- rest :: COMMA !in x
    ensures var kind := KindOf(e);
            SettledFlags(ReadAll(ReadAll(Starting(e[0], flags), e[1..]), Tail(rest))) ==
            if kind.Named? then Effect(Settled(kind.hs, flags), rest)
            else if kind.Beginning? && rest != [] then Effect(flags, rest[1..])
            else Effect(flags, rest)
    decreases |rest|, 2
  {
    var r := ReadAll(Starting(e[0], flags), e[1..]);
    ElementRead(e, flags);
    KindIs(r.m, e);
    CommaRead(r, e);
    AfterElement(r, rest);
    hide KindOf, InElement, ReadOne, Starting, ReadAll, Tail, Joined;
    if rest == [] {
      assert Effect(flags, rest) == flags && forall hs :: Effect(Settled(hs, flags), rest) == Settled(hs, flags);
      hide Effect;
      assert SettledFlags(r) == Settled(r.m.hs, flags);
    } else {
      hide Effect, Settled, SettledFlags;
      if KindOf(e).Named? {
        ListRead(Settled(KindOf(e).hs, flags), rest);
      } else if KindOf(e).Beginning? {
        HiddenRead(ReadOne(r, COMMA), rest);
      } else {
        ListRead(flags, rest);
      }
    }
  }

  /** An element that the matcher does not look at, and the list after it. */
  lemma HiddenRead(r: Reader, es: seq<seq<byte>>)
    requires r.m.hs.Token? && Elements(es)
    ensures SettledFlags(ReadAll(r, Joined(es))) == Effect(r.flags, es[1..])
    decreases |es|, 0
  {
    TokenRead(r, es[0]);
    ReadJoined(r, es[0], Tail(es[1..]));
    AfterElement(r, es[1..]);
    assert ReadOne(r, COMMA) == Reader(Matcher(TokenStart, 0), r.flags);
    hide ReadOne, ReadAll, KindOf;
    if |es| > 1 {
      ListRead(r.flags, es[1..]);
    }
  }

  /** Reading a list of elements turns on what `Effect` says. */
  lemma ListRead(flags: Flags, es: seq<seq<byte>>)
    requires Elements(es)
    ensures SettledFlags(ReadAll(Reader(Matcher(TokenStart, 0), flags), Joined(es))) == Effect(flags, es)
    decreases |es|, 1
  {
    var r, e, rest := Reader(Matcher(TokenStart, 0), flags), Trim(es[0]), es[1..];
    ReadJoined(r, es[0], Tail(rest));
    TrimRead(r, es[0]);
    hide ReadOne, ReadAll, Starting;
    if e == [] {
      BlankRead(r, rest);
    } else {
      FirstRead(r, e, flags);
      if KindOf(e).NoToken? {
        GeneralRead(ReadAll(r, e), Tail(rest));
      } else {
        RestRead(e, flags, rest);
      }
    }
  }

  lemma BlankRead(r: Reader, rest: seq<seq<byte>>)
    requires r.m.hs.TokenStart?
    ensures ReadAll(r, []) == r && SettledFlags(ReadAll(r, Tail(rest))) == r.flags
  {
    AfterElement(r, rest);
    if rest != [] {
      assert Lower(COMMA) == COMMA && TokenOf(COMMA) == 0;
      hide Lower, TokenOf;
      assert ReadOne(r, COMMA).m.hs.General? && ReadOne(r, COMMA).flags == r.flags;
      GeneralRead(ReadOne(r, COMMA), Joined(rest));
    }
  }

  /** The first byte of an element that is no space. */
  lemma FirstRead(r: Reader, e: seq<byte>, flags: Flags)
    requires r == Reader(Matcher(TokenStart, 0), flags) && e != [] && COMMA !in e && Lower(e[0]) != SP
    ensures if KindOf(e).NoToken? then ReadAll(r, e).m.hs.General? && ReadAll(r, e).flags == flags
            else ReadAll(r, e) == ReadAll(Starting(e[0], flags), e[1..])
  {
    assert TokenOf(107) != 0 && TokenOf(99) != 0 && TokenOf(117) != 0;
    hide Lower, TokenOf, Whole;
    FirstLetter(e, "keep-alive");
    FirstLetter(e, "close");
    FirstLetter(e, "upgrade");
    hide Begun;
    var n := ReadOne(r, e[0]);
    assert Lower(e[0]) != TAB by { LowerIsNoTab(e[0]); }
    if KindOf(e).NoToken? {
      assert n.m.hs.General? && n.flags == flags;
      hide ReadOne;
      GeneralRead(n, e[1..]);
    } else {
      assert n == Starting(e[0], flags);
    }
  }

  lemma LowerIsNoTab(c: byte)
    ensures Lower(c) != TAB
  {
  }

  lemma FirstLetter(e: seq<byte>, word: string)
    requires e != [] && 1 < |word|
    ensures Begun(e, word) || Whole(e, word) ==> Lower(e[0]) == word[0] as int
  {
    hide Lower;
    assert LowerAll(e)[0] == Lower(e[0]);
    if |word| <= |e| {
      assert LowerAll(e[..|word|])[0] == Lower(e[0]);
    }
  }

  /** A whole value turns on what `FirstEffect` says. */
  lemma ValueRead(flags: Flags, es: seq<seq<byte>>)
    requires Elements(es) && Joined(es) != []
    ensures SettledFlags(ReaderOf(Joined(es), flags)) == FirstEffect(flags, es)
  {
    var v, e, rest := Joined(es), es[0], es[1..];
    if e == [] {
      assert rest != [] && v[0] == COMMA && v[1..] == Joined(rest);
      assert Starting(COMMA, flags).m.hs.Token?;
      hide ReadAll, Starting, Joined, Tail;
      HiddenRead(Starting(COMMA, flags), rest);
    } else {
      assert v[0] == e[0] && v[1..] == e[1..] + Tail(rest);
      hide Starting, Joined, Tail, KindOf;
      ReadJoined(Starting(e[0], flags), e[1..], Tail(rest));
      RestRead(e, flags, rest);
    }
  }

  // ---------- the parser on a value of Connection ----------

  /** What reading a value comes to. */
  function ReaderOf(v: seq<byte>, flags: Flags): (r: Reader)
    requires v != []
  {
    ReadAll(Starting(v[0], flags), v[1..])
  }

  function AfterOptions(f: Fields, v: seq<byte>): (r: Fields)
    requires v != []
  {
    var r := ReaderOf(v, f.flags);
    f.(st := HeaderValue, hs := r.m.hs, index := r.m.index, flags := r.flags, seen := More(f.seen, |v|))
  }

  predicate OptionsDue(f: Fields, c: byte) { f.hs.Connection? && f.st.HeaderValueDiscardWs? && !IsSpace(c) }

  lemma FirstOptionByte(f: Fields, log: Log, c: byte, env: Env)
    requires OptionsDue(f, c) && Skippable(c) && !Upgraded(f, log)
    ensures Run(f, log, [c], env) == Stopped(AfterOptions(f, [c]), Emit(log, Data(FieldValue, [c])), [])
  {
    assert [c][1..] == [];
    assert ReaderOf([c], f.flags) == Starting(c, f.flags);
    assert MoveOf(f, c, env) == Note(HeaderValue, Data(FieldValue, [c]));
    assert After(f, c, env) == AfterOptions(f, [c]);
    hide Run, MoveOf, EffectOf, Upgraded, After, AfterOptions;
    OneByte(f, log, c, env);
  }

  /** The states a value of Connection goes through. */
  predicate OptionState(hs: HeaderState) {
    || hs.MatchingKeepAlive? || hs.MatchingClose? || hs.MatchingConnUpgrade?
    || hs.KeepAlive? || hs.Close? || hs.ConnUpgrade? || hs.Token? || hs.TokenStart? || hs.General?
  }

  lemma {:induction false} OptionStates(r: Reader, v: seq<byte>)
    requires OptionState(r.m.hs)
    ensures OptionState(ReadAll(r, v).m.hs)
    decreases |v|
  {
    if v != [] {
      assert OptionState(ReadOne(r, v[0]).m.hs);
      hide ReadOne, OptionState;
      OptionStates(ReadOne(r, v[0]), v[1..]);
    }
  }

  lemma OneMoreByte(init: seq<byte>, c: byte, flags: Flags)
    requires init != []
    ensures ReaderOf(init + [c], flags) == ReadOne(ReaderOf(init, flags), c)
    ensures OptionState(ReaderOf(init, flags).m.hs)
  {
    assert OptionState(Starting(init[0], flags).m.hs);
    hide ReadOne, ReadAll, OptionState, Starting;
    OptionStates(Starting(init[0], flags), init[1..]);
    ReadAppended(Starting(init[0], flags), init[1..], c);
    assert (init + [c])[1..] == init[1..] + [c];
  }

  lemma NextOptionByte(f: Fields, log: Log, init: seq<byte>, c: byte, env: Env)
    requires init != [] && IsValueByte(c, env) && !Upgraded(AfterOptions(f, init), log)
    ensures Run(AfterOptions(f, init), log, [c], env)
            == Stopped(AfterOptions(f, init + [c]), Emit(log, Data(FieldValue, [c])), [])
  {
    var g := AfterOptions(f, init);
    OneMoreByte(init, c, f.flags);
    ValueStep(g, c, env);
    hide ReaderOf, ValueMatch, MoveOf, EffectOf, After, Upgraded, Run, IsHeaderChar, BadLengthByte, Settled;
    assert After(g, c, env) == AfterOptions(f, init + [c]);
    OneByte(g, log, c, env);
  }

  /** Reading a value of Connection: it is told as it is, and its elements are read. */
  lemma {:induction false} OptionsRead(f: Fields, log: Log, v: seq<byte>, env: Env)
    requires v != [] && OptionsDue(f, v[0]) && !Upgraded(f, log) && forall c <- v :: IsValueByte(c, env)
    ensures Run(f, log, v, env) == Stopped(AfterOptions(f, v), Emit(log, Data(FieldValue, v)), [])
    decreases |v|
  {
    var init, c := v[..|v| - 1], v[|v| - 1];
    assert v == init + [c] && IsValueByte(v[|v| - 1], env);
    if init == [] {
      FirstOptionByte(f, log, c, env);
    } else {
      assert OptionsDue(f, init[0]) && forall x <- init :: IsValueByte(x, env);
      hide IsValueByte, AfterOptions, Run, Emit, Upgraded, OptionsDue;
      OptionsRead(f, log, init, env);
      var g, log' := AfterOptions(f, init), Emit(log, Data(FieldValue, init));
      DataIsNoExit(g, log, FieldValue, init);
      NextOptionByte(f, log', init, c, env);
      Then(f, log, init, g, log', [c], env);
      EmitMerges(log, FieldValue, init, [c]);
    }
  }

  lemma OptionsTakeEffect(f: Fields, c: byte, env: Env)
    requires f.st.HeaderValueLws? && !IsSpace(c)
    ensures MoveOf(f, c, env) == Again(HeaderFieldStart)
    ensures After(f, c, env).flags == Settled(f.hs, f.flags)
  {
    assert EffectOf(f, c, env) == f.(flags := Settled(f.hs, f.flags));
    assert MoveOf(f, c, env) == Again(HeaderFieldStart);
    hide MoveOf, EffectOf, Settled;
  }

  predicate IsConnection(name: seq<byte>) {
    Is(Lowered(name), "connection") || Is(Lowered(name), "proxy-connection")
  }

  lemma ConnectionIsNoLength(name: seq<byte>)
    requires name != [] && IsConnection(name)
    ensures !BeginsWithLength(name)
  {
    hide TokenOf;
    if 14 <= |name| {
      assert Lowered(name[..14])[0] == TokenOf(name[0]) == Lowered(name)[0];
    }
  }

  /**
   A line of Connection or Proxy-Connection with the elements `es`: name and value are told as they are, and once the
   line is over and not continued, exactly what `FirstEffect` says is turned on.
   */
  lemma ConnectionLine(
    f: Fields, log: Log, name: seq<byte>, ws: seq<byte>, es: seq<seq<byte>>, eol: seq<byte>, c: byte, env: Env)
    requires f.st.HeaderFieldStart? && !Upgraded(f, log)
    requires name != [] && (forall x <- name :: TokenOf(x) != 0) && IsConnection(name)
    requires (forall x <- ws :: IsSpace(x)) && IsLineEnd(eol) && !IsSpace(c) && Elements(es)
    requires var v := Joined(es); v != [] && !IsSpace(v[0]) && forall x <- v :: IsValueByte(x, env)
    ensures var o := Run(f, log, LineStart(name, ws) + Joined(es) + eol, env);
            && o.Stopped? && o.rest == []
            && o.log == Emit(Emit(log, Data(FieldName, name)), Data(FieldValue, Joined(es)))
            && MoveOf(o.f, c, env) == Again(HeaderFieldStart)
            && After(o.f, c, env).flags == FirstEffect(f.flags, es)
  {
    ConnectionIsNoLength(name);
    NamesRecognised(name);
    hide Run, Upgraded, Emit, NameRun, BeginsWithLength, TokenOf, ReaderOf, IsValueByte, MoveOf, EffectOf, Lowered, Is,
         Joined, FirstEffect, Settled, Elements;
    var v, start, log1 := Joined(es), LineStart(name, ws), Emit(log, Data(FieldName, name));
    var g := BeforeValue(f, name, ws);
    LineStarts(f, log, name, ws, env);
    OptionsRead(g, log1, v, env);
    var h, log2 := AfterOptions(g, v), Emit(log1, Data(FieldValue, v));
    Then(f, log, start, g, log1, v, env);
    DataIsNoExit(h, log1, FieldValue, v);
    LineEnds(h, log2, eol, env);
    Then(f, log, start + v, h, log2, eol, env);
    EmitMerges(log1, FieldValue, v, []);
    assert v + [] == v;
    ValueRead(f.flags, es);
    OptionsTakeEffect(h.(st := HeaderValueLws, seen := More(h.seen, |eol|)), c, env);
  }

  // ---------- what that means ----------

  /** An option, or an element that begins like a token and is no beginning of an option. */
  predicate Regular(e: seq<byte>) { KindOf(Trim(e)).Named? || KindOf(Trim(e)).Other? }

  ghost predicate Lists(es: seq<seq<byte>>, word: string) { exists e <- es :: Whole(Trim(e), word) }

  /** The flags, and the options that are listed. */
  ghost function TurnedOn(flags: Flags, es: seq<seq<byte>>): (r: Flags) {
    flags.(keepAlive := flags.keepAlive || Lists(es, "keep-alive"),
           close := flags.close || Lists(es, "close"),
           connUpgrade := flags.connUpgrade || Lists(es, "upgrade"))
  }

  lemma TurnedOnStep(flags: Flags, es: seq<seq<byte>>)
    requires es != [] && Regular(es[0])
    ensures var kind := KindOf(Trim(es[0]));
            TurnedOn(flags, es) == TurnedOn(if kind.Named? then Settled(kind.hs, flags) else flags, es[1..])
  {
    hide Trim, Whole, Begun, Lists, KindOf;
    RegularIsSome(es[0]);
    OneWordOnly(Trim(es[0]));
    ListsSplit(es, "keep-alive");
    ListsSplit(es, "close");
    ListsSplit(es, "upgrade");
  }

  lemma RegularIsSome(e: seq<byte>)
    requires Regular(e)
    ensures Trim(e) != []
  {
    hide Trim;
  }

  /** A list of regular elements turns on exactly the options it lists. */
  lemma {:induction false} RegularEffect(flags: Flags, es: seq<seq<byte>>)
    requires forall e <- es :: Regular(e)
    ensures Effect(flags, es) == TurnedOn(flags, es)
    decreases |es|
  {
    hide Trim, KindOf, Settled, Whole;
    if es != [] {
      assert Regular(es[0]) && forall e <- es[1..] :: Regular(e);
      hide Lists;
      TurnedOnStep(flags, es);
      hide TurnedOn;
      var kind := KindOf(Trim(es[0]));
      RegularEffect(if kind.Named? then Settled(kind.hs, flags) else flags, es[1..]);
    }
  }

  lemma ListsSplit(es: seq<seq<byte>>, word: string)
    requires es != []
    ensures Lists(es, word) <==> Whole(Trim(es[0]), word) || Lists(es[1..], word)
  {
    hide Trim, Whole;
    assert es == [es[0]] + es[1..];
  }

  lemma OneWordOnly(e: seq<byte>)
    requires e != []
    ensures KindOf(e) == Named(KeepAlive) <==> Whole(e, "keep-alive")
    ensures KindOf(e) == Named(Close) <==> Whole(e, "close")
    ensures KindOf(e) == Named(ConnUpgrade) <==> Whole(e, "upgrade")
    ensures KindOf(e).Named? ==> KindOf(e).hs.KeepAlive? || KindOf(e).hs.Close? || KindOf(e).hs.ConnUpgrade?
  {
    FirstLetter(e, "keep-alive");
    FirstLetter(e, "close");
    FirstLetter(e, "upgrade");
    hide Whole, Begun, Lower, TokenOf;
  }

  /** In a value of regular elements, every option that is listed is turned on, and nothing else. */
  lemma RegularList(flags: Flags, es: seq<seq<byte>>)
    requires es != [] && Trim(es[0]) == es[0] && forall e <- es :: Regular(e)
    ensures FirstEffect(flags, es) == TurnedOn(flags, es)
  {
    assert Regular(es[0]);
    assert FirstEffect(flags, es) == Effect(flags, es);
    RegularEffect(flags, es);
  }

  /** The elements of `c, close`. */
  const HIDING: seq<seq<byte>> := [[99], [32, 99, 108, 111, 115, 101]]

  /** An element that is a beginning of an option hides the option after it. */
  lemma OptionIsHidden(flags: Flags)
    ensures Whole(Trim(HIDING[1]), "close") && FirstEffect(flags, HIDING) == flags
  {
    var e: seq<byte> := [99, 108, 111, 115, 101];
    assert HIDING[1][1..] == e && Trim(HIDING[1]) == Trim(e) == e;
    assert e[..5] == e && LowerAll(e) == e;
    assert LowerAll([99]) == [99];
    assert KindOf(HIDING[0]).Beginning?;
    assert HIDING[2..] == [];
  }
}
