/**
 Which header names and transfer codings the incremental matchers recognise.
 */
module HttpHeaders {
  import opened Common
  import opened HttpTypes
  import opened HttpStep
  import opened HttpRun
  import opened HttpSkim
  import opened HttpAhead
  import opened HttpNumbers

  predicate IsPrefix(w: seq<byte>, word: string) {
    |w| <= |word| && forall i :: 0 <= i < |w| ==> w[i] == word[i] as int
  }

  predicate Is(w: seq<byte>, word: string) { |w| == |word| && IsPrefix(w, word) }

  lemma PrefixGrows(w: seq<byte>, c: byte, word: string)
    ensures IsPrefix(w + [c], word) <==> IsPrefix(w, word) && |w| < |word| && c == word[|w|] as int
  {
    if IsPrefix(w + [c], word) {
      assert forall i :: 0 <= i < |w| ==> (w + [c])[i] == w[i];
      assert (w + [c])[|w|] == c;
    }
  }

  // ---------- header names ----------

  /** The name, lower-cased, as far as it is read. */
  function Lowered(name: seq<byte>): (w: seq<byte>)
    ensures |w| == |name| && forall i :: 0 <= i < |w| ==> w[i] == TokenOf(name[i])
  {
    seq(|name|, i requires 0 <= i < |name| => TokenOf(name[i]))
  }

  /** The matcher after a nonempty name of token characters. */
  function NameRun(name: seq<byte>): (r: Matcher)
    requires name != []
  {
    if |name| == 1 then Matcher(FirstHeaderState(TokenOf(name[0])), 0)
    else NameMatch(NameRun(name[..|name| - 1]), name[|name| - 1])
  }

  /** Reading `word`, of which `w` is a part of at least `from` characters, but not all. */
  predicate Reading(m: Matcher, w: seq<byte>, word: string, from: nat) {
    from <= |w| < |word| && IsPrefix(w, word) && m.index == |w| - 1
  }

  /** Not the beginning of any name that matters. */
  predicate Unlike(w: seq<byte>) {
    && !IsPrefix(w, "connection") && !IsPrefix(w, "proxy-connection") && !IsPrefix(w, "content-length")
    && !IsPrefix(w, "transfer-encoding") && !IsPrefix(w, "upgrade")
  }

  /** What each state of the matcher says about the name read so far. */
  predicate Knows(m: Matcher, w: seq<byte>) {
    var hs := m.hs;
    if hs.SeenC? then |w| == 1 && IsPrefix(w, "con") && m.index == 0
    else if hs.SeenCO? then |w| == 2 && IsPrefix(w, "con") && m.index == 1
    else if hs.SeenCON? then |w| == 3 && IsPrefix(w, "con") && m.index == 2
    else if hs.MatchingConnection? then Reading(m, w, "connection", 4)
    else if hs.MatchingContentLength? then Reading(m, w, "content-length", 4)
    else if hs.MatchingProxyConnection? then Reading(m, w, "proxy-connection", 1)
    else if hs.MatchingTransferEncoding? then Reading(m, w, "transfer-encoding", 1)
    else if hs.MatchingUpgrade? then Reading(m, w, "upgrade", 1)
    else if hs.Connection? then Is(w, "connection") || Is(w, "proxy-connection")
    else if hs.ContentLength? then Is(w, "content-length")
    else if hs.TransferEncoding? then Is(w, "transfer-encoding")
    else if hs.Upgrade? then Is(w, "upgrade")
    else hs.General? && Unlike(w)
  }

  lemma FirstIsKnown(c: byte)
    ensures Knows(Matcher(FirstHeaderState(TokenOf(c)), 0), [TokenOf(c)])
  {
    var t := TokenOf(c);
    hide TokenOf;
    assert [] + [t] == [t];
    WordGrows([], t);
  }

  lemma DifferAt(w: seq<byte>, a: string, b: string, i: nat)
    requires i < |w| && i < |a| && i < |b| && a[i] != b[i]
    ensures !IsPrefix(w, a) || !IsPrefix(w, b)
  {
    assert IsPrefix(w, a) ==> w[i] == a[i] as int;
  }

  /** Names differ in their first character, the two that begin with "con" in their fourth. */
  lemma NamesDiffer(w: seq<byte>)
    requires w != []
    ensures IsPrefix(w, "proxy-connection") ==>
              && !IsPrefix(w, "connection") && !IsPrefix(w, "content-length")
              && !IsPrefix(w, "transfer-encoding") && !IsPrefix(w, "upgrade")
    ensures IsPrefix(w, "transfer-encoding") ==>
              !IsPrefix(w, "connection") && !IsPrefix(w, "content-length") && !IsPrefix(w, "upgrade")
    ensures IsPrefix(w, "upgrade") ==> !IsPrefix(w, "connection") && !IsPrefix(w, "content-length")
    ensures 4 <= |w| ==> !IsPrefix(w, "connection") || !IsPrefix(w, "content-length")
  {
    hide IsPrefix;
    DifferAt(w, "proxy-connection", "connection", 0);
    DifferAt(w, "proxy-connection", "content-length", 0);
    DifferAt(w, "proxy-connection", "transfer-encoding", 0);
    DifferAt(w, "proxy-connection", "upgrade", 0);
    DifferAt(w, "transfer-encoding", "connection", 0);
    DifferAt(w, "transfer-encoding", "content-length", 0);
    DifferAt(w, "transfer-encoding", "upgrade", 0);
    DifferAt(w, "upgrade", "connection", 0);
    DifferAt(w, "upgrade", "content-length", 0);
    if 4 <= |w| { DifferAt(w, "connection", "content-length", 3); }
  }

  lemma WordGrows(w: seq<byte>, t: byte)
    ensures IsPrefix(w + [t], "connection") <==> IsPrefix(w, "connection") && |w| < 10 && t == "connection"[|w|] as int
    ensures IsPrefix(w + [t], "proxy-connection") <==>
            IsPrefix(w, "proxy-connection") && |w| < 16 && t == "proxy-connection"[|w|] as int
    ensures IsPrefix(w + [t], "content-length") <==>
            IsPrefix(w, "content-length") && |w| < 14 && t == "content-length"[|w|] as int
    ensures IsPrefix(w + [t], "transfer-encoding") <==>
            IsPrefix(w, "transfer-encoding") && |w| < 17 && t == "transfer-encoding"[|w|] as int
    ensures IsPrefix(w + [t], "upgrade") <==> IsPrefix(w, "upgrade") && |w| < 7 && t == "upgrade"[|w|] as int
  {
    PrefixGrows(w, t, "connection");
    PrefixGrows(w, t, "proxy-connection");
    PrefixGrows(w, t, "content-length");
    PrefixGrows(w, t, "transfer-encoding");
    PrefixGrows(w, t, "upgrade");
  }

  /** The matcher of one word, on its way. */
  lemma WordIsKnown(m: Matcher, w: seq<byte>, c: byte, word: string, from: nat, hit: HeaderState)
    requires Reading(m, w, word, from) && |word| < 100
    ensures var n := Match(m, c, word, General, hit);
            && n.index == |w|
            && (c == word[|w|] as int ==> IsPrefix(w + [c], word) && n.hs == if |w| == |word| - 1 then hit else m.hs)
            && (c != word[|w|] as int ==> !IsPrefix(w + [c], word) && n.hs == General)
  {
    PrefixGrows(w, c, word);
  }

  /** The common beginning of "connection" and "content-length". */
  lemma ConIsBoth(w: seq<byte>)
    requires |w| <= 3
    ensures IsPrefix(w, "con") <==> IsPrefix(w, "connection")
    ensures IsPrefix(w, "con") <==> IsPrefix(w, "content-length")
  {
  }

  /** What follows the first characters of a name that matters leads on to it, or to another name. */
  lemma ConIsKnown(m: Matcher, w: seq<byte>, t: byte)
    requires (m.hs.SeenC? || m.hs.SeenCO? || m.hs.SeenCON?) && Knows(m, w)
    ensures Knows(NextCon(m, t), w + [t])
  {
    ConIsBoth(w);
    WordGrows(w, t);
    PrefixGrows(w, t, "con");
    NamesDiffer(w);
    hide IsPrefix;
  }

  function NextCon(m: Matcher, t: byte): (r: Matcher)
    requires m.hs.SeenC? || m.hs.SeenCO? || m.hs.SeenCON?
  {
    var next :=
      if m.hs.SeenC? then if t == 'o' as int then SeenCO else General
      else if m.hs.SeenCO? then if t == 'n' as int then SeenCON else General
      else if t == 'n' as int then MatchingConnection
      else if t == 't' as int then MatchingContentLength
      else General;
    Matcher(next, (m.index + 1) % 128)
  }

  /** A complete name that goes on is another name. */
  lemma DoneIsKnown(m: Matcher, w: seq<byte>, t: byte)
    requires (m.hs.Connection? || m.hs.ContentLength? || m.hs.TransferEncoding? || m.hs.Upgrade?) && w != []
    requires Knows(m, w)
    ensures Unlike(w + [t])
  {
    WordGrows(w, t);
    NamesDiffer(w);
    hide IsPrefix;
  }

  lemma ConnectionIsKnown(m: Matcher, w: seq<byte>, t: byte)
    requires m.hs.MatchingConnection? && Knows(m, w)
    ensures Knows(Match(m, t, "connection", General, Connection), w + [t])
  {
    WordGrows(w, t);
    NamesDiffer(w);
    WordIsKnown(m, w, t, "connection", 4, Connection);
    hide IsPrefix, Match;
  }

  lemma ProxyConnectionIsKnown(m: Matcher, w: seq<byte>, t: byte)
    requires m.hs.MatchingProxyConnection? && Knows(m, w)
    ensures Knows(Match(m, t, "proxy-connection", General, Connection), w + [t])
  {
    WordGrows(w, t);
    NamesDiffer(w);
    WordIsKnown(m, w, t, "proxy-connection", 1, Connection);
    hide IsPrefix, Match;
  }

  lemma ContentLengthIsKnown(m: Matcher, w: seq<byte>, t: byte)
    requires m.hs.MatchingContentLength? && Knows(m, w)
    ensures Knows(Match(m, t, "content-length", General, ContentLength), w + [t])
  {
    WordGrows(w, t);
    NamesDiffer(w);
    WordIsKnown(m, w, t, "content-length", 4, ContentLength);
    hide IsPrefix, Match;
  }

  lemma TransferEncodingIsKnown(m: Matcher, w: seq<byte>, t: byte)
    requires m.hs.MatchingTransferEncoding? && Knows(m, w)
    ensures Knows(Match(m, t, "transfer-encoding", General, TransferEncoding), w + [t])
  {
    WordGrows(w, t);
    NamesDiffer(w);
    WordIsKnown(m, w, t, "transfer-encoding", 1, TransferEncoding);
    hide IsPrefix, Match;
  }

  lemma UpgradeIsKnown(m: Matcher, w: seq<byte>, t: byte)
    requires m.hs.MatchingUpgrade? && Knows(m, w)
    ensures Knows(Match(m, t, "upgrade", General, Upgrade), w + [t])
  {
    WordGrows(w, t);
    NamesDiffer(w);
    WordIsKnown(m, w, t, "upgrade", 1, Upgrade);
    hide IsPrefix, Match;
  }

  lemma NextIsKnown(m: Matcher, w: seq<byte>, ch: byte)
    requires w != [] && Knows(m, w) && TokenOf(ch) != 0
    ensures Knows(NameMatch(m, ch), w + [TokenOf(ch)])
  {
    var t := TokenOf(ch);
    assert ch != SP;
    if m.hs.General? {
      WordGrows(w, t);
    }
    hide TokenOf, IsPrefix, Match;
    if m.hs.SeenC? || m.hs.SeenCO? || m.hs.SeenCON? {
      ConIsKnown(m, w, t);
    } else if m.hs.Connection? || m.hs.ContentLength? || m.hs.TransferEncoding? || m.hs.Upgrade? {
      DoneIsKnown(m, w, t);
    } else if m.hs.MatchingConnection? {
      ConnectionIsKnown(m, w, t);
    } else if m.hs.MatchingProxyConnection? {
      ProxyConnectionIsKnown(m, w, t);
    } else if m.hs.MatchingContentLength? {
      ContentLengthIsKnown(m, w, t);
    } else if m.hs.MatchingTransferEncoding? {
      TransferEncodingIsKnown(m, w, t);
    } else if m.hs.MatchingUpgrade? {
      UpgradeIsKnown(m, w, t);
    }
  }

  lemma LoweredStep(init: seq<byte>, c: byte)
    ensures Lowered(init + [c]) == Lowered(init) + [TokenOf(c)]
  {
    hide TokenOf;
  }

  lemma NameRunStep(init: seq<byte>, c: byte)
    requires init != []
    ensures NameRun(init + [c]) == NameMatch(NameRun(init), c)
  {
    hide NameMatch;
    assert (init + [c])[..|init|] == init;
  }

  lemma {:induction false} NameIsKnown(name: seq<byte>)
    requires name != [] && forall c <- name :: TokenOf(c) != 0
    ensures Knows(NameRun(name), Lowered(name))
    decreases |name|
  {
    var init, c := name[..|name| - 1], name[|name| - 1];
    assert name == init + [c];
    hide Knows, NameMatch, TokenOf, Lowered, IsPrefix;
    if init == [] {
      FirstIsKnown(c);
      LoweredStep([], c);
      assert Lowered([]) + [TokenOf(c)] == [TokenOf(c)];
    } else {
      NameIsKnown(init);
      hide NameRun;
      NameRunStep(init, c);
      NextIsKnown(NameRun(init), Lowered(init), c);
      LoweredStep(init, c);
    }
  }

  /** The three characters that two names begin with are not yet a name. */
  lemma ConIsShort(w: seq<byte>)
    ensures |w| <= 3 ==>
              && !Is(w, "connection") && !Is(w, "content-length") && !Is(w, "upgrade")
              && !Is(w, "transfer-encoding") && !Is(w, "proxy-connection")
  {
    hide IsPrefix;
  }

  /** What the matcher knows decides which name it is. */
  lemma KnownIs(m: Matcher, w: seq<byte>)
    requires w != [] && Knows(m, w)
    ensures m.hs.ContentLength? <==> Is(w, "content-length")
    ensures m.hs.TransferEncoding? <==> Is(w, "transfer-encoding")
    ensures m.hs.Upgrade? <==> Is(w, "upgrade")
    ensures m.hs.Connection? <==> Is(w, "connection") || Is(w, "proxy-connection")
  {
    NamesDiffer(w);
    ConIsShort(w);
    hide IsPrefix;
  }

  /** A header name is recognised exactly when it is one of five, whatever the case of its letters. */
  lemma NamesRecognised(name: seq<byte>)
    requires name != [] && forall c <- name :: TokenOf(c) != 0
    ensures var hs, w := NameRun(name).hs, Lowered(name);
            && (hs.ContentLength? <==> Is(w, "content-length"))
            && (hs.TransferEncoding? <==> Is(w, "transfer-encoding"))
            && (hs.Upgrade? <==> Is(w, "upgrade"))
            && (hs.Connection? <==> Is(w, "connection") || Is(w, "proxy-connection"))
  {
    hide NameRun, Knows, Is;
    NameIsKnown(name);
    KnownIs(NameRun(name), Lowered(name));
  }

  // ---------- what reading a name does ----------

  /** The name begins with "content-length"; it need not end there. */
  predicate BeginsWithLength(name: seq<byte>) { 14 <= |name| && Is(Lowered(name[..14]), "content-length") }

  /** The fields after a name. */
  function AfterName(f: Fields, name: seq<byte>): (r: Fields)
    requires name != []
  {
    f.(st := HeaderField, hs := NameRun(name).hs, index := NameRun(name).index,
       flags := f.flags.(contentLength := f.flags.contentLength || BeginsWithLength(name)),
       seen := More(f.seen, |name|))
  }

  lemma FirstNameByte(f: Fields, log: Log, c: byte, env: Env)
    requires f.st.HeaderFieldStart? && !Upgraded(f, log) && TokenOf(c) != 0
    ensures Run(f, log, [c], env) == Stopped(AfterName(f, [c]), Emit(log, Data(FieldName, [c])), [])
  {
    assert MoveOf(f, c, env) == Note(HeaderField, Data(FieldName, [c]));
    assert After(f, c, env) == AfterName(f, [c]);
    hide Run, MoveOf, EffectOf, Upgraded, After, AfterName;
    OneByte(f, log, c, env);
  }

  /** The byte that completes "content-length" is the fourteenth. */
  lemma LengthIsNamedOnce(f: Fields, init: seq<byte>, c: byte)
    requires init != [] && TokenOf(c) != 0 && forall x <- init :: TokenOf(x) != 0
    ensures LengthNamed(AfterName(f, init), c) <==> |init| == 13 && Is(Lowered(init + [c]), "content-length")
    ensures BeginsWithLength(init + [c]) <==> BeginsWithLength(init) || LengthNamed(AfterName(f, init), c)
  {
    var name := init + [c];
    NameIsKnown(init);
    NameIsKnown(name);
    NameRunStep(init, c);
    LoweredStep(init, c);
    hide NameRun, NameMatch, TokenOf, Lowered;
    LengthIsRead(NameRun(init), Lowered(init), TokenOf(c));
    KnownIs(NameRun(name), Lowered(name));
    if 14 <= |init| {
      assert name[..14] == init[..14];
    } else if |name| == 14 {
      assert name[..14] == name;
    }
  }

  lemma LengthIsRead(m: Matcher, w: seq<byte>, t: byte)
    requires w != [] && Knows(m, w)
    ensures Is(w + [t], "content-length") ==> m.hs.MatchingContentLength?
    ensures m.hs.MatchingContentLength? ==> |w| < 14
  {
    WordGrows(w, t);
    NamesDiffer(w);
    hide IsPrefix;
  }

  lemma NextNameByte(f: Fields, log: Log, init: seq<byte>, c: byte, env: Env)
    requires init != [] && TokenOf(c) != 0 && forall x <- init :: TokenOf(x) != 0
    requires !(f.flags.contentLength && BeginsWithLength(init)) && !Upgraded(AfterName(f, init), log)
    ensures var o := Run(AfterName(f, init), log, [c], env);
            if f.flags.contentLength && BeginsWithLength(init + [c])
            then o == Failed(log, [c], UnexpectedContentLength)
            else o == Stopped(AfterName(f, init + [c]), Emit(log, Data(FieldName, [c])), [])
  {
    var g := AfterName(f, init);
    LengthIsNamedOnce(f, init, c);
    NameRunStep(init, c);
    NameStep(g, c, env);
    assert LengthNamed(g, c) ==> !BeginsWithLength(init);
    hide TokenOf, NameRun, Lowered, BeginsWithLength, MoveOf, EffectOf, After, Upgraded, Run;
    if SecondLength(g, c) {
      BadByte(g, log, c, env);
    } else {
      assert After(g, c, env) == AfterName(f, init + [c]);
      OneByte(g, log, c, env);
    }
  }

  /**
   Reading a header name: it is told as it is, the matcher runs over it, and a name that begins with "content-length"
   counts as a Content-Length, whatever follows: a second one is refused at its fourteenth character.
   */
  lemma {:induction false} NameRead(f: Fields, log: Log, name: seq<byte>, env: Env)
    requires f.st.HeaderFieldStart? && !Upgraded(f, log) && name != [] && forall c <- name :: TokenOf(c) != 0
    ensures var o := Run(f, log, name, env);
            if f.flags.contentLength && BeginsWithLength(name)
            then o.Failed? && o.errno == UnexpectedContentLength
            else o == Stopped(AfterName(f, name), Emit(log, Data(FieldName, name)), [])
    decreases |name|
  {
    var init, c := name[..|name| - 1], name[|name| - 1];
    assert name == init + [c];
    if init == [] {
      FirstNameByte(f, log, c, env);
    } else {
      NameRead(f, log, init, env);
      LengthIsNamedOnce(f, init, c);
      hide TokenOf, BeginsWithLength, AfterName, Run, Emit, Upgraded;
      if f.flags.contentLength && BeginsWithLength(init) {
        ThenFailed(f, log, init, [c], env);
      } else {
        var g, log' := AfterName(f, init), Emit(log, Data(FieldName, init));
        DataIsNoExit(g, log, FieldName, init);
        NextNameByte(f, log', init, c, env);
        Then(f, log, init, g, log', [c], env);
        EmitMerges(log, FieldName, init, [c]);
      }
    }
  }

  // ---------- transfer codings ----------

  function LowerAll(s: seq<byte>): (w: seq<byte>)
    ensures |w| == |s| && forall i :: 0 <= i < |w| ==> w[i] == Lower(s[i])
  {
    seq(|s|, i requires 0 <= i < |s| => Lower(s[i]))
  }

  /** "chunked", in any case, and nothing but spaces after it. */
  predicate IsChunkedValue(v: seq<byte>) {
    7 <= |v| && Is(LowerAll(v[..7]), "chunked") && forall i :: 7 <= i < |v| ==> v[i] == SP
  }

  /** The matcher after a nonempty value of Transfer-Encoding. */
  function CodingRun(v: seq<byte>): (r: Matcher)
    requires v != []
  {
    if |v| == 1 then Matcher(ValueStart(TransferEncoding, v[0]), 0)
    else ValueMatch(CodingRun(v[..|v| - 1]), v[|v| - 1])
  }

  predicate KnowsCoding(m: Matcher, v: seq<byte>) {
    if m.hs.MatchingChunked? then Reading(m, LowerAll(v), "chunked", 1)
    else if m.hs.Chunked? then IsChunkedValue(v)
    else m.hs.General? && !IsPrefix(LowerAll(v), "chunked") && !IsChunkedValue(v)
  }

  lemma CodingStep(init: seq<byte>, c: byte)
    requires init != []
    ensures CodingRun(init + [c]) == ValueMatch(CodingRun(init), c)
    ensures LowerAll(init + [c]) == LowerAll(init) + [Lower(c)]
  {
    hide ValueMatch, Lower;
    assert (init + [c])[..|init|] == init;
  }

  lemma ChunkedGrows(init: seq<byte>, c: byte)
    ensures IsChunkedValue(init + [c]) <==>
            || (IsChunkedValue(init) && c == SP)
            || (|init| == 6 && IsPrefix(LowerAll(init), "chunked") && Lower(c) == 'd' as int)
  {
    var v := init + [c];
    if |v| == 7 {
      assert v[..7] == v && LowerAll(v) == LowerAll(init) + [Lower(c)];
      PrefixGrows(LowerAll(init), Lower(c), "chunked");
    } else if 7 < |v| {
      assert v[..7] == init[..7];
      assert forall i :: 7 <= i < |init| ==> v[i] == init[i];
      assert v[|init|] == c;
    }
  }

  lemma NextCodingIsKnown(m: Matcher, init: seq<byte>, c: byte)
    requires init != [] && KnowsCoding(m, init)
    ensures KnowsCoding(ValueMatch(m, c), init + [c])
  {
    var w, t := LowerAll(init), Lower(c);
    CodingStep(init, c);
    ChunkedGrows(init, c);
    PrefixGrows(w, t, "chunked");
    if m.hs.MatchingChunked? {
      CodingWordIsKnown(m, w, t);
      assert !IsChunkedValue(init);
    } else if m.hs.Chunked? {
      assert 7 <= |w|;
    }
    hide IsPrefix, IsChunkedValue, Lower, LowerAll, Match;
  }

  lemma CodingWordIsKnown(m: Matcher, w: seq<byte>, t: byte)
    requires Reading(m, w, "chunked", 1)
    ensures var n := Match(m, t, "chunked", General, Chunked);
            && n.index == |w|
            && (t == "chunked"[|w|] as int ==> n.hs == if |w| == 6 then Chunked else m.hs)
            && (t != "chunked"[|w|] as int ==> n.hs == General)
  {
    hide IsPrefix;
  }

  lemma {:induction false} CodingIsKnown(v: seq<byte>)
    requires v != []
    ensures KnowsCoding(CodingRun(v), v)
    decreases |v|
  {
    var init, c := v[..|v| - 1], v[|v| - 1];
    assert v == init + [c];
    if init == [] {
      var w := LowerAll(v);
      assert w == [Lower(c)] && !IsChunkedValue(v);
      assert IsPrefix(w, "chunked") <==> w[0] == 'c' as int;
    } else {
      CodingIsKnown(init);
      CodingStep(init, c);
      NextCodingIsKnown(CodingRun(init), init, c);
    }
  }

  /** A transfer coding is taken for chunked exactly when it is that word, whatever its case, with spaces after it. */
  lemma ChunkedRecognised(v: seq<byte>)
    requires v != []
    ensures CodingRun(v).hs.Chunked? <==> IsChunkedValue(v)
  {
    CodingIsKnown(v);
    if 7 <= |v| {
      assert LowerAll(v)[..7] == LowerAll(v[..7]);
    }
    hide CodingRun;
  }

  predicate IsValueByte(c: byte, env: Env) { Skippable(c) && (env.lenient || IsHeaderChar(c)) }

  function AfterCoding(f: Fields, v: seq<byte>): (r: Fields)
    requires v != []
  {
    f.(st := HeaderValue, hs := CodingRun(v).hs, index := CodingRun(v).index, seen := More(f.seen, |v|))
  }

  /** A value of Transfer-Encoding begins with this byte. */
  predicate CodingDue(f: Fields, c: byte) {
    f.hs.TransferEncoding? && (f.st.HeaderValueStart? || (f.st.HeaderValueDiscardWs? && c != SP && c != TAB))
  }

  lemma FirstCodingByte(f: Fields, log: Log, c: byte, env: Env)
    requires CodingDue(f, c) && Skippable(c) && !Upgraded(f, log)
    ensures Run(f, log, [c], env) == Stopped(AfterCoding(f, [c]), Emit(log, Data(FieldValue, [c])), [])
  {
    assert MoveOf(f, c, env) == Note(HeaderValue, Data(FieldValue, [c]));
    assert After(f, c, env) == AfterCoding(f, [c]);
    hide Run, MoveOf, EffectOf, Upgraded, After, AfterCoding;
    OneByte(f, log, c, env);
  }

  lemma NextCodingByte(f: Fields, log: Log, init: seq<byte>, c: byte, env: Env)
    requires init != [] && IsValueByte(c, env) && !Upgraded(AfterCoding(f, init), log)
    ensures Run(AfterCoding(f, init), log, [c], env)
            == Stopped(AfterCoding(f, init + [c]), Emit(log, Data(FieldValue, [c])), [])
  {
    var g := AfterCoding(f, init);
    CodingIsKnown(init);
    CodingStep(init, c);
    ValueStep(g, c, env);
    hide CodingRun, ValueMatch, MoveOf, EffectOf, After, Upgraded, Run, IsHeaderChar, BadLengthByte;
    assert After(g, c, env) == AfterCoding(f, init + [c]);
    OneByte(g, log, c, env);
  }

  /** Reading a value of Transfer-Encoding: it is told as it is, and the matcher runs over it. */
  lemma {:induction false} CodingRead(f: Fields, log: Log, v: seq<byte>, env: Env)
    requires v != [] && CodingDue(f, v[0]) && !Upgraded(f, log) && forall c <- v :: IsValueByte(c, env)
    ensures Run(f, log, v, env) == Stopped(AfterCoding(f, v), Emit(log, Data(FieldValue, v)), [])
    decreases |v|
  {
    var init, c := v[..|v| - 1], v[|v| - 1];
    assert v == init + [c] && IsValueByte(v[|v| - 1], env);
    if init == [] {
      FirstCodingByte(f, log, c, env);
    } else {
      CodingRead(f, log, init, env);
      assert CodingDue(f, init[0]) && forall x <- init :: IsValueByte(x, env);
      hide IsValueByte, AfterCoding, Run, Emit, Upgraded, CodingDue;
      var g, log' := AfterCoding(f, init), Emit(log, Data(FieldValue, init));
      DataIsNoExit(g, log, FieldValue, init);
      NextCodingByte(f, log', init, c, env);
      Then(f, log, init, g, log', [c], env);
      EmitMerges(log, FieldValue, init, [c]);
    }
  }

  // ---------- a whole line ----------

  /** A line ends with CR LF, or with LF alone. */
  predicate IsLineEnd(eol: seq<byte>) { eol == [CR, LF] || eol == [LF] }

  predicate IsSpace(c: byte) { c == SP || c == TAB }

  /** Spaces before a value are skipped. */
  lemma {:induction false} SpacesRun(f: Fields, log: Log, ws: seq<byte>, env: Env)
    requires f.st.HeaderValueDiscardWs? && !Upgraded(f, log) && forall c <- ws :: IsSpace(c)
    ensures Run(f, log, ws, env) == Stopped(f.(seen := More(f.seen, |ws|)), log, [])
    decreases |ws|
  {
    if ws == [] {
      assert More(f.seen, 0) == f.seen;
    } else {
      var init, c := ws[..|ws| - 1], ws[|ws| - 1];
      var g := f.(seen := More(f.seen, |init|));
      assert ws == init + [c] && IsSpace(ws[|ws| - 1]);
      assert MoveOf(g, c, env) == To(HeaderValueDiscardWs) && After(g, c, env) == f.(seen := More(f.seen, |ws|));
      assert !Upgraded(g, log);
      hide MoveOf, EffectOf, After, Upgraded;
      SpacesRun(f, log, init, env);
      hide Run;
      OneByte(g, log, c, env);
      Then(f, log, init, g, log, [c], env);
    }
  }

  /** The end of a line with a value: the value is told, and the next line may continue it. */
  lemma LineEnds(f: Fields, log: Log, eol: seq<byte>, env: Env)
    requires f.st.HeaderValue? && !Upgraded(f, log) && IsLineEnd(eol)
    ensures Run(f, log, eol, env)
            == Stopped(f.(st := HeaderValueLws, seen := More(f.seen, |eol|)), Emit(log, Data(FieldValue, [])), [])
  {
    var log1 := Emit(log, Data(FieldValue, []));
    var g := if eol == [LF] then f.(st := HeaderAlmostDone) else f.(st := HeaderAlmostDone, seen := More(f.seen, 1));
    var h := f.(st := HeaderValueLws, seen := More(f.seen, |eol|));
    ValueEndMoves(f, env);
    LineFeedMoves(g, env);
    hide MoveOf, EffectOf, After, Upgraded, Emit;
    DataIsNoExit(g, log, FieldValue, []);
    OneByte(g, log1, LF, env);
    hide Run;
    if eol == [LF] {
      LooksOnce(f, log, LF, env);
    } else {
      OneByte(f, log, CR, env);
      Then(f, log, [CR], g, log1, [LF], env);
      assert [CR] + [LF] == eol;
    }
  }

  lemma LineFeedMoves(f: Fields, env: Env)
    requires f.st.HeaderAlmostDone?
    ensures MoveOf(f, LF, env) == To(HeaderValueLws)
    ensures After(f, LF, env) == f.(st := HeaderValueLws, seen := More(f.seen, 1))
  {
  }

  lemma ValueEndMoves(f: Fields, env: Env)
    requires f.st.HeaderValue?
    ensures MoveOf(f, CR, env) == Note(HeaderAlmostDone, Data(FieldValue, []))
    ensures After(f, CR, env) == f.(st := HeaderAlmostDone, seen := More(f.seen, 1))
    ensures MoveOf(f, LF, env) == NoteAgain(HeaderAlmostDone, Data(FieldValue, []))
    ensures After(f, LF, env) == f.(st := HeaderAlmostDone)
  {
  }

  lemma LooksOnce(f: Fields, log: Log, c: byte, env: Env)
    requires !Upgraded(f, log) && MoveOf(f, c, env).Go? && !MoveOf(f, c, env).consumed
    ensures Run(f, log, [c], env) == Run(After(f, c, env), Noted(log, MoveOf(f, c, env).note), [c], env)
  {
    hide MoveOf, EffectOf, After, Upgraded, Rank;
    MoveMakesProgress(f, c, env);
  }

  lemma ColonRuns(f: Fields, log: Log, env: Env)
    requires f.st.HeaderField? && !Upgraded(f, log)
    ensures Run(f, log, [58], env)
            == Stopped(f.(st := HeaderValueDiscardWs, seen := More(f.seen, 1)), Emit(log, Data(FieldName, [])), [])
  {
    assert MoveOf(f, 58, env) == Note(HeaderValueDiscardWs, Data(FieldName, []));
    assert After(f, 58, env) == f.(st := HeaderValueDiscardWs, seen := More(f.seen, 1));
    hide Run, MoveOf, EffectOf, After, Upgraded;
    OneByte(f, log, 58, env);
  }

  /** A header line up to its value. */
  function LineStart(name: seq<byte>, ws: seq<byte>): (r: seq<byte>) { name + [58] + ws }

  /** The fields before the value. */
  function BeforeValue(f: Fields, name: seq<byte>, ws: seq<byte>): (r: Fields)
    requires name != []
  {
    AfterName(f, name).(st := HeaderValueDiscardWs, seen := More(f.seen, |LineStart(name, ws)|))
  }

  lemma LineStarts(f: Fields, log: Log, name: seq<byte>, ws: seq<byte>, env: Env)
    requires f.st.HeaderFieldStart? && !Upgraded(f, log) && name != [] && forall c <- name :: TokenOf(c) != 0
    requires !(f.flags.contentLength && BeginsWithLength(name)) && forall c <- ws :: IsSpace(c)
    ensures var log1 := Emit(log, Data(FieldName, name));
            && Run(f, log, LineStart(name, ws), env) == Stopped(BeforeValue(f, name, ws), log1, [])
            && !Upgraded(BeforeValue(f, name, ws), log1)
  {
    hide Run, Upgraded, Emit, NameRun, BeginsWithLength, TokenOf;
    var log1 := Emit(log, Data(FieldName, name));
    NameRead(f, log, name, env);
    var g := AfterName(f, name);
    DataIsNoExit(g, log, FieldName, name);
    ColonRuns(g, log1, env);
    EmitMerges(log, FieldName, name, []);
    assert name + [] == name;
    Then(f, log, name, g, log1, [58], env);
    var h := g.(st := HeaderValueDiscardWs, seen := More(g.seen, 1));
    DataIsNoExit(h, log, FieldName, name);
    SpacesRun(h, log1, ws, env);
    Then(f, log, name + [58], h, log1, ws, env);
    DataIsNoExit(BeforeValue(f, name, ws), log, FieldName, name);
  }

  lemma CodingIsNoLength(name: seq<byte>)
    requires name != [] && Is(Lowered(name), "transfer-encoding")
    ensures !BeginsWithLength(name)
  {
    hide TokenOf;
    if 14 <= |name| {
      assert Lowered(name[..14])[0] == TokenOf(name[0]) == Lowered(name)[0];
    }
  }

  /**
   A line of Transfer-Encoding, its name and coding in any case: name and value are told as they are. Once the line is
   over and not continued, the message is chunked if and only if it was before, or the value is "chunked" with nothing
   but spaces after it; no other flag changes.
   */
  lemma CodingLine(
    f: Fields, log: Log, name: seq<byte>, ws: seq<byte>, v: seq<byte>, eol: seq<byte>, c: byte, env: Env)
    requires f.st.HeaderFieldStart? && !Upgraded(f, log)
    requires name != [] && (forall x <- name :: TokenOf(x) != 0) && Is(Lowered(name), "transfer-encoding")
    requires (forall x <- ws :: IsSpace(x)) && IsLineEnd(eol) && !IsSpace(c)
    requires v != [] && !IsSpace(v[0]) && forall x <- v :: IsValueByte(x, env)
    ensures var o := Run(f, log, LineStart(name, ws) + v + eol, env);
            && o.Stopped? && o.rest == []
            && o.log == Emit(Emit(log, Data(FieldName, name)), Data(FieldValue, v))
            && MoveOf(o.f, c, env) == Again(HeaderFieldStart)
            && After(o.f, c, env).flags == f.flags.(chunked := f.flags.chunked || IsChunkedValue(v))
  {
    CodingIsNoLength(name);
    NamesRecognised(name);
    hide Run, Upgraded, Emit, NameRun, BeginsWithLength, TokenOf, CodingRun, IsChunkedValue, IsValueByte, MoveOf,
         EffectOf, Lowered, Is;
    var start, log1 := LineStart(name, ws), Emit(log, Data(FieldName, name));
    var g := BeforeValue(f, name, ws);
    LineStarts(f, log, name, ws, env);
    CodingRead(g, log1, v, env);
    var h, log2 := AfterCoding(g, v), Emit(log1, Data(FieldValue, v));
    Then(f, log, start, g, log1, v, env);
    DataIsNoExit(h, log1, FieldValue, v);
    LineEnds(h, log2, eol, env);
    Then(f, log, start + v, h, log2, eol, env);
    EmitMerges(log1, FieldValue, v, []);
    assert v + [] == v;
    CodingIsKnown(v);
    ChunkedRecognised(v);
    CodingTakesEffect(h.(st := HeaderValueLws, seen := More(h.seen, |eol|)), v, c, env);
  }

  lemma CodingTakesEffect(f: Fields, v: seq<byte>, c: byte, env: Env)
    requires f.st.HeaderValueLws? && !IsSpace(c) && v != [] && f.hs == CodingRun(v).hs
    ensures MoveOf(f, c, env) == Again(HeaderFieldStart)
    ensures After(f, c, env).flags == f.flags.(chunked := f.flags.chunked || IsChunkedValue(v))
  {
    assert EffectOf(f, c, env) == f.(flags := Settled(f.hs, f.flags));
    assert MoveOf(f, c, env) == Again(HeaderFieldStart);
    hide MoveOf, EffectOf, CodingRun, IsChunkedValue, IsPrefix, LowerAll;
    CodingIsKnown(v);
    ChunkedRecognised(v);
  }
}
