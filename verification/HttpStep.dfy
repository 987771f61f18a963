/**
 One turn of the parser's switch on one byte: the slow, byte-at-a-time reading of
 `http_parser_execute`, without buffers, data marks or fast paths.
 */
module HttpStep {
  import opened Common
  import opened HttpTypes

  /** Where one turn leads: the next state, at most one callback, and whether the byte is used up. */
  datatype Move = Go(st: State, note: Option<Event>, consumed: bool) | Fail(errno: Errno)

  /** What the parser was set up with; `skipBody` is what on_headers_complete answers. */
  datatype Env = Env(lenient: bool, skipBody: Fields -> bool)

  function To(st: State): (r: Move) { Go(st, None, true) }
  function Again(st: State): (r: Move) { Go(st, None, false) }
  function Note(st: State, ev: Event): (r: Move) { Go(st, Some(ev), true) }
  function NoteAgain(st: State, ev: Event): (r: Move) { Go(st, Some(ev), false) }
  function Expect(ok: bool, st: State, e: Errno): (r: Move) { if ok then To(st) else Fail(e) }

  // ---------- end of message ----------

  predicate NeedsEof(f: Fields) {
    && !f.line.kind.Request?
    && f.line.statusCode / 100 != 1 && f.line.statusCode != 204 && f.line.statusCode != 304 && !f.flags.skipBody
    && !f.flags.chunked && f.contentLength == MAX64
  }

  predicate ShouldKeepAlive(f: Fields) {
    && (if f.line.major > 0 && f.line.minor > 0 then !f.flags.close else f.flags.keepAlive)
    && !NeedsEof(f)
  }

  function NewMessage(f: Fields): (r: State)
    ensures r == Dead || r == StartReq || r == StartRes
  {
    if !ShouldKeepAlive(f) then Dead else if f.line.kind.Request? then StartReq else StartRes
  }

  // ---------- URL characters ----------

  predicate InUrl(st: State) {
    || st.ReqSchema? || st.ReqSchemaSlash? || st.ReqSchemaSlashSlash? || st.ReqServerStart? || st.ReqServer?
    || st.ReqServerWithAt? || st.ReqPath? || st.ReqQueryStringStart? || st.ReqQueryString? || st.ReqFragmentStart?
    || st.ReqFragment?
  }

  /** `parse_url_char`; `Dead` refuses the character. */
  function UrlState(s: State, c: byte): (r: State)
    ensures r == Dead || InUrl(r)
  {
    if (c == SP || c == CR || c == LF || c == TAB || c == 12) then Dead
    else
      if s.ReqSpacesBeforeUrl? then (
        if c == '/' as int || c == '*' as int then ReqPath else if IsAlpha(c) then ReqSchema else Dead)
      else if s.ReqSchema? then (
        if IsAlpha(c) then ReqSchema else if c == ':' as int then ReqSchemaSlash else Dead)
      else if s.ReqSchemaSlash? then if c == '/' as int then ReqSchemaSlashSlash else Dead
      else if s.ReqSchemaSlashSlash? then if c == '/' as int then ReqServerStart else Dead
      else if s.ReqServerWithAt? then if c == '@' as int then Dead else ServerState(c)
      else if s.ReqServerStart? then ServerState(c)
      else if s.ReqServer? then ServerState(c)
      else if s.ReqPath? then (
        if IsUrlChar(c) then ReqPath else if c == '?' as int then ReqQueryStringStart
        else if c == '#' as int then ReqFragmentStart else Dead)
      else if s.ReqQueryStringStart? then QueryState(c)
      else if s.ReqQueryString? then QueryState(c)
      else if s.ReqFragmentStart? then (
        if IsUrlChar(c) || c == '?' as int then ReqFragment else if c == '#' as int then ReqFragmentStart else Dead)
      else if s.ReqFragment? then if IsUrlChar(c) || c == '?' as int || c == '#' as int then ReqFragment else Dead
      else Dead
  }

  function ServerState(c: byte): (r: State) {
    if c == '/' as int then ReqPath
    else if c == '?' as int then ReqQueryStringStart
    else if c == '@' as int then ReqServerWithAt
    else if IsUserinfoChar(c) || c == '[' as int || c == ']' as int then ReqServer
    else Dead
  }

  function QueryState(c: byte): (r: State) {
    if IsUrlChar(c) || c == '?' as int then ReqQueryString else if c == '#' as int then ReqFragmentStart else Dead
  }

  // ---------- start of a message and response line ----------

  function FirstMethod(c: byte): (r: Option<Method>) {
    if c == 'A' as int then Some(ACL) else if c == 'B' as int then Some(BIND) else if c == 'C' as int then Some(CONNECT)
    else if c == 'D' as int then Some(DELETE) else if c == 'G' as int then Some(GET)
    else if c == 'H' as int then Some(HEAD) else if c == 'L' as int then Some(LOCK)
    else if c == 'M' as int then Some(MKCOL) else if c == 'N' as int then Some(NOTIFY)
    else if c == 'O' as int then Some(OPTIONS) else if c == 'P' as int then Some(POST)
    else if c == 'R' as int then Some(REPORT) else if c == 'S' as int then Some(SUBSCRIBE)
    else if c == 'T' as int then Some(TRACE) else if c == 'U' as int then Some(UNLOCK)
    else None
  }

  function StartMove(st: State, c: byte): (r: Move) {
    if st.Dead? then Expect(c == CR || c == LF, Dead, ClosedConnection)
    else if st.StartReqOrRes? then (
      if c == CR || c == LF then To(StartReqOrRes)
      else if c == 'H' as int then Note(ResOrRespH, MessageBegin)
      else Again(StartReq))
    else if st.ResOrRespH? then (
      if c == 'T' as int then To(ResHT) else Expect(c == 'E' as int, ReqMethod, InvalidConstant))
    else if st.StartRes? then (
      if c == 'H' as int then Note(ResH, MessageBegin)
      else if c == CR || c == LF then Note(StartRes, MessageBegin)
      else Fail(InvalidConstant))
    else  // StartReq
      if c == CR || c == LF then To(StartReq)
      else if FirstMethod(c).Some? then Note(ReqMethod, MessageBegin)
      else Fail(InvalidMethod)
  }

  function Digits(n: nat, c: byte): (r: nat) { if IsNum(c) then n * 10 + (c - 48) else n }

  /** Another digit, of a number that may not exceed 999. */
  function Number(n: nat, c: byte, st: State, e: Errno): (r: Move) { Expect(IsNum(c) && Digits(n, c) <= 999, st, e) }

  function ResponseLineMove(st: State, l: Line, c: byte): (r: Move) {
    if st.ResH? then Expect(c == 'T' as int, ResHT, Strict)
    else if st.ResHT? then Expect(c == 'T' as int, ResHTT, Strict)
    else if st.ResHTT? then Expect(c == 'P' as int, ResHTTP, Strict)
    else if st.ResHTTP? then Expect(c == '/' as int, ResFirstHttpMajor, Strict)
    else if st.ResFirstHttpMajor? then Expect(IsNum(c), ResHttpMajor, InvalidVersion)
    else if st.ResHttpMajor? then (
      if c == '.' as int then To(ResFirstHttpMinor) else Number(l.major, c, ResHttpMajor, InvalidVersion))
    else if st.ResFirstHttpMinor? then Expect(IsNum(c), ResHttpMinor, InvalidVersion)
    else if st.ResHttpMinor? then (
      if c == SP then To(ResFirstStatusCode) else Number(l.minor, c, ResHttpMinor, InvalidVersion))
    else if st.ResFirstStatusCode? then (
      if c == SP then To(ResFirstStatusCode) else Expect(IsNum(c), ResStatusCode, InvalidStatus))
    else if st.ResStatusCode? then (
      if c == SP then To(ResStatusStart)
      else if c == CR then To(ResLineAlmostDone)
      else if c == LF then To(HeaderFieldStart)
      else Number(l.statusCode, c, ResStatusCode, InvalidStatus))
    else if st.ResStatusStart? then (
      if c == CR then To(ResLineAlmostDone)
      else if c == LF then To(HeaderFieldStart)
      else Note(ResStatus, Data(Status, [c])))
    else if st.ResStatus? then (
      if c == CR then Note(ResLineAlmostDone, Data(Status, []))
      else if c == LF then Note(HeaderFieldStart, Data(Status, []))
      else Note(ResStatus, Data(Status, [c])))
    else Expect(c == LF, HeaderFieldStart, Strict)  // ResLineAlmostDone
  }

  // ---------- request line ----------

  /** The method the parser switches to when `c` does not match at `index`; None is an error. */
  function OtherMethod(m: Method, index: nat, c: byte): (r: Option<Method>) {
    if m.CONNECT? then (
      if index == 1 && c == 'H' as int then Some(CHECKOUT)
      else if index == 2 && c == 'P' as int then Some(COPY) else None)
    else if m.MKCOL? then (
      if index == 1 && c == 'O' as int then Some(MOVE)
      else if index == 1 && c == 'E' as int then Some(MERGE)
      else if index == 1 && c == '-' as int then Some(MSEARCH)
      else if index == 2 && c == 'A' as int then Some(MKACTIVITY)
      else if index == 3 && c == 'A' as int then Some(MKCALENDAR) else None)
    else if m.SUBSCRIBE? then if index == 1 && c == 'E' as int then Some(SEARCH) else None
    else if m.REPORT? then if index == 2 && c == 'B' as int then Some(REBIND) else None
    else
      if index == 1 then
        if m == POST then
          if c == 'R' as int then Some(PROPFIND) else if c == 'U' as int then Some(PUT)
          else if c == 'A' as int then Some(PATCH) else None
        else if m == LOCK then
          if c == 'I' as int then Some(LINK) else None
        else Some(m)  // the code falls through here without an error
      else if index == 2 then
        if m == PUT then
          if c == 'R' as int then Some(PURGE) else None
        else if m == UNLOCK then
          if c == 'S' as int then Some(UNSUBSCRIBE) else if c == 'B' as int then Some(UNBIND) else None
        else None
      else if index == 4 && m == PROPFIND && c == 'P' as int then Some(PROPPATCH)
      else if index == 3 && m == UNLOCK && c == 'I' as int then Some(UNLINK)
      else None
  }

  /** The method after one more byte of its name. */
  function MethodAfter(m: Method, index: nat, c: byte): (r: Option<Method>) {
    var expected := CharAt(MethodName(m), index);
    if c == 0 then None
    else if (c == SP && expected == 0) || c == expected then Some(m)
    else OtherMethod(m, index, c)
  }

  function UrlMove(from: State, c: byte): (r: Move) {
    var st := UrlState(from, c);
    if st == Dead then Fail(InvalidUrl) else Note(st, Data(Url, [c]))
  }

  predicate UrlMayEnd(st: State) {
    !(st.ReqSchema? || st.ReqSchemaSlash? || st.ReqSchemaSlashSlash? || st.ReqServerStart?)
  }

  function RequestLineMove(st: State, index: nat, l: Line, c: byte): (r: Move) {
    if st.ReqMethod? then (
      if MethodAfter(l.verb, index, c).None? then Fail(InvalidMethod)
      else if c == SP && CharAt(MethodName(l.verb), index) == 0 then To(ReqSpacesBeforeUrl)
      else To(ReqMethod))
    else if st.ReqSpacesBeforeUrl? then (
      if c == SP then To(ReqSpacesBeforeUrl)
      else UrlMove(if l.verb == CONNECT then ReqServerStart else ReqSpacesBeforeUrl, c))
    else if st.ReqHttpStart? then (
      if c == 'H' as int then To(ReqHttpH) else Expect(c == SP, ReqHttpStart, InvalidConstant))
    else if st.ReqHttpH? then Expect(c == 'T' as int, ReqHttpHT, Strict)
    else if st.ReqHttpHT? then Expect(c == 'T' as int, ReqHttpHTT, Strict)
    else if st.ReqHttpHTT? then Expect(c == 'P' as int, ReqHttpHTTP, Strict)
    else if st.ReqHttpHTTP? then Expect(c == '/' as int, ReqFirstHttpMajor, Strict)
    else if st.ReqFirstHttpMajor? then Expect(49 <= c <= 57, ReqHttpMajor, InvalidVersion)
    else if st.ReqHttpMajor? then (
      if c == '.' as int then To(ReqFirstHttpMinor) else Number(l.major, c, ReqHttpMajor, InvalidVersion))
    else if st.ReqFirstHttpMinor? then Expect(IsNum(c), ReqHttpMinor, InvalidVersion)
    else if st.ReqHttpMinor? then (
      if c == CR then To(ReqLineAlmostDone)
      else if c == LF then To(HeaderFieldStart)
      else Number(l.minor, c, ReqHttpMinor, InvalidVersion))
    else if st.ReqLineAlmostDone? then Expect(c == LF, HeaderFieldStart, LfExpected)
    else  // inside the URL
      if c == SP && UrlMayEnd(st) then Note(ReqHttpStart, Data(Url, []))
      else if c == CR && UrlMayEnd(st) then Note(ReqLineAlmostDone, Data(Url, []))
      else if c == LF && UrlMayEnd(st) then Note(HeaderFieldStart, Data(Url, []))
      else UrlMove(st, c)
  }

  /** What the start line's bytes record. */
  function LineAfter(f: Fields, c: byte): (r: Line) {
    var l := f.line;
    if f.st.StartReqOrRes? then if c == CR || c == LF || c == 'H' as int then l else l.(kind := Request)
    else if f.st.ResOrRespH? then if c == 'T' as int then l.(kind := Response) else l.(kind := Request, verb := HEAD)
    else if f.st.StartReq? then if FirstMethod(c).Some? then l.(verb := FirstMethod(c).value) else l
    else if f.st.ReqMethod? then (
      var m := MethodAfter(l.verb, f.index, c);
      if m.Some? then l.(verb := m.value) else l)
    else if f.st.ResFirstHttpMajor? || f.st.ReqFirstHttpMajor? then l.(major := Digits(0, c))
    else if f.st.ResHttpMajor? || f.st.ReqHttpMajor? then l.(major := Digits(l.major, c))
    else if f.st.ResFirstHttpMinor? || f.st.ReqFirstHttpMinor? then l.(minor := Digits(0, c))
    else if f.st.ResHttpMinor? || f.st.ReqHttpMinor? then l.(minor := Digits(l.minor, c))
    else if f.st.ResFirstStatusCode? then if IsNum(c) then l.(statusCode := Digits(0, c)) else l
    else if f.st.ResStatusCode? then l.(statusCode := Digits(l.statusCode, c))
    else if InUrl(f.st) && (c == CR || c == LF) then l.(major := 0, minor := 9) else l
  }

  function LineIndexAfter(f: Fields, c: byte): (r: nat) {
    if f.st.ResOrRespH? then if c == 'E' as int then 2 else f.index
    else if f.st.StartReq? then if c == CR || c == LF then f.index else 1
    else if f.st.ReqMethod? then (f.index + 1) % 128
    else if f.st.ResStatusStart? then if c == CR || c == LF then f.index else 0
    else f.index
  }

  /** A new message begins with this byte. */
  predicate Begins(st: State, c: byte) {
    if st.StartReqOrRes? || st.StartReq? then c != CR && c != LF
    else st.StartRes?
  }

  function LineEffect(f: Fields, c: byte): (r: Fields) {
    var g := f.(line := LineAfter(f, c), index := LineIndexAfter(f, c));
    if Begins(f.st, c) then g.(flags := NO_FLAGS, contentLength := MAX64) else g
  }

  // ---------- header fields ----------

  datatype Matcher = Matcher(hs: HeaderState, index: nat)

  function FirstHeaderState(c: byte): (r: HeaderState) {
    if c == 'c' as int then SeenC
    else if c == 'p' as int then MatchingProxyConnection
    else if c == 't' as int then MatchingTransferEncoding
    else if c == 'u' as int then MatchingUpgrade
    else General
  }

  /** Compare the next character of `word`; `miss` on a difference, `hit` on its last character. */
  function Match(m: Matcher, c: byte, word: string, miss: HeaderState, hit: HeaderState): (r: Matcher) {
    var i := (m.index + 1) % 128;
    Matcher(if i > |word| || c != CharAt(word, i) then miss else if i == |word| - 1 then hit else m.hs, i)
  }

  /** The header-field matcher on token `c` of byte `ch`. */
  function NameMatch(m: Matcher, ch: byte): (r: Matcher) {
    var c := TokenOf(ch);
    if m.hs.SeenC? then Matcher(if c == 'o' as int then SeenCO else General, (m.index + 1) % 128)
    else if m.hs.SeenCO? then Matcher(if c == 'n' as int then SeenCON else General, (m.index + 1) % 128)
    else if m.hs.SeenCON? then (
      Matcher(if c == 'n' as int then MatchingConnection
              else if c == 't' as int then MatchingContentLength else General, (m.index + 1) % 128))
    else if m.hs.MatchingConnection? then Match(m, c, "connection", General, Connection)
    else if m.hs.MatchingProxyConnection? then Match(m, c, "proxy-connection", General, Connection)
    else if m.hs.MatchingContentLength? then Match(m, c, "content-length", General, ContentLength)
    else if m.hs.MatchingTransferEncoding? then Match(m, c, "transfer-encoding", General, TransferEncoding)
    else if m.hs.MatchingUpgrade? then Match(m, c, "upgrade", General, Upgrade)
    else if m.hs.Connection? || m.hs.ContentLength? || m.hs.TransferEncoding? || m.hs.Upgrade? then (
      if ch != SP then m.(hs := General) else m)
    else m
  }

  function OptionStart(c: byte): (r: HeaderState) {
    if c == 'k' as int then MatchingKeepAlive else if c == 'c' as int then MatchingClose
    else if c == 'u' as int then MatchingConnUpgrade else Token
  }

  /** The header state after the first byte of a value. */
  function ValueStart(hs: HeaderState, ch: byte): (r: HeaderState) {
    if hs.TransferEncoding? then if Lower(ch) == 'c' as int then MatchingChunked else General
    else if hs.ContentLength? then ContentLength
    else if hs.Connection? then OptionStart(Lower(ch))
    else if hs.TokenStart? then TokenStart
    else General
  }

  /** The value matcher on a later byte. */
  function ValueMatch(m: Matcher, ch: byte): (r: Matcher) {
    var c := Lower(ch);
    if m.hs.General? || m.hs.Connection? || m.hs.TransferEncoding? || m.hs.ContentLength? then m
    else if m.hs.MatchingChunked? then Match(m, c, "chunked", General, Chunked)
    else if m.hs.TokenStart? then (
      m.(hs := if c == 'k' as int || c == 'c' as int || c == 'u' as int || TokenOf(c) != 0 then OptionStart(c)
               else if c == SP || c == TAB then TokenStart else General))
    else if m.hs.MatchingKeepAlive? then Match(m, c, "keep-alive", Token, KeepAlive)
    else if m.hs.MatchingClose? then Match(m, c, "close", Token, Close)
    else if m.hs.MatchingConnUpgrade? then Match(m, c, "upgrade", Token, ConnUpgrade)
    else if m.hs.Token? then if ch == ',' as int then Matcher(TokenStart, 0) else m
    else if m.hs.Chunked? then if ch != SP then m.(hs := General) else m
    else if m.hs.KeepAlive? || m.hs.Close? || m.hs.ConnUpgrade? then (
      if ch == ',' as int then Matcher(TokenStart, 0) else if ch != SP then m.(hs := Token) else m)
    else m.(hs := General)
  }

  /** A connection option or transfer coding that ends here takes effect. */
  function Settled(hs: HeaderState, flags: Flags): (r: Flags) {
    if hs.KeepAlive? then flags.(keepAlive := true)
    else if hs.Close? then flags.(close := true)
    else if hs.ConnUpgrade? then flags.(connUpgrade := true)
    else if hs.Chunked? then flags.(chunked := true)
    else flags
  }

  predicate IsOption(hs: HeaderState) { hs == KeepAlive || hs == Close || hs == ConnUpgrade }

  /** The digit cannot be appended to a content length. */
  predicate BadLengthByte(n: uint64, ch: byte) { ch != SP && (!IsNum(ch) || (MAX64 - 10) / 10 < n) }

  function HeaderMove(f: Fields, c: byte, env: Env): (r: Move) {
    if f.st.HeaderFieldStart? then (
      if c == CR then To(HeadersAlmostDone)
      else if c == LF then Again(HeadersAlmostDone)
      else if TokenOf(c) == 0 then Fail(InvalidHeaderToken)
      else Note(HeaderField, Data(FieldName, [c])))
    else if f.st.HeaderField? then (
      if c == ':' as int then Note(HeaderValueDiscardWs, Data(FieldName, []))
      else if TokenOf(c) == 0 then Fail(InvalidHeaderToken)
      else if SecondLength(f, c) then Fail(UnexpectedContentLength)
      else Note(HeaderField, Data(FieldName, [c])))
    else if f.st.HeaderValueDiscardWs? then (
      if c == SP || c == TAB then To(HeaderValueDiscardWs)
      else if c == CR then To(HeaderValueDiscardWsAlmostDone)
      else if c == LF then To(HeaderValueDiscardLws)
      else FirstValueMove(f.hs, c))
    else if f.st.HeaderValueStart? then FirstValueMove(f.hs, c)
    else if f.st.HeaderValue? then (
      if c == CR then Note(HeaderAlmostDone, Data(FieldValue, []))
      else if c == LF then NoteAgain(HeaderAlmostDone, Data(FieldValue, []))
      else if !env.lenient && !IsHeaderChar(c) then Fail(InvalidHeaderToken)
      else if f.hs == ContentLength && BadLengthByte(f.contentLength, c) then Fail(InvalidContentLength)
      else Note(HeaderValue, Data(FieldValue, [c])))
    else if f.st.HeaderAlmostDone? then Expect(c == LF, HeaderValueLws, LfExpected)
    else if f.st.HeaderValueLws? then Again(if c == SP || c == TAB then HeaderValueStart else HeaderFieldStart)
    else if f.st.HeaderValueDiscardWsAlmostDone? then Expect(c == LF, HeaderValueDiscardLws, Strict)
    else  // HeaderValueDiscardLws
      if c == SP || c == TAB then To(HeaderValueDiscardWs) else NoteAgain(HeaderFieldStart, Data(FieldValue, []))
  }

  function FirstValueMove(hs: HeaderState, c: byte): (r: Move) {
    if hs == ContentLength && !IsNum(c) then Fail(InvalidContentLength) else Note(HeaderValue, Data(FieldValue, [c]))
  }

  /** The field name just completed is a second Content-Length. */
  predicate SecondLength(f: Fields, c: byte) { LengthNamed(f, c) && f.flags.contentLength }

  predicate LengthNamed(f: Fields, c: byte) {
    f.hs == MatchingContentLength && NameMatch(Matcher(f.hs, f.index), c).hs == ContentLength
  }

  /** The fields after a token byte of a header field. */
  function NameEffect(f: Fields, c: byte): (r: Fields) {
    var m := NameMatch(Matcher(f.hs, f.index), c);
    f.(hs := m.hs, index := m.index,
       flags := if LengthNamed(f, c) then f.flags.(contentLength := true) else f.flags)
  }

  function ValueStartEffect(f: Fields, c: byte): (r: Fields) {
    f.(index := 0, hs := ValueStart(f.hs, c),
       flags := if f.hs == Upgrade then f.flags.(upgrade := true) else f.flags,
       contentLength := if f.hs == ContentLength && IsNum(c) then c - 48 else f.contentLength)
  }

  /** The fields after a later byte of a header value. */
  function ValueEffect(f: Fields, c: byte): (r: Fields) {
    var m := ValueMatch(Matcher(f.hs, f.index), c);
    f.(hs := m.hs, index := m.index,
       flags := if IsOption(f.hs) && c == ',' as int then Settled(f.hs, f.flags) else f.flags,
       contentLength :=
         if f.hs == ContentLength && c != SP && !BadLengthByte(f.contentLength, c) then f.contentLength * 10 + (c - 48)
         else f.contentLength)
  }

  function HeaderEffect(f: Fields, c: byte): (r: Fields) {
    if f.st.HeaderFieldStart? then (
      if TokenOf(c) != 0 then f.(index := 0, hs := FirstHeaderState(TokenOf(c))) else f)
    else if f.st.HeaderField? then if c == ':' as int then f else NameEffect(f, c)
    else if f.st.HeaderValueDiscardWs? then (
      if c == SP || c == TAB || c == CR || c == LF then f else ValueStartEffect(f, c))
    else if f.st.HeaderValueStart? then ValueStartEffect(f, c)
    else if f.st.HeaderValue? then if c == CR || c == LF then f else ValueEffect(f, c)
    else if f.st.HeaderValueLws? || f.st.HeaderValueDiscardLws? then (
      if c == SP || c == TAB then f else f.(flags := Settled(f.hs, f.flags)))
    else f
  }

  // ---------- end of headers, chunks, body ----------

  predicate HasBody(f: Fields) { f.flags.chunked || (f.contentLength > 0 && f.contentLength != MAX64) }

  function HeadersEndMove(f: Fields, c: byte): (r: Move) {
    if c != LF then Fail(Strict)
    else
      if f.st.HeadersAlmostDone? then (
        if f.flags.trailing then NoteAgain(MessageDone, ChunkComplete)
        else if f.flags.chunked && f.flags.contentLength then Fail(UnexpectedContentLength)
        else NoteAgain(HeadersDone, HeadersComplete))
      else  // HeadersDone
        if f.upgrade && (f.line.verb == CONNECT || f.flags.skipBody || !HasBody(f)) then
          Note(NewMessage(f), MessageComplete)
        else if f.flags.skipBody then Note(NewMessage(f), MessageComplete)
        else if f.flags.chunked then To(ChunkSizeStart)
        else if f.contentLength == 0 then Note(NewMessage(f), MessageComplete)
        else if f.contentLength != MAX64 then To(BodyIdentity)
        else if !NeedsEof(f) then Note(NewMessage(f), MessageComplete)
        else To(BodyIdentityEof)
  }

  /** The headers are complete: is an upgrade asked for, and does the application want no body? */
  function HeadersEffect(f: Fields, env: Env): (r: Fields) {
    if f.st == HeadersAlmostDone && !f.flags.trailing then
      var g := f.(st := HeadersDone, upgrade := (f.flags.upgrade && f.flags.connUpgrade) || f.line.verb == CONNECT);
      if env.skipBody(g) then g.(flags := g.flags.(skipBody := true)) else g
    else f
  }

  function ChunkMove(f: Fields, c: byte): (r: Move) {
    if f.st.ChunkSizeStart? then Expect(Unhex(c) != -1, ChunkSize, InvalidChunkSize)
    else if f.st.ChunkSize? then (
      if c == CR then To(ChunkSizeAlmostDone)
      else if Unhex(c) == -1 then Expect(c == ';' as int || c == SP, ChunkParameters, InvalidChunkSize)
      else Expect(f.contentLength <= (MAX64 - 16) / 16, ChunkSize, InvalidContentLength))
    else if f.st.ChunkParameters? then To(if c == CR then ChunkSizeAlmostDone else ChunkParameters)
    else if f.st.ChunkSizeAlmostDone? then (
      if c != LF then Fail(Strict)
      else Note(if f.contentLength == 0 then HeaderFieldStart else ChunkData, ChunkHeader(f.contentLength)))
    else if f.st.ChunkData? then Note(if f.contentLength <= 1 then ChunkDataAlmostDone else ChunkData, Data(Body, [c]))
    else if f.st.ChunkDataAlmostDone? then Expect(c == CR, ChunkDataDone, Strict)
    else if c == LF then Note(ChunkSizeStart, ChunkComplete) else Fail(Strict)  // ChunkDataDone
  }

  function OneLess(n: uint64): (r: uint64) { if n == 0 then 0 else n - 1 }

  function ChunkEffect(f: Fields, c: byte): (r: Fields) {
    if f.st.ChunkSizeStart? then if Unhex(c) == -1 then f else f.(contentLength := Unhex(c))
    else if f.st.ChunkSize? then (
      if c == CR || Unhex(c) == -1 || (MAX64 - 16) / 16 < f.contentLength then f
      else f.(contentLength := f.contentLength * 16 + Unhex(c)))
    else if f.st.ChunkSizeAlmostDone? then if f.contentLength == 0 then f.(flags := f.flags.(trailing := true)) else f
    else if f.st.ChunkData? then f.(contentLength := OneLess(f.contentLength))
    else f
  }

  function BodyMove(f: Fields, c: byte): (r: Move) {
    if f.st.BodyIdentity? then (
      // the last byte is seen again in `MessageDone`
      Go(if f.contentLength <= 1 then MessageDone else BodyIdentity, Some(Data(Body, [c])), f.contentLength > 1))
    else if f.st.BodyIdentityEof? then Note(BodyIdentityEof, Data(Body, [c]))
    else Note(NewMessage(f), MessageComplete)  // MessageDone
  }

  function BodyEffect(f: Fields): (r: Fields) {
    if f.st == BodyIdentity then f.(contentLength := OneLess(f.contentLength)) else f
  }

  // ---------- one turn ----------

  datatype Part = StartPart | ResponseLinePart | RequestLinePart | HeaderPart | HeadersEndPart | ChunkPart | BodyPart

  function PartOf(st: State): (r: Part) {
    if st.Dead? || st.StartReqOrRes? || st.ResOrRespH? || st.StartRes? || st.StartReq? then StartPart
    else if || st.ResH? || st.ResHT? || st.ResHTT? || st.ResHTTP? || st.ResFirstHttpMajor? || st.ResHttpMajor?
            || st.ResFirstHttpMinor? || st.ResHttpMinor? || st.ResFirstStatusCode? || st.ResStatusCode?
            || st.ResStatusStart? || st.ResStatus? || st.ResLineAlmostDone? then ResponseLinePart
    else if || st.HeaderFieldStart? || st.HeaderField? || st.HeaderValueDiscardWs? || st.HeaderValueDiscardWsAlmostDone?
            || st.HeaderValueDiscardLws? || st.HeaderValueStart? || st.HeaderValue? || st.HeaderValueLws?
            || st.HeaderAlmostDone? then HeaderPart
    else if st.HeadersAlmostDone? || st.HeadersDone? then HeadersEndPart
    else if || st.ChunkSizeStart? || st.ChunkSize? || st.ChunkParameters? || st.ChunkSizeAlmostDone? || st.ChunkData?
            || st.ChunkDataAlmostDone? || st.ChunkDataDone? then ChunkPart
    else if st.BodyIdentity? || st.BodyIdentityEof? || st.MessageDone? then BodyPart
    else RequestLinePart
  }

  function MoveOf(f: Fields, c: byte, env: Env): (r: Move) {
    match PartOf(f.st)
    case StartPart => StartMove(f.st, c)
    case ResponseLinePart => ResponseLineMove(f.st, f.line, c)
    case RequestLinePart => RequestLineMove(f.st, f.index, f.line, c)
    case HeaderPart => HeaderMove(f, c, env)
    case HeadersEndPart => HeadersEndMove(f, c)
    case ChunkPart => ChunkMove(f, c)
    case BodyPart => BodyMove(f, c)
  }

  /** The fields, but for the state, after a turn that does not fail. */
  function EffectOf(f: Fields, c: byte, env: Env): (r: Fields) {
    match PartOf(f.st)
    case StartPart | ResponseLinePart | RequestLinePart => LineEffect(f, c)
    case HeaderPart => HeaderEffect(f, c)
    case HeadersEndPart => HeadersEffect(f, env)
    case ChunkPart => ChunkEffect(f, c)
    case BodyPart => BodyEffect(f)
  }

  /** A byte is looked at again only in a state of lower rank. */
  function Rank(st: State): (r: nat)
    ensures r <= 5
  {
    if st.HeaderValue? then 5
    else if st.HeaderValueLws? || st.HeaderValueDiscardLws? then 4
    else if st.HeaderFieldStart? then 3
    else if st.HeadersAlmostDone? then 2
    else if st.StartReqOrRes? || st.BodyIdentity? then 1
    else 0
  }

  lemma MoveMakesProgress(f: Fields, c: byte, env: Env)
    requires MoveOf(f, c, env).Go? && !MoveOf(f, c, env).consumed
    ensures Rank(MoveOf(f, c, env).st) < Rank(f.st) && MoveOf(f, c, env).st != ChunkSizeStart
  {
    match PartOf(f.st)
    case RequestLinePart => RequestLineConsumes(f.st, f.index, f.line, c);
    case ResponseLinePart => ResponseLineConsumes(f.st, f.line, c);
    case ChunkPart => ChunkConsumes(f, c);
    case _ =>
  }

  lemma ResponseLineConsumes(st: State, l: Line, c: byte)
    ensures var m := ResponseLineMove(st, l, c); m.Go? ==> m.consumed
  {
  }

  lemma ChunkConsumes(f: Fields, c: byte)
    ensures var m := ChunkMove(f, c); m.Go? ==> m.consumed
  {
  }

  lemma RequestLineConsumes(st: State, index: nat, l: Line, c: byte)
    ensures var m := RequestLineMove(st, index, l, c); m.Go? ==> m.consumed
  {
  }
}
