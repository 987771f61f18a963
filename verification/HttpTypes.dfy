/**
 The data of the HTTP/1.x parser of deps/http-parser: states, fields, events, character classes.
 The default, strict build; `char` is a signed 8-bit type, held here as its unsigned byte.
 */
module HttpTypes {
  import opened Common

  type uint64 = n: int | 0 <= n <= MAX64
  type uint32 = n: int | 0 <= n < 0x1_0000_0000

  const MAX64: int := 0xFFFF_FFFF_FFFF_FFFF
  const MAX_HEADER_SIZE: int := 80 * 1024

  const CR: int := 13
  const LF: int := 10
  const SP: int := 32
  const TAB: int := 9

  datatype State =
    | Dead | StartReqOrRes | ResOrRespH | StartRes | ResH | ResHT | ResHTT | ResHTTP
    | ResFirstHttpMajor | ResHttpMajor | ResFirstHttpMinor | ResHttpMinor
    | ResFirstStatusCode | ResStatusCode | ResStatusStart | ResStatus | ResLineAlmostDone
    | StartReq | ReqMethod | ReqSpacesBeforeUrl
    | ReqSchema | ReqSchemaSlash | ReqSchemaSlashSlash | ReqServerStart | ReqServer | ReqServerWithAt
    | ReqPath | ReqQueryStringStart | ReqQueryString | ReqFragmentStart | ReqFragment
    | ReqHttpStart | ReqHttpH | ReqHttpHT | ReqHttpHTT | ReqHttpHTTP
    | ReqFirstHttpMajor | ReqHttpMajor | ReqFirstHttpMinor | ReqHttpMinor | ReqLineAlmostDone
    | HeaderFieldStart | HeaderField
    | HeaderValueDiscardWs | HeaderValueDiscardWsAlmostDone | HeaderValueDiscardLws
    | HeaderValueStart | HeaderValue | HeaderValueLws | HeaderAlmostDone
    | ChunkSizeStart | ChunkSize | ChunkParameters | ChunkSizeAlmostDone
    | HeadersAlmostDone | HeadersDone
    | ChunkData | ChunkDataAlmostDone | ChunkDataDone
    | BodyIdentity | BodyIdentityEof | MessageDone

  /** The body states; all others count towards the header size. */
  predicate ParsingHeader(st: State) {
    && !st.ChunkData? && !st.ChunkDataAlmostDone? && !st.ChunkDataDone?
    && !st.BodyIdentity? && !st.BodyIdentityEof? && !st.MessageDone?
  }

  datatype HeaderState =
    | General | SeenC | SeenCO | SeenCON
    | MatchingConnection | MatchingProxyConnection | MatchingContentLength | MatchingTransferEncoding | MatchingUpgrade
    | Connection | ContentLength | TransferEncoding | Upgrade
    | MatchingChunked | TokenStart | MatchingKeepAlive | MatchingClose | MatchingConnUpgrade | Token
    | Chunked | KeepAlive | Close | ConnUpgrade

  datatype Method =
    | DELETE | GET | HEAD | POST | PUT | CONNECT | OPTIONS | TRACE | COPY | LOCK | MKCOL | MOVE | PROPFIND | PROPPATCH
    | SEARCH | UNLOCK | BIND | REBIND | UNBIND | ACL | REPORT | MKACTIVITY | CHECKOUT | MERGE | MSEARCH | NOTIFY
    | SUBSCRIBE | UNSUBSCRIBE | PATCH | PURGE | MKCALENDAR | LINK | UNLINK

  function MethodName(m: Method): (r: string) {
    match m
    case DELETE => "DELETE" case GET => "GET" case HEAD => "HEAD" case POST => "POST" case PUT => "PUT"
    case CONNECT => "CONNECT" case OPTIONS => "OPTIONS" case TRACE => "TRACE" case COPY => "COPY" case LOCK => "LOCK"
    case MKCOL => "MKCOL" case MOVE => "MOVE" case PROPFIND => "PROPFIND" case PROPPATCH => "PROPPATCH"
    case SEARCH => "SEARCH" case UNLOCK => "UNLOCK" case BIND => "BIND" case REBIND => "REBIND" case UNBIND => "UNBIND"
    case ACL => "ACL" case REPORT => "REPORT" case MKACTIVITY => "MKACTIVITY" case CHECKOUT => "CHECKOUT"
    case MERGE => "MERGE" case MSEARCH => "M-SEARCH" case NOTIFY => "NOTIFY" case SUBSCRIBE => "SUBSCRIBE"
    case UNSUBSCRIBE => "UNSUBSCRIBE" case PATCH => "PATCH" case PURGE => "PURGE" case MKCALENDAR => "MKCALENDAR"
    case LINK => "LINK" case UNLINK => "UNLINK"
  }

  datatype ParserType = Request | Response | Both

  datatype Flags = Flags(
    chunked: bool, keepAlive: bool, close: bool, connUpgrade: bool,
    trailing: bool, upgrade: bool, skipBody: bool, contentLength: bool)

  const NO_FLAGS: Flags := Flags(false, false, false, false, false, false, false, false)

  datatype Errno =
    | Ok | CallbackFailed | InvalidEofState | HeaderOverflow | ClosedConnection | InvalidVersion | InvalidStatus
    | InvalidMethod | InvalidUrl | LfExpected | InvalidHeaderToken | InvalidContentLength | UnexpectedContentLength
    | InvalidChunkSize | InvalidConstant | Strict | Paused

  /** What the start line says. */
  datatype Line = Line(kind: ParserType, major: nat, minor: nat, statusCode: nat, verb: Method)

  /** Header bytes used up since the last reset, and the most there ever were. */
  datatype Bytes = Bytes(now: nat, most: nat)

  function More(b: Bytes, k: nat): (r: Bytes) {
    Bytes(b.now + k, if k > 0 && b.now + k > b.most then b.now + k else b.most)
  }

  /**
   The fields of `struct http_parser` that decide what comes next, and with them the true number of
   header bytes, which the parser's own count approximates.
   */
  datatype Fields = Fields(
    st: State, hs: HeaderState, index: nat, contentLength: uint64, flags: Flags, upgrade: bool, line: Line, seen: Bytes)

  datatype DataField = Url | Status | FieldName | FieldValue | Body

  /** One callback invocation, as the application sees it. */
  datatype Event =
    | MessageBegin | HeadersComplete | ChunkHeader(length: uint64) | ChunkComplete | MessageComplete
    | Data(field: DataField, bytes: seq<byte>)

  /** Callback invocations so far, adjacent data callbacks of one kind merged. */
  type Log = seq<Event>

  function Emit(log: Log, ev: Event): (r: Log) {
    if ev.Data? && log != [] && log[|log| - 1].Data? && log[|log| - 1].field == ev.field
    then log[..|log| - 1] + [Data(ev.field, log[|log| - 1].bytes + ev.bytes)]
    else log + [ev]
  }

  lemma EmitMerges(log: Log, f: DataField, a: seq<byte>, b: seq<byte>)
    ensures Emit(Emit(log, Data(f, a)), Data(f, b)) == Emit(log, Data(f, a + b))
  {
    var l1 := Emit(log, Data(f, a));
    if log != [] && log[|log| - 1].Data? && log[|log| - 1].field == f {
      var old' := log[|log| - 1].bytes;
      assert l1[..|l1| - 1] == log[..|log| - 1];
      assert old' + a + b == old' + (a + b);
    } else {
      assert l1[..|l1| - 1] == log;
    }
  }

  // ---------- character classes ----------

  predicate IsNum(c: byte) { 48 <= c <= 57 }
  predicate IsAlpha(c: byte) { 65 <= c <= 90 || 97 <= c <= 122 }

  /** `c | 0x20`, as the matchers see it: upper-case letters become lower-case ones. */
  function Lower(c: byte): (r: byte) { if (c / 32) % 2 == 0 then c + 32 else c }

  /** The token table: lower-cased token characters, 0 for all others. */
  function TokenOf(c: byte): (r: byte) {
    if 65 <= c <= 90 then c + 32
    else if || IsNum(c) || 97 <= c <= 122 || c == 33 || c == 35 || c == 36 || c == 37 || c == 38 || c == 39 || c == 42
            || c == 43 || c == 45 || c == 46 || c == 94 || c == 95 || c == 96 || c == 124 || c == 126 then c
    else 0
  }

  predicate IsMark(c: byte) {
    c == 45 || c == 95 || c == 46 || c == 33 || c == 126 || c == 42 || c == 39 || c == 40 || c == 41
  }

  predicate IsUserinfoChar(c: byte) {
    || IsAlpha(c) || IsNum(c) || IsMark(c)
    || c == 37 || c == 59 || c == 58 || c == 38 || c == 61 || c == 43 || c == 36 || c == 44
  }

  predicate IsUrlChar(c: byte) { 33 <= c <= 126 && c != 35 && c != 63 }

  /** `IS_HEADER_CHAR` on a signed `char`: bytes from 0x80 up are negative, hence refused. */
  predicate IsHeaderChar(c: byte) { c == CR || c == LF || c == TAB || 31 < c < 127 }

  /** The `unhex` table has 128 initialisers for 256 entries: the upper half reads as digit 0. */
  function Unhex(c: byte): (r: int) {
    if IsNum(c) then c - 48
    else if 65 <= c <= 70 then c - 55
    else if 97 <= c <= 102 then c - 87
    else if c < 128 then -1
    else 0
  }

  /** The character of a matcher string at `i`; 0 at its terminating NUL. */
  function CharAt(s: string, i: nat): (r: int) {
    if i < |s| then s[i] as int else 0
  }
}
