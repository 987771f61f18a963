/**
 The URL splitter: `http_parser_parse_url` and `http_parse_host`, as loops over the URL's bytes,
 and what their result says about the URL.
 */
module HttpUrl {
  import opened Common
  import opened HttpTypes
  import opened HttpStep
  import opened HttpNumbers

  datatype UrlField = Schema | Host | Port | Path | Query | Fragment | Userinfo

  /** `off` and `len` are 16 bits wide. */
  datatype Span = Span(off: nat, len: nat)

  function Wrap16(n: nat): (r: nat) { n % 0x1_0000 }

  const MAX_URL: nat := 0xFFFF

  // ---------- the field each byte belongs to ----------

  /** The field of a byte that leads to state `st`; None for a delimiter. */
  function UrlFieldOf(st: State): (r: Option<UrlField>) {
    if st.ReqSchema? then Some(Schema)
    else if st.ReqServer? || st.ReqServerWithAt? then Some(Host)
    else if st.ReqPath? then Some(Path)
    else if st.ReqQueryString? then Some(Query)
    else if st.ReqFragment? then Some(Fragment)
    else None
  }

  function FirstState(isConnect: bool): (r: State) { if isConnect then ReqServerStart else ReqSpacesBeforeUrl }

  /** The state after `i` bytes. */
  function StateAfter(s0: State, url: seq<byte>, i: nat): (r: State)
    requires i <= |url|
  {
    if i == 0 then s0 else UrlState(StateAfter(s0, url, i - 1), url[i - 1])
  }

  function Label(s0: State, url: seq<byte>, i: nat): (r: Option<UrlField>)
    requires i < |url|
  {
    UrlFieldOf(StateAfter(s0, url, i + 1))
  }

  /** States in the order a URL goes through them. */
  function Stage(st: State): (r: nat) {
    if st.ReqSpacesBeforeUrl? then 0 else if st.ReqSchema? then 1 else if st.ReqSchemaSlash? then 2
    else if st.ReqSchemaSlashSlash? then 3 else if st.ReqServerStart? then 4
    else if st.ReqServer? || st.ReqServerWithAt? then 5 else if st.ReqPath? then 6
    else if st.ReqQueryStringStart? then 7 else if st.ReqQueryString? then 8
    else if st.ReqFragmentStart? then 9 else if st.ReqFragment? then 10 else 11
  }

  predicate IsDelimiter(c: byte) {
    c == ':' as int || c == '/' as int || c == '?' as int || c == '#' as int || c == '@' as int
    || c == '[' as int || c == ']' as int
  }

  lemma StageGrows(st: State, c: byte)
    requires st.ReqSpacesBeforeUrl? || InUrl(st) || st.Dead?
    ensures var t := UrlState(st, c);
            && Stage(st) <= Stage(t)
            && (t != Dead && UrlFieldOf(t).None? ==> IsDelimiter(c))
  {
  }

  lemma {:induction false} StatesAreUrl(s0: State, url: seq<byte>, i: nat)
    requires i <= |url| && IsFirst(s0)
    ensures var st := StateAfter(s0, url, i); st.ReqSpacesBeforeUrl? || InUrl(st) || st.Dead?
  {
    assert InUrl(ReqServerStart);
    hide InUrl;
    if 0 < i {
      StatesAreUrl(s0, url, i - 1);
    }
  }

  lemma {:induction false} StatesGrow(s0: State, url: seq<byte>, i: nat, j: nat)
    requires i <= j <= |url| && IsFirst(s0)
    ensures Stage(StateAfter(s0, url, i)) <= Stage(StateAfter(s0, url, j))
    decreases j
  {
    hide UrlState, Stage, InUrl;
    if i < j {
      StatesGrow(s0, url, i, j - 1);
      StatesAreUrl(s0, url, j - 1);
      StageGrows(StateAfter(s0, url, j - 1), url[j - 1]);
    }
  }

  // ---------- the host and its parts ----------

  datatype HostState =
    | HostDead | UserinfoStart | InUserinfo | HostStart | V6Start | InHost | V6 | V6End | ZoneStart | Zone
    | PortStart | InPort

  predicate IsHostChar(c: byte) { IsAlpha(c) || IsNum(c) || c == '.' as int || c == '-' as int }

  predicate IsZoneChar(c: byte) {
    || IsAlpha(c) || IsNum(c) || c == '%' as int || c == '.' as int || c == '-' as int
    || c == '_' as int || c == '~' as int
  }

  /** `http_parse_host_char` */
  function HostNext(s: HostState, c: byte): (r: HostState) {
    if s.InUserinfo? || s.UserinfoStart? then
      if c == '@' as int then HostStart else if IsUserinfoChar(c) then InUserinfo else HostDead
    else if s.HostStart? then
      if c == '[' as int then V6Start else if IsHostChar(c) then InHost else HostDead
    else if s.InHost? then
      if IsHostChar(c) then InHost else if c == ':' as int then PortStart else HostDead
    else if s.V6End? then
      if c == ':' as int then PortStart else HostDead
    else if s.V6? then
      if c == ']' as int then V6End else if IsHex(c) || c == ':' as int || c == '.' as int then V6
      else if c == '%' as int then ZoneStart else HostDead
    else if s.V6Start? then
      if IsHex(c) || c == ':' as int || c == '.' as int then V6 else HostDead
    else if s.Zone? then
      if c == ']' as int then V6End else if IsZoneChar(c) then Zone else HostDead
    else if s.ZoneStart? then
      if IsZoneChar(c) then Zone else HostDead
    else if s.InPort? || s.PortStart? then
      if IsNum(c) then InPort else HostDead
    else HostDead
  }

  function HostFieldOf(s: HostState): (r: Option<UrlField>) {
    if s.InHost? || s.V6? || s.ZoneStart? || s.Zone? then Some(Host)
    else if s.InPort? then Some(Port)
    else if s.InUserinfo? then Some(Userinfo)
    else None
  }

  function HostAfter(s0: HostState, host: seq<byte>, i: nat): (r: HostState)
    requires i <= |host|
  {
    if i == 0 then s0 else HostNext(HostAfter(s0, host, i - 1), host[i - 1])
  }

  predicate HostEndsWell(s: HostState) { s.InHost? || s.V6End? || s.InPort? }

  function HostStage(s: HostState): (r: nat) {
    if s.UserinfoStart? then 0 else if s.InUserinfo? then 1 else if s.HostStart? then 2
    else if s.V6Start? then 3 else if s.InHost? || s.V6? || s.ZoneStart? || s.Zone? then 4
    else if s.V6End? then 5 else if s.PortStart? then 6 else if s.InPort? then 7 else 8
  }

  function FirstHostState(foundAt: bool): (r: HostState) { if foundAt then UserinfoStart else HostStart }

  lemma {:induction false} HostDeadStays(s0: HostState, host: seq<byte>, i: nat, j: nat)
    requires i <= j <= |host| && HostAfter(s0, host, i) == HostDead
    ensures HostAfter(s0, host, j) == HostDead
    decreases j
  {
    if i < j {
      HostDeadStays(s0, host, i, j - 1);
    }
  }

  lemma HostByteIsLabelled(s0: HostState, host: seq<byte>, p: nat)
    requires p < |host|
    ensures var s, t := HostAfter(s0, host, p), HostAfter(s0, host, p + 1);
            && t == HostNext(s, host[p]) && (t != HostDead ==> HostFollows(s, t))
            && HostLabels(s0, host)[..p + 1] == HostLabels(s0, host)[..p] + [HostFieldOf(t)]
  {
    HostStageGrows(HostAfter(s0, host, p), host[p]);
    hide HostNext, HostFollows, HostFieldOf;
  }

  /** How host states follow each other. */
  predicate HostFollows(s: HostState, t: HostState) {
    && HostStage(s) <= HostStage(t)
    && (HostFieldOf(t).Some? ==> ((s == t || t.ZoneStart? || t.Zone?) <==> HostFieldOf(s) == HostFieldOf(t)))
    && (HostStage(t) > 4 ==> HostStage(s) >= 4)
  }

  lemma HostFieldStages(s: HostState)
    ensures HostFieldOf(s).Some? ==>
              HostFieldOf(s).value in {Host, Port, Userinfo} && HostStage(s) == HostFieldStage(HostFieldOf(s).value)
    ensures HostFieldOf(s).None? ==> HostStage(s) !in {1, 4, 7}
    ensures forall f :: f in {Host, Port, Userinfo} && HostStage(s) == HostFieldStage(f) ==> HostFieldOf(s) == Some(f)
  {
  }

  lemma HostStageGrows(s: HostState, c: byte)
    ensures var t := HostNext(s, c);
            && (t != HostDead ==> HostFollows(s, t))
            && (t != HostDead && HostFieldOf(t).None? ==> IsDelimiter(c))
            && (t.InPort? ==> IsNum(c))
  {
  }

  function HostFieldStage(f: UrlField): (r: nat) {
    match f case Userinfo => 1 case Host => 4 case Port => 7 case _ => 0
  }

  // ---------- labels and spans ----------

  type Labels = seq<Option<UrlField>>

  function UrlLabels(s0: State, url: seq<byte>): (l: Labels)
    ensures |l| == |url| && forall i :: 0 <= i < |l| ==> l[i] == Label(s0, url, i)
  {
    seq(|url|, i requires 0 <= i < |url| => Label(s0, url, i))
  }

  function HostLabels(s0: HostState, host: seq<byte>): (l: Labels)
    ensures |l| == |host| && forall i :: 0 <= i < |l| ==> l[i] == HostFieldOf(HostAfter(s0, host, i + 1))
  {
    seq(|host|, i requires 0 <= i < |host| => HostFieldOf(HostAfter(s0, host, i + 1)))
  }

  /** The bytes of a field are exactly those of its span; `base` is where the labels begin. */
  ghost predicate Spanned(l: Labels, base: nat, f: UrlField, span: Span) {
    && 0 < span.len && base <= span.off && span.off + span.len <= base + |l|
    && forall j :: 0 <= j < |l| ==> (l[j] == Some(f) <==> span.off <= base + j < span.off + span.len)
  }

  ghost predicate Absent(l: Labels, f: UrlField) { Some(f) !in l }

  lemma SpanStarts(l: Labels, base: nat, f: UrlField)
    requires Absent(l, f)
    ensures Spanned(l + [Some(f)], base, f, Span(base + |l|, 1))
  {
  }

  lemma SpanGrows(l: Labels, base: nat, f: UrlField, span: Span)
    requires Spanned(l, base, f, span) && span.off + span.len == base + |l|
    ensures Spanned(l + [Some(f)], base, f, Span(span.off, span.len + 1))
  {
  }

  lemma SpanStays(l: Labels, base: nat, f: UrlField, span: Span, x: Option<UrlField>)
    requires Spanned(l, base, f, span) && x != Some(f)
    ensures Spanned(l + [x], base, f, span)
  {
  }

  function FieldStage(f: UrlField): (r: nat) {
    match f case Schema => 1 case Host => 5 case Path => 6 case Query => 8 case Fragment => 10 case _ => 0
  }

  lemma FieldStages(st: State)
    ensures UrlFieldOf(st).Some? ==> Stage(st) == FieldStage(UrlFieldOf(st).value)
    ensures UrlFieldOf(st).Some? ==> UrlFieldOf(st).value in {Schema, Host, Path, Query, Fragment}
    ensures forall f: UrlField :: Stage(st) == FieldStage(f) && 0 < Stage(st) ==> UrlFieldOf(st) == Some(f)
  {
  }

  /** An `@` was met in the host part. */
  predicate HasAt(s0: State, url: seq<byte>, n: nat)
    requires n <= |url|
  {
    exists i :: 0 < i <= n && StateAfter(s0, url, i).ReqServerWithAt?
  }

  lemma HasAtStep(s0: State, url: seq<byte>, n: nat)
    requires n < |url|
    ensures HasAt(s0, url, n + 1) <==> HasAt(s0, url, n) || StateAfter(s0, url, n + 1).ReqServerWithAt?
  {
    hide StateAfter;
  }

  lemma NothingYet(s0: State, url: seq<byte>)
    ensures !HasAt(s0, url, 0) && StateAfter(s0, url, 0) == s0
  {
  }

  predicate IsFirst(s0: State) { s0.ReqSpacesBeforeUrl? || s0.ReqServerStart? }

  lemma ByteIsLabelled(s0: State, url: seq<byte>, p: nat)
    requires p < |url| && IsFirst(s0)
    ensures var s, t := StateAfter(s0, url, p), StateAfter(s0, url, p + 1);
            && t == UrlState(s, url[p]) && Stage(s) <= Stage(t)
            && UrlLabels(s0, url)[..p + 1] == UrlLabels(s0, url)[..p] + [UrlFieldOf(t)]
            && (HasAt(s0, url, p + 1) <==> HasAt(s0, url, p) || t.ReqServerWithAt?)
  {
    hide Stage, UrlFieldOf, HasAt, UrlLabels;
    StatesGrow(s0, url, p, p + 1);
    HasAtStep(s0, url, p);
    LabelsStep(s0, url, p);
    hide UrlState;
  }

  lemma LabelsStep(s0: State, url: seq<byte>, p: nat)
    requires p < |url|
    ensures UrlLabels(s0, url)[..p + 1] == UrlLabels(s0, url)[..p] + [UrlFieldOf(StateAfter(s0, url, p + 1))]
  {
    hide UrlState, UrlFieldOf, StateAfter;
  }

  lemma {:induction false} DeadStays(s0: State, url: seq<byte>, i: nat, j: nat)
    requires i <= j <= |url| && StateAfter(s0, url, i) == Dead
    ensures StateAfter(s0, url, j) == Dead
    decreases j
  {
    if i < j {
      DeadStays(s0, url, i, j - 1);
    }
  }

  ghost predicate SplitBy(fields: set<UrlField>, data: map<UrlField, Span>, l: Labels, base: nat) {
    && (forall f <- fields :: f in data && Spanned(l, base, f, data[f]))
    && (forall f: UrlField :: f !in fields ==> Absent(l, f))
  }

  lemma NoHostYet(s0: HostState)
    requires s0.UserinfoStart? || s0.HostStart?
    ensures s0 != HostDead && HostStage(s0) < 4 && HostFieldOf(s0).None?
    ensures forall data, base :: SplitBy({}, data, [], base)
  {
  }

  lemma SplitSkips(fields: set<UrlField>, data: map<UrlField, Span>, l: Labels, base: nat)
    requires SplitBy(fields, data, l, base)
    ensures SplitBy(fields, data, l + [None], base)
  {
    forall f <- fields ensures Spanned(l + [None], base, f, data[f]) {
      SpanStays(l, base, f, data[f], None);
    }
    hide Spanned;
  }

  lemma SpanFits(fields: set<UrlField>, data: map<UrlField, Span>, l: Labels, base: nat, f: UrlField)
    requires SplitBy(fields, data, l, base) && f in fields
    ensures data[f].off + data[f].len <= base + |l|
  {
  }

  lemma SplitStarts(fields: set<UrlField>, data: map<UrlField, Span>, l: Labels, base: nat, f: UrlField)
    requires SplitBy(fields, data, l, base) && f !in fields
    ensures SplitBy(fields + {f}, data[f := Span(base + |l|, 1)], l + [Some(f)], base)
  {
    SpanStarts(l, base, f);
    forall g <- fields ensures Spanned(l + [Some(f)], base, g, data[g]) {
      SpanStays(l, base, g, data[g], Some(f));
    }
    hide Spanned;
  }

  lemma SplitGrows(fields: set<UrlField>, data: map<UrlField, Span>, l: Labels, base: nat, f: UrlField)
    requires SplitBy(fields, data, l, base) && f in fields && data[f].off + data[f].len == base + |l|
    ensures SplitBy(fields, data[f := Span(data[f].off, data[f].len + 1)], l + [Some(f)], base)
  {
    SpanGrows(l, base, f, data[f]);
    forall g <- fields | g != f ensures Spanned(l + [Some(f)], base, g, data[g]) {
      SpanStays(l, base, g, data[g], Some(f));
    }
    hide Spanned;
  }

  // ---------- what a URL is split into ----------

  /** Labels before the first of field `f`. */
  function Begin(l: Labels, f: UrlField): (n: nat)
    ensures n <= |l|
  {
    if l == [] || l[0] == Some(f) then 0 else 1 + Begin(l[1..], f)
  }

  function Size(l: Labels, f: UrlField): (n: nat)
    ensures Begin(l, f) + n <= |l|
  {
    if l == [] then 0 else (if l[0] == Some(f) then 1 else 0) + Size(l[1..], f)
  }

  lemma {:induction false} SpanIsUnique(l: Labels, base: nat, f: UrlField, span: Span)
    requires Spanned(l, base, f, span)
    ensures span == Span(base + Begin(l, f), Size(l, f))
    decreases |l|
  {
    var m := l[1..];
    if span.off == base {
      assert l[0] == Some(f);
      if span.len == 1 {
        NoneLeft(m, f);
      } else {
        assert Spanned(m, base + 1, f, Span(base + 1, span.len - 1));
        SpanIsUnique(m, base + 1, f, Span(base + 1, span.len - 1));
      }
    } else {
      assert l[0] != Some(f) && Spanned(m, base + 1, f, span);
      SpanIsUnique(m, base + 1, f, span);
    }
  }

  lemma {:induction false} NoneLeft(l: Labels, f: UrlField)
    requires forall j :: 0 <= j < |l| ==> l[j] != Some(f)
    ensures Size(l, f) == 0
  {
    if l != [] {
      NoneLeft(l[1..], f);
    }
  }

  function HostPart(l: Labels, url: seq<byte>): (r: seq<byte>)
    requires |l| == |url|
  {
    url[Begin(l, Host)..Begin(l, Host) + Size(l, Host)]
  }

  /** The field of every byte, those of the host part split further. */
  ghost function FinalLabels(url: seq<byte>, isConnect: bool): (r: Labels) {
    var s0 := FirstState(isConnect);
    var l := UrlLabels(s0, url);
    Merged(l, HostLabels(FirstHostState(HasAt(s0, url, |url|)), HostPart(l, url)), Begin(l, Host))
  }

  /** The digits from `i` on, and the number `strtoul` makes of them. */
  function DigitsAt(memory: seq<byte>, i: nat): (digits: seq<byte>)
    requires i <= |memory|
    ensures i + |digits| <= |memory| && digits == memory[i..i + |digits|] && forall c <- digits :: IsNum(c)
    decreases |memory| - i
  {
    if i == |memory| || !IsNum(memory[i]) then [] else [memory[i]] + DigitsAt(memory, i + 1)
  }

  function StrToUl(memory: seq<byte>, i: nat): (r: nat)
    requires i <= |memory|
  {
    var n := DecValue(DigitsAt(memory, i));
    if n > MAX64 then MAX64 else n
  }

  /** The bytes form a URL, and its host part a host. */
  ghost predicate Divides(url: seq<byte>, isConnect: bool) {
    var s0 := FirstState(isConnect);
    var l := UrlLabels(s0, url);
    var host := HostPart(l, url);
    && StateAfter(s0, url, |url|) != Dead
    && (Some(Schema) in l ==> Some(Host) in l)
    && (Some(Host) in l ==> HostEndsWell(HostAfter(FirstHostState(HasAt(s0, url, |url|)), host, |host|)))
  }

  /** When the URL in the first `n` bytes of `memory` is accepted. */
  ghost predicate Accepts(memory: seq<byte>, n: nat, isConnect: bool)
    requires n <= |memory|
  {
    var final := FinalLabels(memory[..n], isConnect);
    && Divides(memory[..n], isConnect)
    && (isConnect ==> forall f: UrlField :: Some(f) in final <==> f == Host || f == Port)
    && (Some(Port) in final ==> Begin(final, Port) <= n && StrToUl(memory, Begin(final, Port)) <= 0xFFFF)
  }

  /** The host's parts take the place of the host. */
  lemma HostSplits(
    fields: set<UrlField>, data: map<UrlField, Span>, l: Labels,
    parts: set<UrlField>, data': map<UrlField, Span>, hl: Labels)
    requires SplitBy(fields, data, l, 0) && Host in fields && fields !! {Port, Userinfo}
    requires |hl| == data[Host].len && SplitBy(parts, data', hl, data[Host].off) && parts <= {Host, Port, Userinfo}
    requires forall f :: f in data && f !in {Host, Port, Userinfo} ==> f in data' && data'[f] == data[f]
    ensures data[Host].off + |hl| <= |l|
    ensures SplitBy(fields - {Host} + parts, data', Merged(l, hl, data[Host].off), 0)
  {
    var from, to := data[Host].off, data[Host].off + |hl|;
    var final := Merged(l, hl, from);
    forall f <- fields - {Host} + parts ensures Spanned(final, 0, f, data'[f]) {
      if f in parts {
        assert forall i :: 0 <= i < |l| && !(from <= i < to) ==> l[i] != Some(f);
      } else {
        assert Spanned(l, 0, f, data[f]) && Absent(hl, f);
      }
    }
    forall f: UrlField | f !in fields - {Host} + parts ensures Absent(final, f) {
      assert Absent(hl, f);
      if f == Host {
      } else {
        assert Absent(l, f);
      }
    }
  }

  /** Without a host, nothing is split further. */
  lemma NoHostFinal(l: Labels)
    requires Absent(l, Host)
    ensures Merged(l, [], Begin(l, Host)) == l && Size(l, Host) == 0
  {
    NoneLeft(l, Host);
  }

  lemma SplitMeans(fields: set<UrlField>, data: map<UrlField, Span>, l: Labels, f: UrlField)
    requires SplitBy(fields, data, l, 0)
    ensures f in fields <==> Some(f) in l
    ensures f in fields ==> data[f] == Span(Begin(l, f), Size(l, f)) && data[f].off < |l|
  {
    if f in fields {
      assert l[data[f].off] == Some(f);
      SpanIsUnique(l, 0, f, data[f]);
    }
  }

  // ---------- the decomposition ----------

  /** Fields in the order they have in a URL. */
  function Rank(f: UrlField): (r: nat) {
    match f
    case Schema => 0 case Userinfo => 1 case Host => 2 case Port => 3 case Path => 4 case Query => 5 case Fragment => 6
  }

  /** Labels only go forward. */
  ghost predicate Forward(l: Labels) {
    forall i, j :: 0 <= i < j < |l| && l[i].Some? && l[j].Some? ==> Rank(l[i].value) <= Rank(l[j].value)
  }

  lemma UrlLabelsForward(s0: State, url: seq<byte>)
    requires IsFirst(s0)
    ensures Forward(UrlLabels(s0, url))
  {
    hide StateAfter, Stage;
    var l := UrlLabels(s0, url);
    forall i, j | 0 <= i < j < |l| && l[i].Some? && l[j].Some? ensures Rank(l[i].value) <= Rank(l[j].value) {
      StatesGrow(s0, url, i + 1, j + 1);
      FieldStages(StateAfter(s0, url, i + 1));
      FieldStages(StateAfter(s0, url, j + 1));
    }
  }

  lemma {:induction false} HostStatesGrow(s0: HostState, host: seq<byte>, i: nat, j: nat)
    requires i <= j <= |host|
    ensures HostStage(HostAfter(s0, host, i)) <= HostStage(HostAfter(s0, host, j))
    decreases j
  {
    hide HostStage, HostNext;
    if i < j {
      HostStatesGrow(s0, host, i, j - 1);
      HostStageGrows(HostAfter(s0, host, j - 1), host[j - 1]);
      DeadIsLast();
    }
  }

  lemma DeadIsLast()
    ensures forall s :: HostStage(s) <= HostStage(HostDead)
  {
  }

  lemma HostLabelsForward(s0: HostState, host: seq<byte>)
    ensures Forward(HostLabels(s0, host))
    ensures forall i :: 0 <= i < |host| && HostLabels(s0, host)[i].Some? ==>
              HostLabels(s0, host)[i].value in {Userinfo, Host, Port}
  {
    hide HostAfter, HostStage;
    var l := HostLabels(s0, host);
    forall i | 0 <= i < |l| ensures l[i].Some? ==> l[i].value in {Userinfo, Host, Port} {
      HostFieldStages(HostAfter(s0, host, i + 1));
    }
    forall i, j | 0 <= i < j < |l| && l[i].Some? && l[j].Some? ensures Rank(l[i].value) <= Rank(l[j].value) {
      HostStatesGrow(s0, host, i + 1, j + 1);
      HostFieldStages(HostAfter(s0, host, i + 1));
      HostFieldStages(HostAfter(s0, host, j + 1));
    }
  }

  /** Replacing the host's labels by those of its parts keeps the order. */
  lemma MergedForward(l: Labels, hl: Labels, from: nat)
    requires Forward(l) && Forward(hl) && from + |hl| <= |l|
    requires forall j :: 0 <= j < |l| ==> (l[j] == Some(Host) <==> from <= j < from + |hl|)
    requires forall j :: 0 <= j < |l| && l[j].Some? ==> l[j].value !in {Userinfo, Port}
    requires forall j :: 0 <= j < |hl| && hl[j].Some? ==> hl[j].value in {Userinfo, Host, Port}
    ensures Forward(Merged(l, hl, from))
  {
    var to := from + |hl|;
    var m := Merged(l, hl, from);
    forall i, j | 0 <= i < j < |m| && m[i].Some? && m[j].Some? ensures Rank(m[i].value) <= Rank(m[j].value) {
      if from <= i < to && !(from <= j < to) {
        assert Rank(l[i].value) <= Rank(l[j].value);
      } else if !(from <= i < to) && from <= j < to {
        assert Rank(l[i].value) <= Rank(l[j].value);
      } else if from <= i < to {
        assert Rank(hl[i - from].value) <= Rank(hl[j - from].value);
      }
    }
  }

  /** Spans over forward labels come in order and do not overlap. */
  lemma SpansInOrder(fields: set<UrlField>, data: map<UrlField, Span>, l: Labels, f: UrlField, g: UrlField)
    requires SplitBy(fields, data, l, 0) && Forward(l) && f in fields && g in fields && Rank(f) < Rank(g)
    ensures data[f].off + data[f].len <= data[g].off
  {
    var i, j := data[f].off + data[f].len - 1, data[g].off;
    assert l[i] == Some(f) && l[j] == Some(g);
    RanksFollow(l, j, i);
  }

  lemma RanksFollow(l: Labels, i: nat, j: nat)
    requires Forward(l) && i < |l| && j < |l| && l[i].Some? && l[j].Some?
    ensures i <= j ==> Rank(l[i].value) <= Rank(l[j].value)
  {
  }

  lemma LabelIsField(fields: set<UrlField>, data: map<UrlField, Span>, l: Labels, i: nat)
    requires SplitBy(fields, data, l, 0) && i < |l| && l[i].Some?
    ensures var f := l[i].value; f in fields && data[f].off <= i < data[f].off + data[f].len
  {
    assert !Absent(l, l[i].value);
  }

  lemma {:induction false} RunIsSpan(l: Labels, f: UrlField)
    requires forall i, k, j :: 0 <= i < k < j < |l| && l[i] == Some(f) && l[j] == Some(f) ==> l[k] == Some(f)
    ensures forall j :: 0 <= j < |l| ==> (l[j] == Some(f) <==> Begin(l, f) <= j < Begin(l, f) + Size(l, f))
  {
    if l != [] {
      var m := l[1..];
      assert forall j :: 0 <= j < |m| ==> m[j] == l[j + 1];
      RunIsSpan(m, f);
      if l[0] == Some(f) && m != [] && m[0] != Some(f) {
        assert forall j :: 0 <= j < |m| ==> m[j] != Some(f);
        NoneLeft(m, f);
      }
      assert forall j :: 0 < j < |l| ==> l[j] == m[j - 1];
    }
  }

  /** The host's bytes are those of `HostPart`. */
  lemma HostIsSpan(s0: State, url: seq<byte>)
    requires IsFirst(s0)
    ensures var l := UrlLabels(s0, url);
            forall j :: 0 <= j < |l| ==> (l[j] == Some(Host) <==> Begin(l, Host) <= j < Begin(l, Host) + Size(l, Host))
  {
    hide StateAfter, Stage, UrlFieldOf;
    var l := UrlLabels(s0, url);
    forall i, k, j | 0 <= i < k < j < |l| && l[i] == Some(Host) && l[j] == Some(Host) ensures l[k] == Some(Host) {
      StatesGrow(s0, url, i + 1, k + 1);
      StatesGrow(s0, url, k + 1, j + 1);
      FieldStages(StateAfter(s0, url, i + 1));
      FieldStages(StateAfter(s0, url, j + 1));
      FieldStages(StateAfter(s0, url, k + 1));
    }
    RunIsSpan(l, Host);
  }

  lemma UrlDelimiters(s0: State, url: seq<byte>, i: nat)
    requires IsFirst(s0) && StateAfter(s0, url, |url|) != Dead && i < |url| && Label(s0, url, i).None?
    ensures IsDelimiter(url[i])
  {
    if StateAfter(s0, url, i + 1) == Dead {
      DeadStays(s0, url, i + 1, |url|);
    }
    hide UrlState;
    StatesAreUrl(s0, url, i);
    StageGrows(StateAfter(s0, url, i), url[i]);
  }

  lemma HostDelimiters(s0: HostState, host: seq<byte>, i: nat)
    requires HostAfter(s0, host, |host|) != HostDead && i < |host|
    ensures HostLabels(s0, host)[i].None? ==> IsDelimiter(host[i])
    ensures HostLabels(s0, host)[i] == Some(Port) ==> IsNum(host[i])
  {
    if HostAfter(s0, host, i + 1) == HostDead {
      HostDeadStays(s0, host, i + 1, |host|);
    }
    HostStageGrows(HostAfter(s0, host, i), host[i]);
  }

  lemma FinalLabelsForward(url: seq<byte>, isConnect: bool)
    ensures |FinalLabels(url, isConnect)| == |url| && Forward(FinalLabels(url, isConnect))
  {
    var s0 := FirstState(isConnect);
    var h0 := FirstHostState(HasAt(s0, url, |url|));
    var l := UrlLabels(s0, url);
    hide StateAfter, HostAfter, HasAt, Forward, HostLabels, UrlLabels;
    HostIsSpan(s0, url);
    UrlLabelsForward(s0, url);
    HostLabelsForward(h0, HostPart(l, url));
    UrlLabelFields(s0, url);
    MergedForward(l, HostLabels(h0, HostPart(l, url)), Begin(l, Host));
  }

  lemma DividedHost(url: seq<byte>, isConnect: bool)
    requires Divides(url, isConnect) && Some(Host) in UrlLabels(FirstState(isConnect), url)
    ensures var s0 := FirstState(isConnect);
            var host := HostPart(UrlLabels(s0, url), url);
            HostAfter(FirstHostState(HasAt(s0, url, |url|)), host, |host|) != HostDead
  {
    hide StateAfter, HostAfter, HasAt, UrlLabels;
  }

  lemma DividedUrl(url: seq<byte>, isConnect: bool)
    requires Divides(url, isConnect)
    ensures StateAfter(FirstState(isConnect), url, |url|) != Dead
  {
  }

  /** What its label says about a byte. */
  lemma FinalLabelFits(url: seq<byte>, isConnect: bool, i: nat)
    requires Divides(url, isConnect) && i < |url|
    ensures FinalLabels(url, isConnect)[i].None? ==> IsDelimiter(url[i])
    ensures FinalLabels(url, isConnect)[i] == Some(Port) ==> IsNum(url[i])
  {
    var s0 := FirstState(isConnect);
    var l := UrlLabels(s0, url);
    var h0, host, from := FirstHostState(HasAt(s0, url, |url|)), HostPart(l, url), Begin(l, Host);
    FinalLabelAt(url, isConnect, i);
    DividedUrl(url, isConnect);
    UrlLabelFields(s0, url);
    hide *;
    if from <= i < from + |host| {
      HostByteFits(url, isConnect, i - from);
    } else if l[i].None? {
      UrlDelimiters(s0, url, i);
    }
  }

  lemma FinalLabelAt(url: seq<byte>, isConnect: bool, i: nat)
    requires i < |url|
    ensures var s0 := FirstState(isConnect);
            var l := UrlLabels(s0, url);
            var host, from := HostPart(l, url), Begin(l, Host);
            && IsFirst(s0) && l[i] == Label(s0, url, i)
            && |FinalLabels(url, isConnect)| == |url|
            && (from <= i < from + |host| ==> url[i] == host[i - from])
            && FinalLabels(url, isConnect)[i] ==
               (if from <= i < from + |host| then HostLabels(FirstHostState(HasAt(s0, url, |url|)), host)[i - from]
                else l[i])
  {
    hide StateAfter, HasAt, HostAfter, UrlFieldOf, HostFieldOf, Begin, Size;
  }

  lemma HostByteFits(url: seq<byte>, isConnect: bool, i: nat)
    requires Divides(url, isConnect) && i < |HostPart(UrlLabels(FirstState(isConnect), url), url)|
    ensures var s0 := FirstState(isConnect);
            var host := HostPart(UrlLabels(s0, url), url);
            var part := HostLabels(FirstHostState(HasAt(s0, url, |url|)), host)[i];
            (part.None? ==> IsDelimiter(host[i])) && (part == Some(Port) ==> IsNum(host[i]))
  {
    var s0 := FirstState(isConnect);
    var l := UrlLabels(s0, url);
    HostIsSpan(s0, url);
    assert l[Begin(l, Host) + i] == Some(Host);
    DividedHost(url, isConnect);
    hide StateAfter, HostAfter, HasAt, IsDelimiter, HostLabels, UrlFieldOf, Divides, UrlLabels;
    HostDelimiters(FirstHostState(HasAt(s0, url, |url|)), HostPart(l, url), i);
  }

  function Merged(l: Labels, hl: Labels, from: nat): (m: Labels)
    requires from + |hl| <= |l|
    ensures |m| == |l| && forall i :: 0 <= i < |l| ==> m[i] == if from <= i < from + |hl| then hl[i - from] else l[i]
  {
    l[..from] + hl + l[from + |hl|..]
  }

  lemma UrlLabelFields(s0: State, url: seq<byte>)
    ensures forall j :: 0 <= j < |url| && UrlLabels(s0, url)[j].Some? ==>
              UrlLabels(s0, url)[j].value !in {Userinfo, Port}
  {
    hide StateAfter;
  }

  /**
   URL decomposition: the fields set are in bounds and nonempty, in order and disjoint, the port is a number,
   and every byte outside the fields is a delimiter.
   */
  ghost predicate Decomposed(fields: set<UrlField>, data: map<UrlField, Span>, url: seq<byte>) {
    && (forall f <- fields :: f in data && 0 < data[f].len && data[f].off + data[f].len <= |url|)
    && (forall f, g :: f in fields && g in fields && Rank(f) < Rank(g) ==> data[f].off + data[f].len <= data[g].off)
    && (forall i :: 0 <= i < |url| && (forall f <- fields :: !(data[f].off <= i < data[f].off + data[f].len)) ==>
          IsDelimiter(url[i]))
    && (Port in fields ==> forall i :: data[Port].off <= i < data[Port].off + data[Port].len ==> IsNum(url[i]))
  }

  lemma Decomposition(fields: set<UrlField>, data: map<UrlField, Span>, url: seq<byte>, isConnect: bool)
    requires Divides(url, isConnect) && SplitBy(fields, data, FinalLabels(url, isConnect), 0)
    ensures Decomposed(fields, data, url)
  {
    hide Divides, FinalLabels, IsDelimiter;
    var l := FinalLabels(url, isConnect);
    FinalLabelsForward(url, isConnect);
    forall f, g | f in fields && g in fields && Rank(f) < Rank(g) ensures data[f].off + data[f].len <= data[g].off {
      SpansInOrder(fields, data, l, f, g);
    }
    forall i | 0 <= i < |url| && (forall f <- fields :: !(data[f].off <= i < data[f].off + data[f].len))
      ensures IsDelimiter(url[i])
    {
      FinalLabelFits(url, isConnect, i);
      if l[i].Some? { LabelIsField(fields, data, l, i); }
    }
    if Port in fields {
      forall i | data[Port].off <= i < data[Port].off + data[Port].len ensures IsNum(url[i]) {
        FinalLabelFits(url, isConnect, i);
        assert l[i] == Some(Port);
      }
    }
  }

  // ---------- the port ----------

  /** Digits after `a` make its number greater, unless it stays 0. */
  lemma {:induction false} MoreDigits(a: seq<byte>, b: seq<byte>)
    requires (forall c <- a :: IsNum(c)) && (forall c <- b :: IsNum(c))
    ensures (forall c <- a + b :: IsNum(c)) && DecValue(a) <= DecValue(a + b)
    ensures b != [] ==> DecValue(a + b) == 0 || DecValue(a) < DecValue(a + b)
    decreases |b|
  {
    hide DecValue;
    if b == [] {
      assert a + b == a;
    } else {
      DecValueAppend(a, b[0]);
      MoreDigits(a + [b[0]], b[1..]);
      assert a + [b[0]] + b[1..] == a + b;
    }
  }

  /** A number is 0 if and only if all of its digits are. */
  lemma {:induction false} ZeroDigits(s: seq<byte>)
    requires forall c <- s :: IsNum(c)
    ensures DecValue(s) == 0 <==> forall c <- s :: c == 48
    decreases |s|
  {
    if s == [] {
      NoDigits();
    } else {
      var init, c := s[..|s| - 1], s[|s| - 1];
      assert s == init + [c];
      assert forall x: byte :: x in s <==> x in init || x == c;
      hide DecValue;
      DecValueAppend(init, c);
      ZeroDigits(init);
      assert DecValue(s) == DecValue(init) * 10 + (c - 48) && s[|s| - 1] in s;
    }
  }

  lemma NoDigits()
    ensures DecValue([]) == 0
  {
  }

  lemma {:induction false} DigitsGoOn(memory: seq<byte>, i: nat, n: nat)
    requires i <= n <= |memory| && forall j :: i <= j < n ==> IsNum(memory[j])
    ensures DigitsAt(memory, i) == memory[i..n] + DigitsAt(memory, n)
    decreases n - i
  {
    if i < n {
      DigitsGoOn(memory, i + 1, n);
    }
  }

  predicate AllDigits(memory: seq<byte>, i: nat, n: nat) {
    i <= n <= |memory| && forall j :: i <= j < n ==> IsNum(memory[j])
  }

  /** All the digits from `i` on are 0, also those behind the end of the URL. */
  predicate Zeros(memory: seq<byte>, i: nat)
    requires i <= |memory|
  {
    forall c <- DigitsAt(memory, i) :: c == 48
  }

  /** What `strtoul` makes of the digits before `n` is their number if and only if no digit follows, or all are 0. */
  lemma PortIsItsField(memory: seq<byte>, i: nat, n: nat)
    requires AllDigits(memory, i, n) && StrToUl(memory, i) <= 0xFFFF
    ensures StrToUl(memory, i) == DecValue(memory[i..n]) <==> n == |memory| || !IsNum(memory[n]) || Zeros(memory, i)
  {
    ZeroDigits(DigitsAt(memory, i));
    hide DecValue;
    DigitsGoOn(memory, i, n);
    MoreDigits(memory[i..n], DigitsAt(memory, n));
    assert memory[i..n] + [] == memory[i..n];
  }

  /**
   The port is the decimal value of its field if and only if it does not end the URL, or no digit follows the URL in
   memory, or all digits, those in memory too, are 0.
   */
  ghost predicate PortRead(port: nat, span: Span, memory: seq<byte>, buflen: nat)
    requires buflen <= |memory|
  {
    var end := span.off + span.len;
    && AllDigits(memory, span.off, end) && end <= buflen
    && (port == DecValue(memory[span.off..end]) <==>
          end < buflen || buflen == |memory| || !IsNum(memory[buflen]) || Zeros(memory, span.off))
  }

  /** Inside a URL no digit follows the port. */
  lemma PortEnds(fields: set<UrlField>, data: map<UrlField, Span>, url: seq<byte>, isConnect: bool)
    requires SplitBy(fields, data, FinalLabels(url, isConnect), 0) && Port in fields
    requires data[Port].off + data[Port].len < |url|
    ensures !IsNum(url[data[Port].off + data[Port].len])
  {
    hide FinalLabels;
    var l, n := FinalLabels(url, isConnect), data[Port].off + data[Port].len;
    FinalLabelAt(url, isConnect, 0);
    assert l[n - 1] == Some(Port) && l[n] != Some(Port);
    if IsNum(url[n]) {
      PortGoesOn(url, isConnect, n - 1);
    }
  }

  /** A digit after the port is part of it. */
  lemma PortGoesOn(url: seq<byte>, isConnect: bool, i: nat)
    requires i + 1 < |url| && IsNum(url[i + 1])
    requires |FinalLabels(url, isConnect)| == |url| && FinalLabels(url, isConnect)[i] == Some(Port)
    ensures FinalLabels(url, isConnect)[i + 1] == Some(Port)
  {
    hide FinalLabels, StateAfter, HasAt, HostAfter, UrlFieldOf, HostFieldOf, Label, HostLabels, UrlLabels, Merged;
    var s0 := FirstState(isConnect);
    var l := UrlLabels(s0, url);
    var h0, host, from := FirstHostState(HasAt(s0, url, |url|)), HostPart(l, url), Begin(l, Host);
    FinalLabelAt(url, isConnect, i);
    FinalLabelAt(url, isConnect, i + 1);
    UrlLabelFields(s0, url);
    HostIsSpan(s0, url);
    assert l[i] == Some(Host);
    HostLabelGoesOn(s0, url, i);
    assert l[i + 1] == Some(Host);
    HostPortGoesOn(h0, host, i - from);
  }

  lemma HostLabelGoesOn(s0: State, url: seq<byte>, i: nat)
    requires i + 1 < |url| && IsNum(url[i + 1]) && Label(s0, url, i) == Some(Host)
    ensures Label(s0, url, i + 1) == Some(Host)
  {
    hide UrlState, UrlFieldOf;
    HostGoesOn(StateAfter(s0, url, i + 1), url[i + 1]);
  }

  lemma HostGoesOn(st: State, c: byte)
    requires UrlFieldOf(st) == Some(Host) && IsNum(c)
    ensures UrlFieldOf(UrlState(st, c)) == Some(Host)
  {
  }

  lemma HostPortGoesOn(h0: HostState, host: seq<byte>, i: nat)
    requires i + 1 < |host| && IsNum(host[i + 1]) && HostLabels(h0, host)[i] == Some(Port)
    ensures HostLabels(h0, host)[i + 1] == Some(Port)
  {
    var s := HostAfter(h0, host, i + 1);
    assert HostFieldOf(s) == Some(Port) && HostAfter(h0, host, i + 2) == HostNext(s, host[i + 1]);
  }

  // ---------- a port that is read wrongly ----------

  /** `a:80` */
  const PORT_80: seq<byte> := [97, 58, 56, 48]

  lemma Digits80()
    ensures DecValue([56, 48]) == 80 && (forall x <- [56, 48] :: IsNum(x))
  {
    assert [] + [56] == [56] && [56] + [48] == [56, 48];
    hide DecValue;
    DecValueAppend([], 56);
    DecValueAppend([56], 48);
    NoDigits();
  }

  /** A digit that follows the port is taken for part of it: `a:80` in memory before a `1` has port 801. */
  lemma PortReadsOn()
    ensures StrToUl(PORT_80 + [49], 2) == 801 && DecValue(PORT_80[2..4]) == 80
  {
    Digits80();
    var memory := PORT_80 + [49];
    DigitsGoOn(memory, 2, 5);
    assert memory[2..5] == [56, 48] + [49] && PORT_80[2..4] == [56, 48];
    hide DecValue;
    DecValueAppend([56, 48], 49);
  }

  /** With more digits the port is too large: before `000` it is 80000. */
  lemma PortGrows()
    ensures StrToUl(PORT_80 + [48, 48, 48], 2) == 80000 && StrToUl(PORT_80, 2) == 80
  {
    Digits80();
    var memory := PORT_80 + [48, 48, 48];
    DigitsGoOn(memory, 2, 7);
    DigitsGoOn(PORT_80, 2, 4);
    assert memory[2..7] == [56, 48] + [48] + [48] + [48] && PORT_80[2..4] == [56, 48];
    hide DecValue;
    DecValueAppend([56, 48], 48);
    DecValueAppend([56, 48] + [48], 48);
    DecValueAppend([56, 48] + [48] + [48], 48);
  }

  lemma HostPortLabels()
    ensures var url := PORT_80;
            && StateAfter(ReqServerStart, url, 4) == ReqServer && !HasAt(ReqServerStart, url, 4)
            && UrlLabels(ReqServerStart, url) == [Some(Host), Some(Host), Some(Host), Some(Host)]
            && HostLabels(HostStart, url) == [Some(Host), None, Some(Port), Some(Port)]
            && HostAfter(HostStart, url, 4) == InPort
  {
    var url := PORT_80;
    assert url == [97, 58, 56, 48];
    assert StateAfter(ReqServerStart, url, 0) == ReqServerStart;
    assert StateAfter(ReqServerStart, url, 1) == ReqServer;
    assert StateAfter(ReqServerStart, url, 2) == ReqServer;
    assert StateAfter(ReqServerStart, url, 3) == ReqServer;
    assert StateAfter(ReqServerStart, url, 4) == ReqServer;
    assert HostAfter(HostStart, url, 1) == InHost;
    assert HostAfter(HostStart, url, 2) == PortStart;
    assert HostAfter(HostStart, url, 3) == InPort;
    assert HostAfter(HostStart, url, 4) == InPort;
  }

  /** Its fields. */
  lemma FinalPortLabels()
    ensures var final: Labels := [Some(Host), None, Some(Port), Some(Port)];
            Divides(PORT_80, true) && FinalLabels(PORT_80, true) == final && Begin(final, Port) == 2
  {
    HostPortLabels();
    hide StateAfter, HasAt, HostAfter, UrlLabels, HostLabels;
    var l: Labels := [Some(Host), Some(Host), Some(Host), Some(Host)];
    assert Begin(l, Host) == 0 && Spanned(l, 0, Host, Span(0, 4));
    SpanIsUnique(l, 0, Host, Span(0, 4));
    assert HostPart(l, PORT_80) == PORT_80;
    var final: Labels := [Some(Host), None, Some(Port), Some(Port)];
    assert FinalLabels(PORT_80, true) == final;
    assert Spanned(final, 0, Port, Span(2, 2));
    SpanIsUnique(final, 0, Port, Span(2, 2));
  }

  lemma PortDecides(memory: seq<byte>)
    requires 4 <= |memory| && memory[..4] == PORT_80
    ensures Accepts(memory, 4, true) <==> StrToUl(memory, 2) <= 0xFFFF
  {
    FinalPortLabels();
    hide Divides, FinalLabels, StrToUl;
    var final := FinalLabels(memory[..4], true);
    assert final[0] == Some(Host) && final[2] == Some(Port);
  }

  /** That URL is accepted, with the port that is not its own. */
  lemma WrongPortAccepted()
    ensures Accepts(PORT_80 + [49], 4, true)
  {
    PortReadsOn();
    assert (PORT_80 + [49])[..4] == PORT_80;
    hide StrToUl;
    PortDecides(PORT_80 + [49]);
  }

  /** And the URL is refused before other digits, though it is accepted where it ends the memory. */
  lemma RightPortRefused()
    ensures !Accepts(PORT_80 + [48, 48, 48], 4, true) && Accepts(PORT_80, 4, true)
  {
    PortGrows();
    assert (PORT_80 + [48, 48, 48])[..4] == PORT_80 && PORT_80[..4] == PORT_80;
    hide StrToUl;
    PortDecides(PORT_80 + [48, 48, 48]);
    PortDecides(PORT_80);
  }

  // ---------- the parsed URL ----------

  /** What `struct http_parser_url` records. */
  class Url {
    var fieldSet: set<UrlField>
    var port: nat
    var fieldData: map<UrlField, Span>

    ghost predicate Valid()
      reads this
    {
      forall f: UrlField :: f in fieldData
    }

    /** The bytes labelled so far are split as their labels say. */
    ghost predicate SplitAs(l: Labels, base: nat)
      reads this
    {
      SplitBy(fieldSet, fieldData, l, base)
    }

    /** Bounds that hold even for URLs too long for 16-bit offsets. */
    ghost predicate Within(n: nat)
      reads this
    {
      forall f <- fieldSet :: f in fieldData && fieldData[f].off + fieldData[f].len <= n
    }

    /** The next byte belongs to field `f`; `more` if the byte before did too. */
    method Extend(f: UrlField, more: bool, p: nat, ghost l: Labels, ghost base: nat, ghost small: bool)
      requires Valid() && (more ==> f in fieldSet) && Within(p)
      requires small ==> p == base + |l| && p < MAX_URL && SplitAs(l, base)
      requires small ==> if more then fieldData[f].off + fieldData[f].len == p else f !in fieldSet
      modifies this`fieldSet, this`fieldData
      ensures Valid() && fieldSet == old(fieldSet) + {f} && Within(p + 1)
      ensures small ==> SplitAs(l + [Some(f)], base) && fieldData[f].off + fieldData[f].len == p + 1
      ensures forall g :: g != f ==> fieldData[g] == old(fieldData[g])
    {
      hide SplitBy;
      if more {
        if small {
          SplitGrows(fieldSet, fieldData, l, base, f);
          SpanFits(fieldSet, fieldData, l, base, f);
        }
        fieldData := fieldData[f := Span(fieldData[f].off, Wrap16(fieldData[f].len + 1))];
        assert fieldSet + {f} == fieldSet;
      } else {
        if small { SplitStarts(fieldSet, fieldData, l, base, f); }
        fieldData := fieldData[f := Span(Wrap16(p), 1)];
        fieldSet := fieldSet + {f};
      }
    }

    /** After `p` bytes, in state `s`, the last field met being `last`. */
    ghost predicate UpTo(l: Labels, s: State, last: Option<UrlField>, p: nat, small: bool)
      reads this
    {
      && Valid() && Within(p) && fieldSet <= {Schema, Host, Path, Query, Fragment}
      && (last.Some? ==> last.value in fieldSet && FieldStage(last.value) <= Stage(s))
      && (forall f <- fieldSet :: last.Some? && FieldStage(f) <= FieldStage(last.value))
      && (small ==> |l| == p < 0x1_0000 && SplitAs(l, 0))
      && (small && last.Some? && UrlFieldOf(s) == last ==> fieldData[last.value].off + fieldData[last.value].len == p)
    }

    /** The byte at `p` leads from state `s` to state `t`. */
    method Place(s: State, t: State, last: Option<UrlField>, p: nat, ghost l: Labels, ghost small: bool)
      returns (next: Option<UrlField>)
      requires UpTo(l, s, last, p, small) && Stage(s) <= Stage(t) && (small ==> p < MAX_URL)
      modifies this`fieldSet, this`fieldData
      ensures UpTo(l + [UrlFieldOf(t)], t, next, p + 1, small)
    {
      hide Stage, UrlFieldOf, SplitBy;
      FieldStages(s);
      FieldStages(t);
      next := last;
      var field := UrlFieldOf(t);
      if field.Some? {
        Extend(field.value, field == last, p, l, 0, small);
        next := field;
      } else if small {
        SplitSkips(fieldSet, fieldData, l, 0);
      }
    }

    /** The URL's bytes, one after another: `ok` unless one is refused; `foundAt` if a userinfo may be there. */
    method Split(url: seq<byte>, isConnect: bool) returns (ok: bool, foundAt: bool)
      requires Valid() && fieldSet == {}
      modifies this`fieldSet, this`fieldData
      ensures Valid() && Within(|url|) && fieldSet <= {Schema, Host, Path, Query, Fragment}
      ensures ok <==> StateAfter(FirstState(isConnect), url, |url|) != Dead
      ensures ok ==> (foundAt <==> HasAt(FirstState(isConnect), url, |url|))
      ensures ok && |url| <= MAX_URL ==> SplitAs(UrlLabels(FirstState(isConnect), url), 0)
    {
      ghost var s0, small := FirstState(isConnect), |url| <= MAX_URL;
      ghost var labels := UrlLabels(s0, url);
      var s, last := FirstState(isConnect), None;
      foundAt := false;
      hide UrlState, Stage, UrlFieldOf, HasAt, StateAfter, UrlLabels, Spanned;
      NothingYet(s0, url);
      var p := 0;
      while p < |url|
        invariant p <= |url| && UpTo(labels[..p], s, last, p, small)
        invariant s == StateAfter(s0, url, p) && s != Dead
        invariant foundAt <==> HasAt(s0, url, p)
      {
        var t := UrlState(s, url[p]);
        ByteIsLabelled(s0, url, p);
        if t.Dead? {
          DeadStays(s0, url, p + 1, |url|);
          return false, foundAt;
        }
        foundAt := foundAt || t.ReqServerWithAt?;
        last := Place(s, t, last, p, labels[..p], small);
        s, p := t, p + 1;
      }
      assert labels[..p] == labels;
      ok := true;
    }

    // ---------- http_parse_host ----------

    /** The fields the host part has been split into so far. */
    ghost function HostFields(): (r: set<UrlField>)
      reads this
    {
      (fieldSet * {Port, Userinfo}) + (if Host in fieldData && fieldData[Host].len > 0 then {Host} else {})
    }

    /** In host state `s` at `p`; `l` labels the host's bytes from `base` on. */
    ghost predicate HostUpTo(l: Labels, s: HostState, p: nat, base: nat, small: bool)
      reads this
    {
      && Valid() && Host in fieldSet && (HostStage(s) < 4 ==> fieldData[Host].len == 0)
      && (HostFieldOf(s).Some? ==> HostFieldOf(s).value in fieldSet)
      && (forall f <- fieldSet * {Host, Port, Userinfo} :: fieldData[f].off + fieldData[f].len <= p)
      && (small ==>
            && p == base + |l| < 0x1_0000 && SplitBy(HostFields(), fieldData, l, base)
            && (forall f <- HostFields() :: HostFieldStage(f) <= HostStage(s))
            && (4 <= HostStage(s) < 8 ==> Host in HostFields())
            && (HostFieldOf(s).Some? ==>
                  var f := HostFieldOf(s).value; f in HostFields() && fieldData[f].off + fieldData[f].len == p))
    }

    /** The byte at `p` belongs to part `f` of the host; `more` if the byte before did too. */
    method ExtendHost(f: UrlField, more: bool, p: nat, ghost l: Labels, ghost base: nat, ghost small: bool)
      requires Valid() && Host in fieldSet && f in {Host, Port, Userinfo} && (more ==> f in fieldSet)
      requires !more && f.Host? ==> fieldData[Host].len == 0
      requires forall g <- fieldSet * {Host, Port, Userinfo} :: fieldData[g].off + fieldData[g].len <= p
      requires small ==> p == base + |l| && p < MAX_URL && SplitBy(HostFields(), fieldData, l, base)
      requires small ==>
                 if more then f in HostFields() && fieldData[f].off + fieldData[f].len == p else f !in HostFields()
      modifies this`fieldSet, this`fieldData
      ensures Valid() && fieldSet == old(fieldSet) + {f}
      ensures forall g <- fieldSet * {Host, Port, Userinfo} :: fieldData[g].off + fieldData[g].len <= p + 1
      ensures small ==> SplitBy(HostFields(), fieldData, l + [Some(f)], base)
      ensures small ==> HostFields() == old(HostFields()) + {f} && fieldData[f].off + fieldData[f].len == p + 1
      ensures forall g :: g != f ==> fieldData[g] == old(fieldData[g])
    {
      hide SplitBy;
      ghost var fields := HostFields();
      var start := if more then fieldData[f] else Span(Wrap16(p), if f.Host? then fieldData[f].len else 0);
      if small {
        if more {
          SplitGrows(fields, fieldData, l, base, f);
          SpanFits(fields, fieldData, l, base, f);
        } else {
          SplitStarts(fields, fieldData, l, base, f);
        }
      }
      fieldSet := fieldSet + {f};
      fieldData := fieldData[f := Span(start.off, Wrap16(start.len + 1))];
      assert small ==> HostFields() == fields + {f};
      assert more && small ==> fields + {f} == fields;
    }

    /** The byte at `p` leads from host state `s` to `t`. */
    method PlaceHost(s: HostState, t: HostState, p: nat, ghost l: Labels, ghost base: nat, ghost small: bool)
      requires HostUpTo(l, s, p, base, small) && (small ==> p < MAX_URL) && t != HostDead
      requires HostFollows(s, t)
      modifies this`fieldSet, this`fieldData
      ensures HostUpTo(l + [HostFieldOf(t)], t, p + 1, base, small)
      ensures fieldSet <= old(fieldSet) + {Port, Userinfo} && old(fieldSet) <= fieldSet
      ensures forall g :: g !in {Host, Port, Userinfo} ==> fieldData[g] == old(fieldData[g])
    {
      hide SplitBy;
      HostFieldStages(s);
      HostFieldStages(t);
      var field := HostFieldOf(t);
      if field.Some? {
        ExtendHost(field.value, s == t || t.ZoneStart? || t.Zone?, p, l, base, small);
      } else if small {
        SplitSkips(HostFields(), fieldData, l, base);
      }
    }

    /** The bytes of the host part, one after another; the host state they lead to. */
    method HostBytes(buf: seq<byte>, from: nat, end: nat, s0: HostState, ghost small: bool) returns (s: HostState)
      requires from <= end <= |buf| && HostUpTo([], s0, from, from, small) && s0 != HostDead
      requires (small ==> |buf| <= MAX_URL)
      modifies this`fieldSet, this`fieldData
      ensures Valid() && old(fieldSet) <= fieldSet <= old(fieldSet) + {Port, Userinfo}
      ensures forall f :: f !in {Host, Port, Userinfo} ==> fieldData[f] == old(fieldData[f])
      ensures s == HostAfter(s0, buf[from..end], end - from)
      ensures forall f <- fieldSet * {Host, Port, Userinfo} :: fieldData[f].off + fieldData[f].len <= end
      ensures s != HostDead ==> HostUpTo(HostLabels(s0, buf[from..end]), s, end, from, small)
    {
      hide HostNext, HostStage, HostFieldOf, HostLabels, SplitBy, HostFollows;
      ghost var host := buf[from..end];
      ghost var labels := HostLabels(s0, host);
      s := s0;
      var p := from;
      assert labels[..0] == [];
      while p < end
        invariant from <= p <= end && HostUpTo(labels[..p - from], s, p, from, small)
        invariant s == HostAfter(s0, host, p - from) && s != HostDead
        invariant old(fieldSet) <= fieldSet <= old(fieldSet) + {Port, Userinfo}
        invariant forall f :: f !in {Host, Port, Userinfo} ==> fieldData[f] == old(fieldData[f])
      {
        hide HostAfter;
        var t := HostNext(s, buf[p]);
        HostByteIsLabelled(s0, host, p - from);
        if t == HostDead {
          HostDeadStays(s0, host, p - from + 1, |host|);
          return t;
        }
        PlaceHost(s, t, p, labels[..p - from], from, small);
        s, p := t, p + 1;
      }
      assert labels[..p - from] == labels;
    }

    /** `http_parse_host`: the host part, taken apart in place. */
    method ParseHost(buf: seq<byte>, foundAt: bool, ghost host: seq<byte>, ghost from: nat) returns (bad: bool)
      requires Valid() && Host in fieldSet && fieldSet !! {Port, Userinfo}
      requires fieldData[Host] == Span(from, |host|) && from + |host| <= |buf| && host == buf[from..from + |host|]
      modifies this`fieldSet, this`fieldData
      ensures Valid() && old(fieldSet) <= fieldSet <= old(fieldSet) + {Port, Userinfo}
      ensures forall f :: f !in {Host, Port, Userinfo} ==> fieldData[f] == old(fieldData[f])
      ensures forall f <- fieldSet * {Host, Port, Userinfo} :: fieldData[f].off + fieldData[f].len <= |buf|
      ensures !bad <==> HostEndsWell(HostAfter(FirstHostState(foundAt), host, |host|))
      ensures !bad && |buf| <= MAX_URL ==>
                && Host in HostFields()
                && SplitBy(HostFields(), fieldData, HostLabels(FirstHostState(foundAt), host), from)
    {
      var begin, end := fieldData[Host].off, fieldData[Host].off + fieldData[Host].len;
      var s0 := FirstHostState(foundAt);
      hide HostAfter, HostLabels, SplitBy, HostUpTo, HostFields, HostEndsWell;
      StartHost(s0, |buf| <= MAX_URL);
      var s := HostBytes(buf, begin, end, s0, |buf| <= MAX_URL);
      HostIsFound(HostLabels(s0, host), s, end, from);
      bad := !HostEndsWell(s);
    }

    method StartHost(s0: HostState, ghost small: bool)
      requires Valid() && Host in fieldSet && fieldSet !! {Port, Userinfo} && (s0.UserinfoStart? || s0.HostStart?)
      requires small ==> fieldData[Host].off <= MAX_URL
      modifies this`fieldData
      ensures fieldData == old(fieldData)[Host := Span(old(fieldData[Host].off), 0)]
      ensures s0 != HostDead && HostUpTo([], s0, fieldData[Host].off, fieldData[Host].off, small)
    {
      hide SplitBy;
      fieldData := fieldData[Host := Span(fieldData[Host].off, 0)];
      NoHostYet(s0);
      assert HostFields() == {};
    }

    lemma HostIsFound(l: Labels, s: HostState, p: nat, base: nat)
      ensures HostEndsWell(s) ==> s != HostDead
      ensures HostEndsWell(s) && HostUpTo(l, s, p, base, true) ==>
                Host in HostFields() && SplitBy(HostFields(), fieldData, l, base)
    {
      hide SplitBy;
    }

    // ---------- http_parser_parse_url ----------

    /** The URL's fields, those of the host part included. */
    method Divide(url: seq<byte>, isConnect: bool) returns (ok: bool)
      requires Valid() && fieldSet == {}
      modifies this`fieldSet, this`fieldData
      ensures Valid() && (ok && Port in fieldSet ==> fieldData[Port].off <= |url|)
      ensures ok && Schema in fieldSet ==> Host in fieldSet
      ensures |url| <= MAX_URL ==> (ok <==> Divides(url, isConnect))
      ensures ok && |url| <= MAX_URL ==> SplitBy(fieldSet, fieldData, FinalLabels(url, isConnect), 0)
    {
      hide SplitBy, UrlLabels, StateAfter, HostLabels, HostAfter, HasAt;
      ghost var s0, small := FirstState(isConnect), |url| <= MAX_URL;
      ghost var l := UrlLabels(s0, url);
      var accepted, foundAt := Split(url, isConnect);
      if !accepted {
        return false;
      }
      if small {
        SplitMeans(fieldSet, fieldData, l, Schema);
        SplitMeans(fieldSet, fieldData, l, Host);
      }
      if Schema in fieldSet && Host !in fieldSet {
        return false;
      }
      if Host in fieldSet {
        ok := DivideHost(url, isConnect, foundAt);
        return;
      }
      if small {
        NoHostFinal(l);
      }
      return true;
    }

    /** The fields of the host part, in place of the host. */
    method DivideHost(url: seq<byte>, isConnect: bool, foundAt: bool) returns (ok: bool)
      requires Valid() && Host in fieldSet && fieldSet !! {Port, Userinfo} && Within(|url|)
      requires foundAt <==> HasAt(FirstState(isConnect), url, |url|)
      requires |url| <= MAX_URL ==>
                 && SplitAs(UrlLabels(FirstState(isConnect), url), 0)
                 && fieldData[Host] == Span(Begin(UrlLabels(FirstState(isConnect), url), Host),
                                            Size(UrlLabels(FirstState(isConnect), url), Host))
      modifies this`fieldSet, this`fieldData
      ensures Valid() && Host in fieldSet && (ok && Port in fieldSet ==> fieldData[Port].off <= |url|)
      ensures |url| <= MAX_URL ==>
                var host := HostPart(UrlLabels(FirstState(isConnect), url), url);
                ok <==> HostEndsWell(HostAfter(FirstHostState(foundAt), host, |host|))
      ensures ok && |url| <= MAX_URL ==> SplitBy(fieldSet, fieldData, FinalLabels(url, isConnect), 0)
    {
      hide SplitBy, UrlLabels, StateAfter, HostLabels, HostAfter, HasAt, HostEndsWell;
      ghost var l, fields, data := UrlLabels(FirstState(isConnect), url), fieldSet, fieldData;
      ghost var span := fieldData[Host];
      var bad := ParseHost(url, foundAt, url[span.off..span.off + span.len], span.off);
      if !bad && |url| <= MAX_URL {
        HostSplits(fields, data, l, HostFields(), fieldData, HostLabels(FirstHostState(foundAt), HostPart(l, url)));
        assert fieldSet == fields - {Host} + HostFields();
      }
      ok := !bad;
    }

    /**
     The URL in the first `buflen` bytes of `memory`. The port is the number of its field, except that `strtoul` reads
     on where the port ends the URL and the memory behind it happens to hold a digit.
     */
    method Parse(memory: seq<byte>, buflen: nat, isConnect: bool) returns (ok: bool)
      requires Valid() && buflen <= |memory|
      modifies this
      ensures Valid()
      ensures buflen <= MAX_URL ==> (ok <==> Accepts(memory, buflen, isConnect))
      ensures ok && buflen <= MAX_URL ==>
                && SplitBy(fieldSet, fieldData, FinalLabels(memory[..buflen], isConnect), 0)
                && Decomposed(fieldSet, fieldData, memory[..buflen])
      ensures ok && Schema in fieldSet ==> Host in fieldSet
      ensures ok && Port !in fieldSet ==> port == 0
      ensures ok && Port in fieldSet ==> fieldData[Port].off <= buflen && port == StrToUl(memory, fieldData[Port].off)
      ensures ok && Port in fieldSet && buflen <= MAX_URL ==>
                PortRead(port, fieldData[Port], memory, buflen)
    {
      hide SplitBy, FinalLabels, Divides, StrToUl, Decomposed, PortRead;
      ok := ParseFields(memory[..buflen], isConnect);
      if ok && Port in fieldSet {
        var v := StrToUl(memory, fieldData[Port].off);
        if v > 0xFFFF {
          return false;
        }
        port := v;
        if buflen <= MAX_URL {
          PortIsRead(fieldSet, fieldData, memory, buflen, isConnect);
        }
      }
    }

    /** All but the port. */
    method ParseFields(url: seq<byte>, isConnect: bool) returns (ok: bool)
      requires Valid()
      modifies this
      ensures Valid() && port == 0
      ensures ok && Port in fieldSet ==> fieldData[Port].off <= |url|
      ensures ok && Schema in fieldSet ==> Host in fieldSet
      ensures |url| <= MAX_URL ==>
                (ok <==>
                  && Divides(url, isConnect)
                  && (isConnect ==>
                        forall f: UrlField :: Some(f) in FinalLabels(url, isConnect) <==> f == Host || f == Port))
      ensures ok && |url| <= MAX_URL ==>
                && SplitBy(fieldSet, fieldData, FinalLabels(url, isConnect), 0)
                && Decomposed(fieldSet, fieldData, url)
                && (Port in fieldSet <==> Some(Port) in FinalLabels(url, isConnect))
                && (Port in fieldSet ==> fieldData[Port].off == Begin(FinalLabels(url, isConnect), Port))
    {
      hide SplitBy, FinalLabels, Divides, Decomposed;
      port, fieldSet := 0, {};
      ok := Divide(url, isConnect);
      if !ok {
        return;
      }
      if |url| <= MAX_URL {
        forall f: UrlField ensures f in fieldSet <==> Some(f) in FinalLabels(url, isConnect) {
          SplitMeans(fieldSet, fieldData, FinalLabels(url, isConnect), f);
        }
        SplitMeans(fieldSet, fieldData, FinalLabels(url, isConnect), Port);
        Decomposition(fieldSet, fieldData, url, isConnect);
      }
      ok := !isConnect || fieldSet == {Host, Port};
    }
  }

  /** When the port is the number of its field. */
  lemma PortIsRead(fields: set<UrlField>, data: map<UrlField, Span>, memory: seq<byte>, buflen: nat, isConnect: bool)
    requires buflen <= |memory| && Port in fields && Port in data && data[Port].off <= buflen
    requires Decomposed(fields, data, memory[..buflen])
    requires SplitBy(fields, data, FinalLabels(memory[..buflen], isConnect), 0)
    requires StrToUl(memory, data[Port].off) <= 0xFFFF
    ensures PortRead(StrToUl(memory, data[Port].off), data[Port], memory, buflen)
  {
    hide SplitBy, FinalLabels, StrToUl, DecValue, Zeros;
    var from, end := data[Port].off, data[Port].off + data[Port].len;
    forall j | from <= j < end ensures IsNum(memory[j]) {
      assert memory[j] == memory[..buflen][j];
    }
    PortIsItsField(memory, from, end);
    if end < buflen {
      PortEnds(fields, data, memory[..buflen], isConnect);
      assert memory[end] == memory[..buflen][end];
    }
  }
}
