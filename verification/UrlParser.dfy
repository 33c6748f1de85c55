/**
  third-party/url-parser/url_parser.c in strict mode: the two character machines as transition functions, and the two
  loops that drive them as methods. Offsets and lengths are stored in 16 bits, as in struct http_parser_url.
*/
module UrlParser {
  import opened Basics
  import opened Text

  // ---------------------------------------------------------------- character classes

  predicate IsMark(c: char) {
    c == '-' || c == '_' || c == '.' || c == '!' || c == '~' || c == '*' || c == '\'' || c == '(' || c == ')'
  }

  predicate IsUserinfoChar(c: char) {
    || IsAlpha(c) || IsDigit(c) || IsMark(c)
    || c == '%' || c == ';' || c == ':' || c == '&' || c == '=' || c == '+' || c == '$' || c == ','
  }

  /** normal_url_char: the visible ASCII characters except '#' and '?' */
  predicate IsUrlChar(c: char) {
    '!' <= c <= '~' && c != '#' && c != '?'
  }

  predicate IsHostChar(c: char) {
    IsAlpha(c) || IsDigit(c) || c == '.' || c == '-'
  }

  predicate IsV6Char(c: char) {
    IsHexDigit(c) || c == ':' || c == '.'
  }

  predicate IsZoneChar(c: char) {
    IsAlpha(c) || IsDigit(c) || c == '%' || c == '.' || c == '-' || c == '_' || c == '~'
  }

  // ---------------------------------------------------------------- parse_url_char

  datatype State =
    | Dead | BeforeUrl | Schema | SchemaSlash | SchemaSlashSlash | ServerStart | Server | ServerWithAt
    | Path | QueryStart | Query | FragmentStart | Fragment

  function UrlChar(s: State, ch: char): State {
    if ch == ' ' || ch == '\r' || ch == '\n' || ch == '\t' || ch == '\U{0c}' then Dead
    else
      match s
      case BeforeUrl => if ch == '/' || ch == '*' then Path else if IsAlpha(ch) then Schema else Dead
      case Schema => if IsAlpha(ch) then Schema else if ch == ':' then SchemaSlash else Dead
      case SchemaSlash => if ch == '/' then SchemaSlashSlash else Dead
      case SchemaSlashSlash => if ch == '/' then ServerStart else Dead
      case ServerWithAt => if ch == '@' then Dead else ServerChar(ch)
      case ServerStart => ServerChar(ch)
      case Server => ServerChar(ch)
      case Path =>
        if IsUrlChar(ch) then Path else if ch == '?' then QueryStart else if ch == '#' then FragmentStart else Dead
      case QueryStart => QueryChar(ch)
      case Query => QueryChar(ch)
      case FragmentStart => if IsUrlChar(ch) || ch == '?' then Fragment else if ch == '#' then FragmentStart else Dead
      case Fragment => if IsUrlChar(ch) || ch == '?' || ch == '#' then Fragment else Dead
      case Dead => Dead
  }

  function ServerChar(ch: char): State {
    if ch == '/' then Path
    else if ch == '?' then QueryStart
    else if ch == '@' then ServerWithAt
    else if IsUserinfoChar(ch) || ch == '[' || ch == ']' then Server
    else Dead
  }

  function QueryChar(ch: char): State {
    if IsUrlChar(ch) || ch == '?' then Query else if ch == '#' then FragmentStart else Dead
  }

  // ---------------------------------------------------------------- http_parse_host_char

  datatype HostState =
    | HDead | UserinfoStart | Userinfo | HostStart | V6Start | RegName | V6 | V6End | ZoneStart | Zone | PortStart | Port

  function HostChar(s: HostState, ch: char): HostState {
    match s
    case Userinfo | UserinfoStart =>
      if ch == '@' then HostStart else if IsUserinfoChar(ch) then Userinfo else HDead
    case HostStart => if ch == '[' then V6Start else if IsHostChar(ch) then RegName else HDead
    case RegName => if IsHostChar(ch) then RegName else if ch == ':' then PortStart else HDead
    case V6End => if ch == ':' then PortStart else HDead
    case V6 => if ch == ']' then V6End else if IsV6Char(ch) then V6 else if ch == '%' then ZoneStart else HDead
    case V6Start => if IsV6Char(ch) then V6 else HDead
    case Zone => if ch == ']' then V6End else if IsZoneChar(ch) then Zone else HDead
    case ZoneStart => if IsZoneChar(ch) then Zone else HDead
    case Port | PortStart => if IsDigit(ch) then Port else HDead
    case HDead => HDead
  }

  // ---------------------------------------------------------------- struct http_parser_url

  datatype Field = UfSchema | UfHost | UfPort | UfPath | UfQuery | UfFragment | UfUserinfo

  datatype Slice = Slice(off: nat, len: nat)

  /** A field is set when it is a key of fields. */
  datatype Url = Url(port: nat, fields: map<Field, Slice>)

  /** How offsets and lengths are stored: in uint16_t, as the source does, or as they are. */
  datatype Width = Bits16 | Unbounded

  /** The cast to uint16_t */
  function Cut(w: Width, n: nat): (r: nat)
    ensures r <= n
    ensures w.Unbounded? || n < 65536 ==> r == n
  {
    if w.Bits16? then n % 65536 else n
  }

  function Grown(w: Width, f: Slice): Slice {
    f.(len := Cut(w, f.len + 1))
  }

  /** The field a state belongs to; None for the states that skip a delimiter. */
  function FieldOf(s: State): Option<Field> {
    match s
    case Schema => Some(UfSchema)
    case Server | ServerWithAt => Some(UfHost)
    case Path => Some(UfPath)
    case Query => Some(UfQuery)
    case Fragment => Some(UfFragment)
    case _ => None
  }

  /** A slice does not reach past n. */
  predicate Ends(f: Slice, n: nat) {
    f.off + f.len <= n
  }

  // ---------------------------------------------------------------- what the first loop computes

  /** The loop's variables: s, old_uf (None for UF_MAX), found_at and the fields recorded so far. */
  datatype Scan = Scan(s: State, last: Option<Field>, foundAt: bool, fields: map<Field, Slice>)

  function ScanStep(w: Width, sc: Scan, ch: char, pos: nat): Scan
    requires sc.last.Some? ==> sc.last.value in sc.fields
  {
    Record(w, sc, UrlChar(sc.s, ch), pos)
  }

  /** The bookkeeping of one turn: skip a delimiter, lengthen the current field or open a new one. */
  function Record(w: Width, sc: Scan, s: State, pos: nat): Scan
    requires sc.last.Some? ==> sc.last.value in sc.fields
  {
    var uf := FieldOf(s);
    if uf.None? then sc.(s := s)
    else
      var slice := if uf == sc.last then Grown(w, sc.fields[uf.value]) else Slice(Cut(w, pos), 1);
      Scan(s, uf, sc.foundAt || s == ServerWithAt, sc.fields[uf.value := slice])
  }

  /** The variables after the characters of t. */
  function ScanAll(w: Width, isConnect: bool, t: string): (sc: Scan)
    ensures sc.last.Some? ==> sc.last.value in sc.fields
    ensures forall f | f in sc.fields :: Ends(sc.fields[f], |t|)
  {
    if t == "" then Scan(if isConnect then ServerStart else BeforeUrl, None, false, map[])
    else ScanStep(w, ScanAll(w, isConnect, t[..|t| - 1]), t[|t| - 1], |t| - 1)
  }

  // ---------------------------------------------------------------- what http_parse_host computes

  datatype HostScan = HostScan(s: HostState, userinfo: Option<Slice>, host: Slice, port: Option<Slice>)

  predicate HostScanOk(hs: HostScan, n: nat) {
    && Ends(hs.host, n)
    && (hs.userinfo.Some? ==> Ends(hs.userinfo.value, n))
    && (hs.port.Some? ==> Ends(hs.port.value, n))
    && (hs.s == Userinfo ==> hs.userinfo.Some?)
    && (hs.s == Port ==> hs.port.Some?)
    && (hs.s == UserinfoStart || hs.s == Userinfo || hs.s == HostStart || hs.s == V6Start ==> hs.host.len == 0)
  }

  function HostStep(w: Width, hs: HostScan, ch: char, pos: nat): (r: HostScan)
    requires HostScanOk(hs, pos)
    ensures HostScanOk(r, pos + 1)
  {
    HostRecord(w, hs, HostChar(hs.s, ch), pos)
  }

  /** The bookkeeping of one turn. */
  function HostRecord(w: Width, hs: HostScan, s: HostState, pos: nat): (r: HostScan)
    requires HostScanOk(hs, pos)
  {
    match s
    case RegName | V6 =>
      hs.(s := s, host := if hs.s == s then Grown(w, hs.host) else Slice(Cut(w, pos), Cut(w, hs.host.len + 1)))
    case ZoneStart | Zone => hs.(s := s, host := Grown(w, hs.host))
    case Port => hs.(s := s, port := Some(if hs.s == Port then Grown(w, hs.port.value) else Slice(Cut(w, pos), 1)))
    case Userinfo =>
      hs.(s := s, userinfo := Some(if hs.s == Userinfo then Grown(w, hs.userinfo.value) else Slice(Cut(w, pos), 1)))
    case _ => hs.(s := s)
  }

  /** The variables after the characters of t, which starts at offset off. */
  function HostAll(w: Width, foundAt: bool, off: nat, t: string): (hs: HostScan)
    ensures HostScanOk(hs, off + |t|)
  {
    if t == "" then HostScan(if foundAt then UserinfoStart else HostStart, None, Slice(off, 0), None)
    else
      var front, ch := t[..|t| - 1], t[|t| - 1];
      HostStep(w, HostAll(w, foundAt, off, front), ch, off + |front|)
  }

  predicate HostAccepts(s: HostState) {
    s == RegName || s == V6End || s == Port
  }

  function WithHost(fields: map<Field, Slice>, hs: HostScan): map<Field, Slice> {
    var withHost := fields[UfHost := hs.host];
    var withUser := if hs.userinfo.Some? then withHost[UfUserinfo := hs.userinfo.value] else withHost;
    if hs.port.Some? then withUser[UfPort := hs.port.value] else withUser
  }

  // ---------------------------------------------------------------- the port number

  /** The digit loop: fails as soon as the value leaves 0..65535. */
  function PortLoop(t: string): (v: Option<nat>)
    ensures v.Some? ==> v.value <= 0xffff
  {
    if t == "" then Some(0)
    else
      var before := PortLoop(t[..|t| - 1]);
      if before.None? then None
      else
        var v := before.value * 10 + t[|t| - 1] as int - '0' as int;
        if v < 0 || v > 0xffff then None else Some(v)
  }

  /** The decimal value of a digit string. */
  function Decimal(t: string): nat
    requires forall i | 0 <= i < |t| :: IsDigit(t[i])
  {
    if t == "" then 0
    else
      assert IsDigit(t[|t| - 1]);
      Decimal(t[..|t| - 1]) * 10 + (t[|t| - 1] as int - '0' as int)
  }

  lemma {:induction false} PortLoopIsDecimal(t: string)
    requires forall i | 0 <= i < |t| :: IsDigit(t[i])
    ensures PortLoop(t) == if Decimal(t) <= 0xffff then Some(Decimal(t)) else None
  {
    if t != "" { PortLoopIsDecimal(t[..|t| - 1]); }
  }

  // ---------------------------------------------------------------- http_parser_parse_url

  /** What http_parser_parse_url returns: the filled struct, or None for a nonzero result. */
  function Parse(buf: string, isConnect: bool): Option<Url> {
    ParseAt(Bits16, buf, isConnect)
  }

  /** What it would return if offsets and lengths were not cut to 16 bits. */
  function TrueParse(buf: string, isConnect: bool): Option<Url> {
    ParseAt(Unbounded, buf, isConnect)
  }

  function ParseAt(w: Width, buf: string, isConnect: bool): Option<Url> {
    var fields := FieldsAt(w, buf, isConnect);
    if fields.None? then None else Finish(buf, isConnect, fields.value)
  }

  /** The fields after both loops, if nothing has failed so far. */
  function FieldsAt(w: Width, buf: string, isConnect: bool): (r: Option<map<Field, Slice>>)
    ensures r.Some? ==> forall f | f in r.value :: Ends(r.value[f], |buf|)
  {
    var sc := ScanAll(w, isConnect, buf);
    if buf == "" || sc.s == Dead || (UfSchema in sc.fields && UfHost !in sc.fields) then None
    else if UfHost in sc.fields then HostFields(w, buf, sc)
    else Some(sc.fields)
  }

  function SliceText(buf: string, f: Slice): string
    requires Ends(f, |buf|)
  {
    buf[f.off..f.off + f.len]
  }

  function HostFields(w: Width, buf: string, sc: Scan): (r: Option<map<Field, Slice>>)
    requires UfHost in sc.fields
    requires forall f | f in sc.fields :: Ends(sc.fields[f], |buf|)
    ensures r.Some? ==> forall f | f in r.value :: Ends(r.value[f], |buf|)
  {
    var f := sc.fields[UfHost];
    var hs := HostAll(w, sc.foundAt, f.off, SliceText(buf, f));
    if HostAccepts(hs.s) then Some(WithHost(sc.fields, hs)) else None
  }

  // ---------------------------------------------------------------- one more character

  /** G(t) is the first loop's state after t, ScanAll(w, isConnect, t), known only by what one more character does. */
  ghost predicate IsScan(w: Width, G: string -> Scan) {
    forall t: string, ch: char :: ScanTurn(w, G, t, ch)
  }

  predicate ScanTurn(w: Width, G: string -> Scan, t: string, ch: char) {
    (G(t).last.Some? ==> G(t).last.value in G(t).fields) && G(t + [ch]) == ScanStep(w, G(t), ch, |t|)
  }

  lemma ScanAllIsScan(w: Width, isConnect: bool)
    ensures IsScan(w, (t: string) => ScanAll(w, isConnect, t))
  {
    var G := (t: string) => ScanAll(w, isConnect, t);
    forall t: string, ch: char
      ensures ScanTurn(w, G, t, ch)
    {
      var u := t + [ch];
      assert u[..|u| - 1] == t && u[|u| - 1] == ch;
    }
  }

  /** F(t) is the host loop's state after t, HostAll(w, foundAt, off, t), known only in the same way. */
  ghost predicate IsHost(w: Width, F: string -> HostScan, off: nat) {
    forall t: string, ch: char :: HostTurnOk(w, F, off, t, ch)
  }

  predicate HostTurnOk(w: Width, F: string -> HostScan, off: nat, t: string, ch: char) {
    HostScanOk(F(t), off + |t|) && F(t + [ch]) == HostStep(w, F(t), ch, off + |t|)
  }

  lemma HostAllIsHost(w: Width, foundAt: bool, off: nat)
    ensures IsHost(w, (t: string) => HostAll(w, foundAt, off, t), off)
  {
    var F := (t: string) => HostAll(w, foundAt, off, t);
    forall t: string, ch: char ensures HostTurnOk(w, F, off, t, ch) {
      HostAllTurn(w, foundAt, off, t, ch);
    }
  }

  lemma HostAllTurn(w: Width, foundAt: bool, off: nat, t: string, ch: char)
    ensures HostTurnOk(w, (t: string) => HostAll(w, foundAt, off, t), off, t, ch)
  {
    var u := t + [ch];
    assert u[..|u| - 1] == t && u[|u| - 1] == ch;
  }

  lemma ScanAllSnoc(w: Width, isConnect: bool, t: string, n: nat)
    requires n < |t|
    ensures ScanAll(w, isConnect, t[..n + 1]) == ScanStep(w, ScanAll(w, isConnect, t[..n]), t[n], n)
  {
    ScanAllIsScan(w, isConnect);
    assert ScanTurn(w, (t: string) => ScanAll(w, isConnect, t), t[..n], t[n]);
    assert t[..n] + [t[n]] == t[..n + 1];
  }

  // ---------------------------------------------------------------- the loops

  /** The loop of http_parse_host, over the slice f of buf; F(t) is its state after t. */
  method RunHost(buf: string, f: Slice, foundAt: bool, ghost F: string -> HostScan) returns (hs: HostScan)
    requires Ends(f, |buf|) && IsHost(Bits16, F, f.off)
    requires F("") == HostScan(if foundAt then UserinfoStart else HostStart, None, Slice(f.off, 0), None)
    ensures hs == F(SliceText(buf, f)) || hs.s == F(SliceText(buf, f)).s == HDead
  {
    ghost var text := SliceText(buf, f);
    hs := HostScan(if foundAt then UserinfoStart else HostStart, None, Slice(f.off, 0), None);
    var i := 0;
    while i < f.len && hs.s != HDead
      invariant 0 <= i <= f.len
      invariant hs == F(text[..i])
    {
      assert HostTurnOk(Bits16, F, f.off, text[..i], text[i]);
      assert text[..i] + [text[i]] == text[..i + 1];
      hs := HostStep(Bits16, hs, buf[f.off + i], f.off + i);
      i := i + 1;
    }
    if hs.s == HDead {
      HostDeadStays(Bits16, F, f.off, text, i);
    } else {
      assert text[..f.len] == text;
    }
  }

  /** http_parse_host: accepts unless the machine died or stopped in the middle of something. */
  method ParseHost(buf: string, f: Slice, foundAt: bool) returns (ok: bool, hs: HostScan)
    requires Ends(f, |buf|)
    ensures var all := HostAll(Bits16, foundAt, f.off, SliceText(buf, f)); ok == HostAccepts(all.s) && (ok ==> hs == all)
  {
    HostAllIsHost(Bits16, foundAt, f.off);
    hs := RunHost(buf, f, foundAt, (t: string) => HostAll(Bits16, foundAt, f.off, t));
    match hs.s {
      case HDead => return false, hs;
      case HostStart | V6Start | V6 | ZoneStart | Zone | PortStart | Userinfo | UserinfoStart => return false, hs;
      case RegName | V6End | Port => return true, hs;
    }
  }

  lemma {:induction false} HostDeadStays(w: Width, F: string -> HostScan, off: nat, t: string, n: nat)
    requires IsHost(w, F, off) && n <= |t| && F(t[..n]).s == HDead
    ensures F(t).s == HDead
  {
    if n < |t| {
      var front, ch := t[..|t| - 1], t[|t| - 1];
      assert front[..n] == t[..n];
      HostDeadStays(w, F, off, front, n);
      assert HostTurnOk(w, F, off, front, ch) && front + [ch] == t;
    } else {
      assert t[..n] == t;
    }
  }

  lemma {:induction false} DeadStays(w: Width, isConnect: bool, t: string, n: nat)
    requires n <= |t| && ScanAll(w, isConnect, t[..n]).s == Dead
    ensures ScanAll(w, isConnect, t).s == Dead
  {
    if n < |t| {
      assert t[..|t| - 1][..n] == t[..n];
      DeadStays(w, isConnect, t[..|t| - 1], n);
    } else {
      assert t[..n] == t;
    }
  }

  /** The first loop of http_parser_parse_url. */
  method ScanUrl(buf: string, isConnect: bool) returns (sc: Scan)
    ensures sc == ScanAll(Bits16, isConnect, buf) || (sc.s == Dead && ScanAll(Bits16, isConnect, buf).s == Dead)
  {
    sc := Scan(if isConnect then ServerStart else BeforeUrl, None, false, map[]);
    var p := 0;
    while p < |buf| && sc.s != Dead
      invariant 0 <= p <= |buf|
      invariant sc == ScanAll(Bits16, isConnect, buf[..p])
    {
      sc := ScanTurnOf(sc, buf, p, isConnect);
      p := p + 1;
    }
    if sc.s == Dead {
      DeadStays(Bits16, isConnect, buf, p);
    } else {
      assert buf[..|buf|] == buf;
    }
  }

  /** One turn of that loop. */
  method ScanTurnOf(sc: Scan, buf: string, p: nat, ghost isConnect: bool) returns (r: Scan)
    requires p < |buf| && sc == ScanAll(Bits16, isConnect, buf[..p])
    ensures r == ScanAll(Bits16, isConnect, buf[..p + 1])
  {
    ScanAllSnoc(Bits16, isConnect, buf, p);
    var s := UrlChar(sc.s, buf[p]);
    assert s != BeforeUrl;  // the source's assert(!"Unexpected state")
    r := Record(Bits16, sc, s, p);
  }

  /** The port loop of http_parser_parse_url. */
  method ReadPort(t: string) returns (v: Option<nat>)
    ensures v == PortLoop(t)
  {
    var n := 0;
    var i := 0;
    while i < |t|
      invariant 0 <= i <= |t| && 0 <= n <= 0xffff
      invariant PortLoop(t[..i]) == Some(n)
    {
      assert t[..i + 1][..i] == t[..i];
      var n' := n * 10 + (t[i] as int - '0' as int);
      i := i + 1;
      if n' < 0 || n' > 0xffff {
        PortLoopFails(t, i);
        return None;
      }
      n := n';
    }
    assert t[..i] == t;
    return Some(n);
  }

  lemma {:induction false} PortLoopFails(t: string, n: nat)
    requires n <= |t| && PortLoop(t[..n]) == None
    ensures PortLoop(t) == None
  {
    if n < |t| {
      assert t[..|t| - 1][..n] == t[..n];
      PortLoopFails(t[..|t| - 1], n);
    } else {
      assert t[..n] == t;
    }
  }

  lemma WithHostEnds(fields: map<Field, Slice>, hs: HostScan, n: nat)
    requires HostScanOk(hs, n) && forall f | f in fields :: Ends(fields[f], n)
    ensures forall f | f in WithHost(fields, hs) :: Ends(WithHost(fields, hs)[f], n)
  {
  }

  /** The last part of http_parser_parse_url, once the fields are known. */
  function Finish(buf: string, isConnect: bool, fields: map<Field, Slice>): Option<Url>
    requires forall f | f in fields :: Ends(fields[f], |buf|)
  {
    if isConnect && fields.Keys != {UfHost, UfPort} then None
    else if UfPort !in fields then Some(Url(0, fields))
    else
      var v := PortLoop(SliceText(buf, fields[UfPort]));
      if v.None? then None else Some(Url(v.value, fields))
  }

  method FinishUrl(buf: string, isConnect: bool, fields: map<Field, Slice>) returns (r: Option<Url>)
    requires forall f | f in fields :: Ends(fields[f], |buf|)
    ensures r == Finish(buf, isConnect, fields)
  {
    if isConnect && fields.Keys != {UfHost, UfPort} {
      return None;
    }
    if UfPort !in fields {
      return Some(Url(0, fields));
    }
    var port := fields[UfPort];
    assert port.off + port.len <= |buf|;  // the source's "Port number overflow" assertion
    var v := ReadPort(buf[port.off..port.off + port.len]);
    return if v.None? then None else Some(Url(v.value, fields));
  }

  method ParseUrl(buf: string, isConnect: bool) returns (r: Option<Url>)
    ensures r == Parse(buf, isConnect)
  {
    if buf == "" {
      return None;
    }
    var sc := ScanUrl(buf, isConnect);
    if sc.s == Dead || (UfSchema in sc.fields && UfHost !in sc.fields) {
      return None;
    }
    if UfHost !in sc.fields {
      r := FinishUrl(buf, isConnect, sc.fields);
    } else {
      var ok, hs := ParseHost(buf, sc.fields[UfHost], sc.foundAt);
      if !ok {
        return None;
      }
      WithHostEnds(sc.fields, hs, |buf|);
      r := FinishUrl(buf, isConnect, WithHost(sc.fields, hs));
    }
  }
}
