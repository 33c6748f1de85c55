/**
  Parsing undoes printing: a URL printed from well-formed components is cut back into exactly those components. Userinfo,
  query and fragment may be there and empty; then their delimiters are printed and no field is set. UrlGrammar shows that
  every URL the parser accepts is printed in this way.
*/
module UrlRoundTrip {
  import opened Basics
  import opened Text
  import opened UrlParser
  import opened UrlLayout
  import opened UrlWidth

  /** A host as it is written: a registered name, or an address (with an optional zone) between brackets. */
  datatype Host = Name(name: string) | Address(v6: string, zone: Option<string>)

  datatype Components = Components(
    scheme: string, userinfo: Option<string>, host: Host, port: Option<string>,
    path: string, query: Option<string>, fragment: Option<string>)

  // ---------------------------------------------------------------- what is well formed

  predicate All(p: char -> bool, s: string) {
    forall i | 0 <= i < |s| :: p(s[i])
  }

  predicate IsQueryChar(c: char) {
    IsUrlChar(c) || c == '?'
  }

  predicate IsFragmentChar(c: char) {
    IsUrlChar(c) || c == '?' || c == '#'
  }

  predicate HostOk(h: Host) {
    match h
    case Name(name) => name != "" && All(IsHostChar, name)
    case Address(v6, zone) =>
      v6 != "" && All(IsV6Char, v6) && (zone.Some? ==> zone.value != "" && All(IsZoneChar, zone.value))
  }

  predicate PortOk(port: string) {
    port != "" && Digits(port) && Decimal(port) <= 0xffff
  }

  /** Query and fragment; a fragment needs a path or a query before it. */
  predicate TailOk(path: string, query: Option<string>, fragment: Option<string>) {
    && (query.Some? ==> All(IsQueryChar, query.value))
    && (fragment.Some? ==> All(IsFragmentChar, fragment.value) && (path != "" || query.Some?))
  }

  predicate Ok(c: Components) {
    && c.scheme != "" && All(IsAlpha, c.scheme)
    && (c.userinfo.Some? ==> All(IsUserinfoChar, c.userinfo.value))
    && HostOk(c.host)
    && (c.port.Some? ==> PortOk(c.port.value))
    && (c.path != "" ==> c.path[0] == '/' && All(IsUrlChar, c.path))
    && TailOk(c.path, c.query, c.fragment)
  }

  // ---------------------------------------------------------------- printing

  /** The host without its brackets: what the parser reports. */
  function HostText(h: Host): string {
    match h
    case Name(name) => name
    case Address(v6, zone) => if zone.Some? then v6 + "%" + zone.value else v6
  }

  function PrintHost(h: Host): string {
    if h.Name? then h.name else "[" + HostText(h) + "]"
  }

  function Before(part: Option<string>, c: char): string {
    if part.Some? then [c] + part.value else ""
  }

  function UserPart(userinfo: Option<string>): string {
    if userinfo.Some? then userinfo.value + "@" else ""
  }

  function Authority(c: Components): string {
    UserPart(c.userinfo) + PrintHost(c.host) + Before(c.port, ':')
  }

  function Print(c: Components): string {
    c.scheme + "://" + Authority(c) + c.path + Before(c.query, '?') + Before(c.fragment, '#')
  }

  // ---------------------------------------------------------------- what of it is reported

  /** An empty part is not reported. */
  function Filled(part: Option<string>): Option<string> {
    if part.Some? && part.value != "" then part else None
  }

  /** The number signs at the start of a fragment are skipped. */
  function Hashes(frag: string): (n: nat)
    ensures n <= |frag| && (forall i | 0 <= i < n :: frag[i] == '#') && (n < |frag| ==> frag[n] != '#')
  {
    if frag != "" && frag[0] == '#' then 1 + Hashes(frag[1..]) else 0
  }

  function FragmentText(part: Option<string>): Option<string> {
    if part.Some? then Filled(Some(part.value[Hashes(part.value)..])) else None
  }

  function FragmentSkip(part: Option<string>): nat {
    if part.Some? then Hashes(part.value) else 0
  }

  // ---------------------------------------------------------------- runs of the URL machine

  lemma ScanSkip(G: string -> Scan, s: string, ch: char, st: State)
    requires IsScan(Unbounded, G) && UrlChar(G(s).s, ch) == st && FieldOf(st).None?
    ensures G(s + [ch]) == G(s).(s := st)
  {
    assert ScanTurn(Unbounded, G, s, ch);
  }

  /** A run whose first character opens field f and whose other characters stay in it. */
  lemma {:induction false} ScanRun(G: string -> Scan, s: string, run: string, st: State, f: Field)
    requires IsScan(Unbounded, G) && run != ""
    requires FieldOf(st) == Some(f) && st != ServerWithAt && G(s).last != Some(f)
    requires UrlChar(G(s).s, run[0]) == st
    requires forall i | 1 <= i < |run| :: UrlChar(st, run[i]) == st
    ensures G(s + run) == Scan(st, Some(f), G(s).foundAt, G(s).fields[f := Slice(|s|, |run|)])
    decreases |run|
  {
    var front, ch := run[..|run| - 1], run[|run| - 1];
    assert s + run == (s + front) + [ch];
    assert ScanTurn(Unbounded, G, s + front, ch);
    if |run| == 1 {
      assert s + front == s;
    } else {
      ScanRun(G, s, front, st, f);
    }
  }

  predicate IsPlainAuthChar(c: char) {
    IsUserinfoChar(c) || c == '[' || c == ']'
  }

  /** Plain authority characters read in the server state. */
  lemma {:induction false} ScanServer(G: string -> Scan, s: string, run: string)
    requires IsScan(Unbounded, G) && run != "" && All(IsPlainAuthChar, run)
    requires (G(s).s == Server || G(s).s == ServerWithAt) && G(s).last == Some(UfHost) && UfHost in G(s).fields
    requires G(s).fields[UfHost].off + G(s).fields[UfHost].len == |s|
    ensures var f := G(s).fields[UfHost];
            G(s + run) == G(s).(s := Server, fields := G(s).fields[UfHost := Slice(f.off, f.len + |run|)])
    decreases |run|
  {
    var front, ch := run[..|run| - 1], run[|run| - 1];
    assert s + run == (s + front) + [ch];
    assert ScanTurn(Unbounded, G, s + front, ch);
    assert IsPlainAuthChar(ch) && UrlChar(Server, ch) == UrlChar(ServerWithAt, ch) == Server;
    if |run| == 1 {
      assert s + front == s;
    } else {
      ScanServer(G, s, front);
    }
  }

  lemma ServerRun(G: string -> Scan, s: string, run: string)
    requires IsScan(Unbounded, G) && run != "" && All(IsPlainAuthChar, run)
    requires G(s).s == ServerStart && G(s).last != Some(UfHost)
    ensures G(s + run) == Scan(Server, Some(UfHost), G(s).foundAt, G(s).fields[UfHost := Slice(|s|, |run|)])
  {
    forall i | 0 <= i < |run| ensures UrlChar(ServerStart, run[i]) == UrlChar(Server, run[i]) == Server {
      assert IsPlainAuthChar(run[i]);
    }
    ScanRun(G, s, run, Server, UfHost);
  }

  /** The authority: userinfo and '@' if present, then plain characters. */
  lemma ScanAuthority(G: string -> Scan, s: string, userinfo: Option<string>, rest: string)
    requires IsScan(Unbounded, G) && rest != "" && All(IsPlainAuthChar, rest)
    requires userinfo.Some? ==> All(IsUserinfoChar, userinfo.value)
    requires G(s).s == ServerStart && G(s).last != Some(UfHost) && !G(s).foundAt
    ensures var auth := UserPart(userinfo) + rest;
            G(s + auth) == Scan(Server, Some(UfHost), userinfo.Some?, G(s).fields[UfHost := Slice(|s|, |auth|)])
  {
    if userinfo.None? {
      assert UserPart(userinfo) + rest == rest;
      ServerRun(G, s, rest);
    } else {
      var ui := userinfo.value;
      forall i | 0 <= i < |ui| ensures IsPlainAuthChar(ui[i]) { assert IsUserinfoChar(ui[i]); }
      if ui == "" {
        AtFirst(G, s);
        assert s + ui == s;
      } else {
        ServerRun(G, s, ui);
        UserAt(G, s + ui);
      }
      ScanServer(G, s + ui + "@", rest);
      assert s + (ui + "@" + rest) == s + ui + "@" + rest;
    }
  }

  lemma AtFirst(G: string -> Scan, s: string)
    requires IsScan(Unbounded, G) && G(s).s == ServerStart && G(s).last != Some(UfHost)
    ensures G(s + "@") == Scan(ServerWithAt, Some(UfHost), true, G(s).fields[UfHost := Slice(|s|, 1)])
  {
    assert ScanTurn(Unbounded, G, s, '@');
  }

  lemma UserAt(G: string -> Scan, s: string)
    requires IsScan(Unbounded, G) && G(s).s == Server && G(s).last == Some(UfHost) && UfHost in G(s).fields
    requires G(s).fields[UfHost].off + G(s).fields[UfHost].len == |s|
    ensures var f := G(s).fields[UfHost];
            G(s + "@") == Scan(ServerWithAt, Some(UfHost), true, G(s).fields[UfHost := Slice(f.off, f.len + 1)])
  {
    assert ScanTurn(Unbounded, G, s, '@');
  }

  // ---------------------------------------------------------------- runs of the host machine

  lemma HostSkip(F: string -> HostScan, off: nat, t: string, ch: char, st: HostState)
    requires IsHost(Unbounded, F, off) && HostChar(F(t).s, ch) == st && HostField(st).None?
    ensures F(t + [ch]) == F(t).(s := st)
  {
    assert HostTurnOk(Unbounded, F, off, t, ch);
  }

  lemma {:induction false} UserinfoRun(F: string -> HostScan, off: nat, t: string, ui: string)
    requires IsHost(Unbounded, F, off) && ui != "" && All(IsUserinfoChar, ui)
    requires F(t).s == UserinfoStart
    ensures F(t + ui) == F(t).(s := Userinfo, userinfo := Some(Slice(off + |t|, |ui|)))
    decreases |ui|
  {
    var front, ch := ui[..|ui| - 1], ui[|ui| - 1];
    assert t + ui == (t + front) + [ch];
    assert HostTurnOk(Unbounded, F, off, t + front, ch);
    assert IsUserinfoChar(ch);
    if |ui| == 1 {
      assert t + front == t;
    } else {
      UserinfoRun(F, off, t, front);
    }
  }

  /** A run that opens the host field and fills it. */
  lemma {:induction false} HostRun(F: string -> HostScan, off: nat, t: string, run: string, st: HostState)
    requires IsHost(Unbounded, F, off) && run != "" && (st == RegName || st == V6)
    requires HostChar(F(t).s, run[0]) == st && F(t).s != st && F(t).host.len == 0
    requires forall i | 1 <= i < |run| :: HostChar(st, run[i]) == st
    ensures F(t + run) == F(t).(s := st, host := Slice(off + |t|, |run|))
    decreases |run|
  {
    var front, ch := run[..|run| - 1], run[|run| - 1];
    assert t + run == (t + front) + [ch];
    assert HostTurnOk(Unbounded, F, off, t + front, ch);
    if |run| == 1 {
      assert t + front == t;
    } else {
      HostRun(F, off, t, front, st);
    }
  }

  lemma ZoneMark(F: string -> HostScan, off: nat, t: string)
    requires IsHost(Unbounded, F, off) && F(t).s == V6 && F(t).host.off + F(t).host.len == off + |t|
    ensures F(t + "%") == F(t).(s := ZoneStart, host := Slice(F(t).host.off, F(t).host.len + 1))
  {
    assert HostTurnOk(Unbounded, F, off, t, '%');
  }

  lemma {:induction false} ZoneRun(F: string -> HostScan, off: nat, t: string, zone: string)
    requires IsHost(Unbounded, F, off) && zone != "" && All(IsZoneChar, zone)
    requires F(t).s == ZoneStart && F(t).host.off + F(t).host.len == off + |t|
    ensures F(t + zone) == F(t).(s := Zone, host := Slice(F(t).host.off, F(t).host.len + |zone|))
    decreases |zone|
  {
    var front, ch := zone[..|zone| - 1], zone[|zone| - 1];
    assert t + zone == (t + front) + [ch];
    assert HostTurnOk(Unbounded, F, off, t + front, ch);
    assert IsZoneChar(ch);
    if |zone| == 1 {
      assert t + front == t;
    } else {
      ZoneRun(F, off, t, front);
    }
  }

  lemma {:induction false} PortRun(F: string -> HostScan, off: nat, t: string, port: string)
    requires IsHost(Unbounded, F, off) && port != "" && Digits(port) && F(t).s == PortStart
    ensures F(t + port) == F(t).(s := Port, port := Some(Slice(off + |t|, |port|)))
    decreases |port|
  {
    var front, ch := port[..|port| - 1], port[|port| - 1];
    assert t + port == (t + front) + [ch];
    assert HostTurnOk(Unbounded, F, off, t + front, ch);
    assert IsDigit(ch);
    if |port| == 1 {
      assert t + front == t;
    } else {
      PortRun(F, off, t, front);
    }
  }

  /** The offset of the host's text inside its printed form. */
  function Inset(h: Host): nat {
    if h.Name? then 0 else 1
  }

  lemma HostPart(F: string -> HostScan, off: nat, t: string, h: Host)
    requires IsHost(Unbounded, F, off) && HostOk(h) && F(t).s == HostStart
    ensures F(t + PrintHost(h))
         == F(t).(s := if h.Name? then RegName else V6End, host := Slice(off + |t| + Inset(h), |HostText(h)|))
  {
    if h.Name? {
      NamePart(F, off, t, h.name);
    } else {
      AddressPart(F, off, t, h);
      HostSkip(F, off, t + "[" + HostText(h), ']', V6End);
      assert t + "[" + HostText(h) + "]" == t + PrintHost(h);
    }
  }

  lemma NamePart(F: string -> HostScan, off: nat, t: string, name: string)
    requires IsHost(Unbounded, F, off) && name != "" && All(IsHostChar, name) && F(t).s == HostStart
    ensures F(t + name) == F(t).(s := RegName, host := Slice(off + |t|, |name|))
  {
    forall i | 0 <= i < |name| ensures HostChar(HostStart, name[i]) == HostChar(RegName, name[i]) == RegName {
      assert IsHostChar(name[i]);
    }
    assert HostTurnOk(Unbounded, F, off, t, 'a');
    HostRun(F, off, t, name, RegName);
  }

  lemma AddressPart(F: string -> HostScan, off: nat, t: string, h: Host)
    requires IsHost(Unbounded, F, off) && h.Address? && HostOk(h) && F(t).s == HostStart
    ensures F(t + "[" + HostText(h))
         == F(t).(s := if h.zone.Some? then Zone else V6, host := Slice(off + |t| + 1, |HostText(h)|))
  {
    HostSkip(F, off, t, '[', V6Start);
    assert |PrintHost(h)| == |HostText(h)| + 2;
    if h.zone.Some? {
      ZonedPart(F, off, t + "[", h.v6, h.zone.value);
    } else {
      V6Part(F, off, t + "[", h.v6);
    }
  }

  lemma ZonedPart(F: string -> HostScan, off: nat, t: string, v6: string, zone: string)
    requires IsHost(Unbounded, F, off) && v6 != "" && All(IsV6Char, v6) && zone != "" && All(IsZoneChar, zone)
    requires F(t).s == V6Start
    ensures F(t + (v6 + "%" + zone)) == F(t).(s := Zone, host := Slice(off + |t|, |v6| + 1 + |zone|))
  {
    V6Part(F, off, t, v6);
    ZonePart(F, off, t + v6, zone);
    assert t + v6 + ("%" + zone) == t + (v6 + "%" + zone);
  }

  lemma ZonePart(F: string -> HostScan, off: nat, t: string, zone: string)
    requires IsHost(Unbounded, F, off) && zone != "" && All(IsZoneChar, zone)
    requires F(t).s == V6 && F(t).host.off + F(t).host.len == off + |t|
    ensures F(t + ("%" + zone)) == F(t).(s := Zone, host := Slice(F(t).host.off, F(t).host.len + 1 + |zone|))
  {
    ZoneMark(F, off, t);
    ZoneRun(F, off, t + "%", zone);
    assert t + "%" + zone == t + ("%" + zone);
  }

  lemma V6Part(F: string -> HostScan, off: nat, t: string, v6: string)
    requires IsHost(Unbounded, F, off) && v6 != "" && All(IsV6Char, v6) && F(t).s == V6Start
    ensures F(t + v6) == F(t).(s := V6, host := Slice(off + |t|, |v6|))
  {
    forall i | 0 <= i < |v6| ensures HostChar(V6Start, v6[i]) == HostChar(V6, v6[i]) == V6 {
      assert IsV6Char(v6[i]);
    }
    assert HostTurnOk(Unbounded, F, off, t, 'a');
    HostRun(F, off, t, v6, V6);
  }

  /** What http_parse_host finds in a printed authority that starts at off. */
  function Found(c: Components, off: nat): HostScan {
    var user := UserPart(c.userinfo);
    var host := PrintHost(c.host);
    HostScan(
      if c.port.Some? then Port else if c.host.Name? then RegName else V6End,
      if Filled(c.userinfo).Some? then Some(Slice(off, |c.userinfo.value|)) else None,
      Slice(off + |user| + Inset(c.host), |HostText(c.host)|),
      if c.port.Some? then Some(Slice(off + |user| + |host| + 1, |c.port.value|)) else None)
  }

  lemma HostOfAuthority(F: string -> HostScan, c: Components, off: nat)
    requires IsHost(Unbounded, F, off) && Ok(c)
    requires F("") == HostScan(if c.userinfo.Some? then UserinfoStart else HostStart, None, Slice(off, 0), None)
    ensures F(Authority(c)) == Found(c, off)
  {
    var user, host := UserPart(c.userinfo), PrintHost(c.host);
    UserinfoPart(F, off, c.userinfo);
    HostPart(F, off, user, c.host);
    PortPart(F, off, user + host, c.port);
  }

  lemma UserinfoPart(F: string -> HostScan, off: nat, userinfo: Option<string>)
    requires IsHost(Unbounded, F, off)
    requires userinfo.Some? ==> All(IsUserinfoChar, userinfo.value)
    requires F("") == HostScan(if userinfo.Some? then UserinfoStart else HostStart, None, Slice(off, 0), None)
    ensures var slice := if Filled(userinfo).Some? then Some(Slice(off, |userinfo.value|)) else None;
            F(UserPart(userinfo)) == HostScan(HostStart, slice, Slice(off, 0), None)
  {
    if userinfo.Some? {
      if userinfo.value != "" { UserinfoRun(F, off, "", userinfo.value); }
      assert "" + userinfo.value == userinfo.value;
      HostSkip(F, off, userinfo.value, '@', HostStart);
    }
  }

  lemma PortPart(F: string -> HostScan, off: nat, t: string, port: Option<string>)
    requires IsHost(Unbounded, F, off)
    requires (port.Some? ==> PortOk(port.value)) && (F(t).s == RegName || F(t).s == V6End)
    ensures F(t + Before(port, ':'))
         == if port.None? then F(t) else F(t).(s := Port, port := Some(Slice(off + |t| + 1, |port.value|)))
  {
    if port.Some? {
      HostSkip(F, off, t, ':', PortStart);
      PortRun(F, off, t + ":", port.value);
      assert t + ":" + port.value == t + Before(port, ':');
    } else {
      assert t + Before(port, ':') == t;
    }
  }

  // ---------------------------------------------------------------- the printed URL

  lemma HostIsPlain(h: Host)
    requires HostOk(h)
    ensures PrintHost(h) != "" && All(IsPlainAuthChar, PrintHost(h))
  {
    var text := PrintHost(h);
    if h.Name? {
      forall i | 0 <= i < |text| ensures IsPlainAuthChar(text[i]) { assert IsHostChar(h.name[i]); }
    } else {
      HostTextIsPlain(h);
      forall i | 0 <= i < |text| ensures IsPlainAuthChar(text[i]) {
        if 0 < i < |text| - 1 { assert text[i] == HostText(h)[i - 1]; }
      }
    }
  }

  lemma HostTextIsPlain(h: Host)
    requires HostOk(h) && h.Address?
    ensures All(IsPlainAuthChar, HostText(h))
  {
    var text := HostText(h);
    forall i | 0 <= i < |text| ensures IsPlainAuthChar(text[i]) {
      if i < |h.v6| {
        assert IsV6Char(h.v6[i]);
      } else if i > |h.v6| {
        assert IsZoneChar(h.zone.value[i - |h.v6| - 1]);
      }
    }
  }

  lemma RestIsPlain(c: Components)
    requires Ok(c)
    ensures All(IsPlainAuthChar, PrintHost(c.host) + Before(c.port, ':'))
  {
    HostIsPlain(c.host);
    var host, rest := PrintHost(c.host), PrintHost(c.host) + Before(c.port, ':');
    forall i | 0 <= i < |rest| ensures IsPlainAuthChar(rest[i]) {
      if i < |host| {
        assert rest[i] == host[i];
      } else if i > |host| {
        assert IsDigit(c.port.value[i - |host| - 1]);
      }
    }
  }

  /** scheme "://" */
  lemma ScanScheme(G: string -> Scan, scheme: string)
    requires IsScan(Unbounded, G) && scheme != "" && All(IsAlpha, scheme)
    requires G("") == Scan(BeforeUrl, None, false, map[])
    ensures G(scheme + "://") == Scan(ServerStart, Some(UfSchema), false, map[UfSchema := Slice(0, |scheme|)])
  {
    forall i | 0 <= i < |scheme| ensures UrlChar(BeforeUrl, scheme[i]) == UrlChar(Schema, scheme[i]) == Schema {
      assert IsAlpha(scheme[i]);
    }
    ScanRun(G, "", scheme, Schema, UfSchema);
    assert "" + scheme == scheme;
    ScanSkip(G, scheme, ':', SchemaSlash);
    ScanSkip(G, scheme + ":", '/', SchemaSlashSlash);
    ScanSkip(G, scheme + ":" + "/", '/', ServerStart);
    assert scheme + ":" + "/" + "/" == scheme + "://";
  }

  lemma ScanPath(G: string -> Scan, s: string, path: string)
    requires IsScan(Unbounded, G) && path != "" && All(IsUrlChar, path)
    requires UrlChar(G(s).s, path[0]) == Path && G(s).last != Some(UfPath)
    ensures G(s + path) == Scan(Path, Some(UfPath), G(s).foundAt, G(s).fields[UfPath := Slice(|s|, |path|)])
  {
    forall i | 1 <= i < |path| ensures UrlChar(Path, path[i]) == Path { assert IsUrlChar(path[i]); }
    ScanRun(G, s, path, Path, UfPath);
  }

  lemma ScanQuery(G: string -> Scan, s: string, query: string)
    requires IsScan(Unbounded, G) && All(IsQueryChar, query) && (G(s).s == Server || G(s).s == Path)
    requires G(s).last != Some(UfQuery)
    ensures var sc := G(s + (['?'] + query));
            && sc.s == (if query == "" then QueryStart else Query) && sc.foundAt == G(s).foundAt
            && sc.last == (if query == "" then G(s).last else Some(UfQuery))
            && sc.fields == Set(G(s).fields, UfQuery, |s| + 1, Filled(Some(query)))
  {
    forall i | 0 <= i < |query| ensures UrlChar(QueryStart, query[i]) == UrlChar(Query, query[i]) == Query {
      assert IsQueryChar(query[i]);
    }
    ScanSkip(G, s, '?', QueryStart);
    assert s + ['?'] + query == s + (['?'] + query);
    if query == "" {
      assert s + ['?'] + query == s + ['?'];
    } else {
      ScanRun(G, s + ['?'], query, Query, UfQuery);
    }
  }

  /** Number signs after the first are skipped. */
  lemma {:induction false} ScanHashes(G: string -> Scan, s: string, hashes: string)
    requires IsScan(Unbounded, G) && G(s).s == FragmentStart && forall i | 0 <= i < |hashes| :: hashes[i] == '#'
    ensures G(s + hashes) == G(s)
    decreases |hashes|
  {
    if hashes == "" {
      assert s + hashes == s;
    } else {
      var front := hashes[..|hashes| - 1];
      ScanHashes(G, s, front);
      ScanSkip(G, s + front, '#', FragmentStart);
      assert s + front + ['#'] == s + hashes;
    }
  }

  lemma ScanFragmentText(G: string -> Scan, s: string, text: string)
    requires IsScan(Unbounded, G) && text != "" && text[0] != '#' && All(IsFragmentChar, text)
    requires G(s).s == FragmentStart && G(s).last != Some(UfFragment)
    ensures G(s + text) == Scan(Fragment, Some(UfFragment), G(s).foundAt, G(s).fields[UfFragment := Slice(|s|, |text|)])
  {
    forall i | 0 <= i < |text| ensures UrlChar(Fragment, text[i]) == Fragment { assert IsFragmentChar(text[i]); }
    assert IsFragmentChar(text[0]);
    ScanRun(G, s, text, Fragment, UfFragment);
  }

  lemma ScanFragment(G: string -> Scan, s: string, frag: string)
    requires IsScan(Unbounded, G) && All(IsFragmentChar, frag) && UrlChar(G(s).s, '#') == FragmentStart
    requires G(s).last != Some(UfFragment)
    ensures var sc := G(s + (['#'] + frag));
            && sc.s != Dead && sc.foundAt == G(s).foundAt
            && sc.fields == Set(G(s).fields, UfFragment, |s| + 1 + Hashes(frag), FragmentText(Some(frag)))
  {
    var n := Hashes(frag);
    var s1, s2 := s + ['#'], s + ['#'] + frag[..n];
    ScanSkip(G, s, '#', FragmentStart);
    ScanHashes(G, s1, frag[..n]);
    assert s2 + frag[n..] == s + (['#'] + frag);
    if n < |frag| {
      forall i | 0 <= i < |frag[n..]| ensures IsFragmentChar(frag[n..][i]) { assert IsFragmentChar(frag[n + i]); }
      ScanFragmentText(G, s2, frag[n..]);
    } else {
      assert s2 + frag[n..] == s2;
    }
  }

  /** fields with f set to the slice that starts at off, if the component is there. */
  function Set(fields: map<Field, Slice>, f: Field, off: nat, part: Option<string>): map<Field, Slice> {
    if part.Some? then fields[f := Slice(off, |part.value|)] else fields
  }

  function PathOption(c: Components): Option<string> {
    if c.path == "" then None else Some(c.path)
  }

  /** Where the authority of the printed URL starts and ends. */
  function AuthStart(c: Components): nat {
    |c.scheme| + 3
  }

  function AuthEnd(c: Components): nat {
    AuthStart(c) + |Authority(c)|
  }

  /** What the first loop records: the authority as one host field. */
  function Scanned(c: Components): map<Field, Slice> {
    var m1 := Set(Origin(c), UfPath, AuthEnd(c), PathOption(c));
    var m2 := Set(m1, UfQuery, AuthEnd(c) + |c.path| + 1, Filled(c.query));
    var start := AuthEnd(c) + |c.path| + |Before(c.query, '?')| + 1;
    Set(m2, UfFragment, start + FragmentSkip(c.fragment), FragmentText(c.fragment))
  }

  /** What the first loop records of scheme and authority. */
  function Origin(c: Components): map<Field, Slice> {
    map[UfSchema := Slice(0, |c.scheme|), UfHost := Slice(AuthStart(c), |Authority(c)|)]
  }

  lemma ScanOrigin(G: string -> Scan, c: Components)
    requires IsScan(Unbounded, G) && Ok(c) && G("") == Scan(BeforeUrl, None, false, map[])
    ensures G(c.scheme + "://" + Authority(c)) == Scan(Server, Some(UfHost), c.userinfo.Some?, Origin(c))
  {
    var rest := PrintHost(c.host) + Before(c.port, ':');
    ScanScheme(G, c.scheme);
    HostIsPlain(c.host);
    RestIsPlain(c);
    assert Authority(c) == UserPart(c.userinfo) + rest;
    ScanAuthority(G, c.scheme + "://", c.userinfo, rest);
  }

  lemma ScanUpToPath(G: string -> Scan, c: Components)
    requires IsScan(Unbounded, G) && Ok(c) && G("") == Scan(BeforeUrl, None, false, map[])
    ensures var s := if c.path == "" then Server else Path;
            G(c.scheme + "://" + Authority(c) + c.path)
            == Scan(s, FieldOf(s), c.userinfo.Some?, Set(Origin(c), UfPath, AuthEnd(c), PathOption(c)))
  {
    var s2 := c.scheme + "://" + Authority(c);
    ScanOrigin(G, c);
    if c.path == "" {
      assert s2 + c.path == s2;
    } else {
      ScanPath(G, s2, c.path);
    }
  }

  /** Query and fragment after a path or an authority. */
  lemma ScanTail(G: string -> Scan, s: string, path: string, query: Option<string>, fragment: Option<string>)
    requires IsScan(Unbounded, G) && TailOk(path, query, fragment)
    requires G(s).s == (if path == "" then Server else Path) && G(s).last == FieldOf(G(s).s)
    ensures var sc := G(s + Before(query, '?') + Before(fragment, '#'));
            var fields := Set(G(s).fields, UfQuery, |s| + 1, Filled(query));
            var start := |s + Before(query, '?')| + 1;
            && sc.s != Dead && sc.foundAt == G(s).foundAt
            && sc.fields == Set(fields, UfFragment, start + FragmentSkip(fragment), FragmentText(fragment))
  {
    var s' := s + Before(query, '?');
    if query.Some? {
      ScanQuery(G, s, query.value);
    } else {
      assert s' == s;
    }
    ScanTailFragment(G, s', fragment);
  }

  lemma ScanTailFragment(G: string -> Scan, s: string, fragment: Option<string>)
    requires IsScan(Unbounded, G) && G(s).s != Dead && G(s).last != Some(UfFragment)
    requires fragment.Some? ==> All(IsFragmentChar, fragment.value) && UrlChar(G(s).s, '#') == FragmentStart
    ensures var sc := G(s + Before(fragment, '#'));
            && sc.s != Dead && sc.foundAt == G(s).foundAt
            && sc.fields == Set(G(s).fields, UfFragment, |s| + 1 + FragmentSkip(fragment), FragmentText(fragment))
  {
    if fragment.Some? {
      ScanFragment(G, s, fragment.value);
    } else {
      assert s + Before(fragment, '#') == s && FragmentText(fragment) == None;
      assert Set(G(s).fields, UfFragment, |s| + 1, None) == G(s).fields;
    }
  }

  lemma ScanPrinted(G: string -> Scan, c: Components)
    requires IsScan(Unbounded, G) && Ok(c) && G("") == Scan(BeforeUrl, None, false, map[])
    ensures var sc := G(Print(c)); sc.s != Dead && sc.foundAt == c.userinfo.Some? && sc.fields == Scanned(c)
  {
    ScanUpToPath(G, c);
    ScanTail(G, c.scheme + "://" + Authority(c) + c.path, c.path, c.query, c.fragment);
  }

  /** The fields of the printed URL, each at the place where printing put its component. */
  function Expected(c: Components): map<Field, Slice> {
    WithHost(Scanned(c), Found(c, AuthStart(c)))
  }

  lemma AuthorityText(c: Components)
    ensures AuthEnd(c) <= |Print(c)| && Print(c)[AuthStart(c)..AuthEnd(c)] == Authority(c)
  {
  }

  lemma HostPrinted(c: Components, sc: Scan)
    requires Ok(c) && sc.fields == Scanned(c) && sc.foundAt == c.userinfo.Some?
    requires forall f | f in sc.fields :: Ends(sc.fields[f], |Print(c)|)
    ensures HostFields(Unbounded, Print(c), sc) == Some(Expected(c))
  {
    var off := AuthStart(c);
    assert SliceText(Print(c), sc.fields[UfHost]) == Authority(c) by { AuthorityText(c); }
    assert HostAll(Unbounded, sc.foundAt, off, Authority(c)) == Found(c, off) by {
      HostAllIsHost(Unbounded, sc.foundAt, off);
      HostOfAuthority((t: string) => HostAll(Unbounded, sc.foundAt, off, t), c, off);
    }
  }

  // ---------------------------------------------------------------- the slices hold the components

  /** The text of each component. */
  function Component(c: Components, f: Field): Option<string> {
    match f
    case UfSchema => Some(c.scheme)
    case UfUserinfo => Filled(c.userinfo)
    case UfHost => Some(HostText(c.host))
    case UfPort => c.port
    case UfPath => PathOption(c)
    case UfQuery => Filled(c.query)
    case UfFragment => FragmentText(c.fragment)
  }

  /** Where printing puts it. */
  function Place(c: Components, f: Field): nat {
    match f
    case UfSchema => 0
    case UfUserinfo => AuthStart(c)
    case UfHost => AuthStart(c) + |UserPart(c.userinfo)| + Inset(c.host)
    case UfPort => AuthStart(c) + |UserPart(c.userinfo)| + |PrintHost(c.host)| + 1
    case UfPath => AuthEnd(c)
    case UfQuery => AuthEnd(c) + |c.path| + 1
    case UfFragment => AuthEnd(c) + |c.path| + |Before(c.query, '?')| + 1 + FragmentSkip(c.fragment)
  }

  lemma ExpectedPlaces(c: Components, f: Field)
    ensures f in Expected(c) <==> Component(c, f).Some?
    ensures f in Expected(c) ==> Expected(c)[f] == Slice(Place(c, f), |Component(c, f).value|)
  {
  }

  /** The text at offset off of s is exactly text. */
  predicate Holds(s: string, off: nat, text: string) {
    off + |text| <= |s| && s[off..off + |text|] == text
  }

  lemma HoldsMiddle(a: string, b: string, d: string)
    ensures Holds(a + b + d, |a|, b)
  {
  }

  lemma HoldsInner(s: string, off: nat, text: string, i: nat, inner: string)
    requires Holds(s, off, text) && Holds(text, i, inner)
    ensures Holds(s, off + i, inner)
  {
    var slice := s[off + i..off + i + |inner|];
    forall j | 0 <= j < |inner| ensures slice[j] == inner[j] {
      assert s[off..off + |text|][i + j] == s[off + i + j];
      assert text[i..i + |inner|][j] == text[i + j];
    }
  }

  lemma HoldsWithin(a: string, b: string, d: string, i: nat, text: string)
    requires Holds(b, i, text)
    ensures Holds(a + b + d, |a| + i, text)
  {
    HoldsMiddle(a, b, d);
    HoldsInner(a + b + d, |a|, b, i, text);
  }

  // The printed URL is s + (u + h + p) + t + q + f: scheme with "://", userinfo, host, port, path, query, fragment.

  lemma CutUser(s: string, u: string, h: string, p: string, t: string, q: string, f: string)
    ensures s + (u + h + p) + t + q + f == s + u + (h + p + t + q + f)
  {
  }

  lemma CutHost(s: string, u: string, h: string, p: string, t: string, q: string, f: string)
    ensures s + (u + h + p) + t + q + f == (s + u) + h + (p + t + q + f)
  {
  }

  lemma CutPort(s: string, u: string, h: string, p: string, t: string, q: string, f: string)
    ensures s + (u + h + p) + t + q + f == (s + u + h) + p + (t + q + f)
  {
  }

  lemma CutPath(s: string, t: string, q: string, f: string)
    ensures s + t + q + f == s + t + (q + f)
  {
  }

  lemma SchemePlaced(c: Components)
    ensures Holds(Print(c), 0, c.scheme)
  {
    var rest := "://" + Authority(c) + c.path + Before(c.query, '?') + Before(c.fragment, '#');
    assert Print(c) == c.scheme + rest;
    assert (c.scheme + rest)[0..|c.scheme|] == c.scheme;
  }

  lemma UserinfoPlaced(c: Components)
    requires c.userinfo.Some?
    ensures Holds(Print(c), Place(c, UfUserinfo), c.userinfo.value)
  {
    var s, u, h, p := c.scheme + "://", UserPart(c.userinfo), PrintHost(c.host), Before(c.port, ':');
    var t, q, f := c.path, Before(c.query, '?'), Before(c.fragment, '#');
    CutUser(s, u, h, p, t, q, f);
    HoldsWithin(s, u, h + p + t + q + f, 0, c.userinfo.value);
  }

  lemma HostPlaced(c: Components)
    ensures Holds(Print(c), Place(c, UfHost), HostText(c.host))
  {
    var s, u, h, p := c.scheme + "://", UserPart(c.userinfo), PrintHost(c.host), Before(c.port, ':');
    var t, q, f := c.path, Before(c.query, '?'), Before(c.fragment, '#');
    CutHost(s, u, h, p, t, q, f);
    PrintHostHolds(c.host);
    HoldsWithin(s + u, h, p + t + q + f, Inset(c.host), HostText(c.host));
  }

  lemma PortPlaced(c: Components)
    requires c.port.Some?
    ensures Holds(Print(c), Place(c, UfPort), c.port.value)
  {
    var s, u, h, p := c.scheme + "://", UserPart(c.userinfo), PrintHost(c.host), Before(c.port, ':');
    var t, q, f := c.path, Before(c.query, '?'), Before(c.fragment, '#');
    CutPort(s, u, h, p, t, q, f);
    HoldsWithin(s + u + h, p, t + q + f, 1, c.port.value);
  }

  lemma PathPlaced(c: Components)
    ensures Holds(Print(c), Place(c, UfPath), c.path)
  {
    var s, q, f := c.scheme + "://" + Authority(c), Before(c.query, '?'), Before(c.fragment, '#');
    CutPath(s, c.path, q, f);
    HoldsMiddle(s, c.path, q + f);
  }

  lemma QueryPlaced(c: Components)
    requires c.query.Some?
    ensures Holds(Print(c), Place(c, UfQuery), c.query.value)
  {
    var s, q, f := c.scheme + "://" + Authority(c) + c.path, Before(c.query, '?'), Before(c.fragment, '#');
    HoldsWithin(s, q, f, 1, c.query.value);
  }

  lemma FragmentPlaced(c: Components)
    requires c.fragment.Some?
    ensures Holds(Print(c), Place(c, UfFragment), c.fragment.value[Hashes(c.fragment.value)..])
  {
    var s, f := c.scheme + "://" + Authority(c) + c.path + Before(c.query, '?'), Before(c.fragment, '#');
    FragmentHolds(c.fragment.value);
    HoldsWithin(s, f, "", 1 + Hashes(c.fragment.value), c.fragment.value[Hashes(c.fragment.value)..]);
    assert s + f + "" == Print(c);
  }

  lemma FragmentHolds(frag: string)
    ensures Holds(['#'] + frag, 1 + Hashes(frag), frag[Hashes(frag)..])
  {
    var n := Hashes(frag);
    assert (['#'] + frag)[1 + n..|['#'] + frag|] == frag[n..];
  }

  lemma PlaceHolds(c: Components, f: Field)
    requires Component(c, f).Some?
    ensures Holds(Print(c), Place(c, f), Component(c, f).value)
  {
    match f
    case UfSchema => SchemePlaced(c);
    case UfUserinfo => UserinfoPlaced(c);
    case UfHost => HostPlaced(c);
    case UfPort => PortPlaced(c);
    case UfPath => PathPlaced(c);
    case UfQuery => QueryPlaced(c);
    case UfFragment => FragmentPlaced(c);
  }

  /** Every set field's slice holds its component's text. */
  lemma ExpectedHolds(c: Components, f: Field)
    requires Component(c, f).Some?
    ensures f in Expected(c) && Ends(Expected(c)[f], |Print(c)|)
    ensures SliceText(Print(c), Expected(c)[f]) == Component(c, f).value
  {
    ExpectedPlaces(c, f);
    PlaceHolds(c, f);
  }

  lemma TrueParsePrint(c: Components)
    requires Ok(c)
    ensures TrueParse(Print(c), false) == Some(Url(if c.port.Some? then Decimal(c.port.value) else 0, Expected(c)))
  {
    ScanAllIsScan(Unbounded, false);
    ScanPrinted((t: string) => ScanAll(Unbounded, false, t), c);
    var sc := ScanAll(Unbounded, false, Print(c));
    HostPrinted(c, sc);
    PortPrinted(c, Print(c), Expected(c));
  }

  lemma PortPrinted(c: Components, buf: string, fields: map<Field, Slice>)
    requires Ok(c) && buf == Print(c) && fields == Expected(c)
    requires forall f | f in fields :: Ends(fields[f], |buf|)
    ensures Finish(buf, false, fields) == Some(Url(if c.port.Some? then Decimal(c.port.value) else 0, fields))
  {
    ExpectedPlaces(c, UfPort);
    if c.port.Some? {
      ExpectedHolds(c, UfPort);
      PortLoopIsDecimal(c.port.value);
    }
  }

  /** Field f is set exactly if part is there, and then its slice holds part. */
  predicate Has(buf: string, fields: map<Field, Slice>, f: Field, part: Option<string>) {
    if part.Some? then f in fields && Ends(fields[f], |buf|) && SliceText(buf, fields[f]) == part.value
    else f !in fields
  }

  predicate ComponentFits(c: Components, f: Field) {
    Component(c, f).Some? ==> Small(Slice(Place(c, f), |Component(c, f).value|))
  }

  /** Every component of the printed URL, and its authority as a whole, lies and is long below 65536. */
  ghost predicate PrintFits(c: Components) {
    Small(Slice(AuthStart(c), |Authority(c)|)) && forall f: Field :: ComponentFits(c, f)
  }

  lemma ExpectedFits(c: Components)
    ensures AllSmall(Expected(c)) <==> forall f: Field :: ComponentFits(c, f)
  {
    forall f: Field ensures ComponentFits(c, f) <==> (f in Expected(c) ==> Small(Expected(c)[f])) {
      ExpectedPlaces(c, f);
    }
    if forall f: Field :: ComponentFits(c, f) {
      forall f | f in Expected(c) ensures Small(Expected(c)[f]) { assert ComponentFits(c, f); }
    }
  }

  /** The first loop's slices but for the authority are those of the result. */
  lemma ScannedFits(c: Components)
    ensures AllSmall(Expected(c)) && Small(Slice(AuthStart(c), |Authority(c)|)) <==>
            AllSmall(Expected(c)) && AllSmall(Scanned(c))
  {
    if AllSmall(Expected(c)) && Small(Slice(AuthStart(c), |Authority(c)|)) {
      assert UfUserinfo !in Scanned(c) && UfPort !in Scanned(c);
      assert Scanned(c)[UfHost] == Slice(AuthStart(c), |Authority(c)|);
      OthersSmall(Scanned(c), Found(c, AuthStart(c)));
    }
    if AllSmall(Scanned(c)) {
      assert Scanned(c)[UfHost] == Slice(AuthStart(c), |Authority(c)|);
    }
  }

  lemma FitsPrinted(c: Components)
    requires Ok(c)
    ensures Fits(Print(c), false) <==> PrintFits(c)
  {
    ScanAllIsScan(Unbounded, false);
    ScanPrinted((t: string) => ScanAll(Unbounded, false, t), c);
    HostPrinted(c, ScanAll(Unbounded, false, Print(c)));
    assert FieldsAt(Unbounded, Print(c), false) == Some(Expected(c));
    ExpectedFits(c);
    ScannedFits(c);
  }

  /**
    Parsing undoes printing: a URL printed from well-formed components is parsed to exactly the slices where printing
    put them if and only if all of them fit 16 bits. Then the fields set are exactly the components that are there, each
    slice holds its component, and `port` is the decimal value.
  */
  lemma ParsePrint(c: Components)
    requires Ok(c)
    ensures var port := if c.port.Some? then Decimal(c.port.value) else 0;
            && (Parse(Print(c), false) == Some(Url(port, Expected(c))) <==> PrintFits(c))
            && forall f: Field :: Has(Print(c), Expected(c), f, Component(c, f))
  {
    TrueParsePrint(c);
    ParseExact(Print(c), false);
    FitsPrinted(c);
    forall f: Field ensures Has(Print(c), Expected(c), f, Component(c, f)) {
      ExpectedPlaces(c, f);
      if Component(c, f).Some? { ExpectedHolds(c, f); }
    }
  }

  // ---------------------------------------------------------------- origin form and CONNECT

  /** A request target without scheme and authority: a path, or "*", with query and fragment. */
  datatype Target = Target(path: string, query: Option<string>, fragment: Option<string>)

  predicate TargetOk(t: Target) {
    && t.path != "" && (t.path[0] == '/' || t.path[0] == '*') && All(IsUrlChar, t.path)
    && TailOk(t.path, t.query, t.fragment)
  }

  function PrintTarget(t: Target): string {
    t.path + Before(t.query, '?') + Before(t.fragment, '#')
  }

  function TargetFields(t: Target): map<Field, Slice> {
    var fields := Set(map[UfPath := Slice(0, |t.path|)], UfQuery, |t.path| + 1, Filled(t.query));
    var start := |t.path| + |Before(t.query, '?')| + 1;
    Set(fields, UfFragment, start + FragmentSkip(t.fragment), FragmentText(t.fragment))
  }

  function TargetPart(t: Target, f: Field): Option<string> {
    match f
    case UfPath => Some(t.path)
    case UfQuery => Filled(t.query)
    case UfFragment => FragmentText(t.fragment)
    case _ => None
  }

  lemma ScanTarget(G: string -> Scan, t: Target)
    requires IsScan(Unbounded, G) && TargetOk(t) && G("") == Scan(BeforeUrl, None, false, map[])
    ensures var sc := G(PrintTarget(t)); sc.s != Dead && sc.fields == TargetFields(t)
  {
    ScanPath(G, "", t.path);
    assert "" + t.path == t.path;
    ScanTail(G, t.path, t.path, t.query, t.fragment);
  }

  lemma LastHoldsWithin(a: string, b: string, i: nat, text: string)
    requires Holds(b, i, text)
    ensures Holds(a + b, |a| + i, text)
  {
    HoldsWithin(a, b, "", i, text);
    assert a + b + "" == a + b;
  }

  lemma TargetSlices(t: Target, f: Field)
    ensures f in TargetFields(t) <==> TargetPart(t, f).Some?
    ensures f in TargetFields(t) ==> TargetFields(t)[f] == Slice(TargetPlace(t, f), |TargetPart(t, f).value|)
  {
  }

  function TargetPlace(t: Target, f: Field): nat {
    match f
    case UfQuery => |t.path| + 1
    case UfFragment => |t.path| + |Before(t.query, '?')| + 1 + FragmentSkip(t.fragment)
    case _ => 0
  }

  lemma TargetPathHolds(t: Target)
    ensures Holds(PrintTarget(t), 0, t.path)
  {
    var query, frag := Before(t.query, '?'), Before(t.fragment, '#');
    FirstHolds(t.path, query + frag, 0, t.path);
    assert t.path + (query + frag) == PrintTarget(t);
  }

  lemma TargetQueryHolds(t: Target)
    requires t.query.Some?
    ensures Holds(PrintTarget(t), |t.path| + 1, t.query.value)
  {
    LastHolds(t.path, "?", t.query.value);
    FirstHolds(t.path + Before(t.query, '?'), Before(t.fragment, '#'), |t.path| + 1, t.query.value);
  }

  lemma TargetFragmentHolds(t: Target)
    requires t.fragment.Some?
    ensures Holds(PrintTarget(t), TargetPlace(t, UfFragment), t.fragment.value[Hashes(t.fragment.value)..])
  {
    var text := t.fragment.value[Hashes(t.fragment.value)..];
    FragmentHolds(t.fragment.value);
    LastHoldsWithin(t.path + Before(t.query, '?'), Before(t.fragment, '#'), 1 + Hashes(t.fragment.value), text);
  }

  lemma TargetPlaceHolds(t: Target, f: Field)
    requires TargetPart(t, f).Some?
    ensures Holds(PrintTarget(t), TargetPlace(t, f), TargetPart(t, f).value)
  {
    match f
    case UfPath => TargetPathHolds(t);
    case UfQuery => TargetQueryHolds(t);
    case UfFragment => TargetFragmentHolds(t);
  }

  lemma TargetHolds(t: Target, f: Field)
    ensures Has(PrintTarget(t), TargetFields(t), f, TargetPart(t, f))
  {
    TargetSlices(t, f);
    if TargetPart(t, f).Some? { TargetPlaceHolds(t, f); }
  }

  lemma TargetParsed(t: Target)
    requires TargetOk(t)
    ensures ScanAll(Unbounded, false, PrintTarget(t)).fields == TargetFields(t)
    ensures FieldsAt(Unbounded, PrintTarget(t), false) == Some(TargetFields(t))
    ensures TrueParse(PrintTarget(t), false) == Some(Url(0, TargetFields(t)))
  {
    ScanAllIsScan(Unbounded, false);
    ScanTarget((t: string) => ScanAll(Unbounded, false, t), t);
  }

  /** Whatever its length, the origin form is accepted and its parts recorded modulo 65536. */
  lemma TargetWraps(t: Target)
    requires TargetOk(t)
    ensures Parse(PrintTarget(t), false) == Some(Url(0, WrapAll(TargetFields(t))))
  {
    TargetParsed(t);
    FieldsWrap(PrintTarget(t), false);
  }

  /** The same for the origin form: parsed to its parts if and only if they fit. */
  lemma ParsePrintTarget(t: Target)
    requires TargetOk(t)
    ensures Parse(PrintTarget(t), false) == Some(Url(0, TargetFields(t))) <==> AllSmall(TargetFields(t))
    ensures forall f: Field :: Has(PrintTarget(t), TargetFields(t), f, TargetPart(t, f))
  {
    TargetParsed(t);
    ParseExact(PrintTarget(t), false);
    forall f: Field ensures Has(PrintTarget(t), TargetFields(t), f, TargetPart(t, f)) { TargetHolds(t, f); }
  }

  lemma PrintHostHolds(h: Host)
    ensures Holds(PrintHost(h), Inset(h), HostText(h))
  {
    if h.Address? { HoldsMiddle("[", HostText(h), "]"); }
  }

  lemma FirstHolds(a: string, b: string, i: nat, text: string)
    requires Holds(a, i, text)
    ensures Holds(a + b, i, text)
  {
    HoldsWithin("", a, b, i, text);
    assert "" + a + b == a + b;
  }

  lemma LastHolds(a: string, sep: string, b: string)
    ensures Holds(a + (sep + b), |a| + |sep|, b)
  {
    HoldsMiddle(a + sep, b, "");
    assert a + sep + b + "" == a + (sep + b);
  }

  /** What CONNECT takes: host and port, with delimiters of empty parts. */
  datatype Tunnel = Tunnel(userinfo: Option<string>, host: Host, port: string, query: Option<string>, fragment: Option<string>)

  predicate TunnelOk(t: Tunnel) {
    && HostOk(t.host) && PortOk(t.port) && TailOk("", t.query, t.fragment)
    && Filled(t.userinfo).None? && Filled(t.query).None? && FragmentText(t.fragment).None?
  }

  function TunnelAuthority(t: Tunnel): string {
    UserPart(t.userinfo) + PrintHost(t.host) + Before(Some(t.port), ':')
  }

  function PrintTunnel(t: Tunnel): string {
    TunnelAuthority(t) + Before(t.query, '?') + Before(t.fragment, '#')
  }

  function TunnelFields(t: Tunnel): map<Field, Slice> {
    var start := |UserPart(t.userinfo)|;
    map[UfHost := Slice(start + Inset(t.host), |HostText(t.host)|), UfPort := Slice(start + |PrintHost(t.host)| + 1, |t.port|)]
  }

  /** A URL with the same authority */
  function WithScheme(t: Tunnel): Components {
    Components("a", t.userinfo, t.host, Some(t.port), "", None, None)
  }

  lemma ScanTunnel(G: string -> Scan, t: Tunnel)
    requires IsScan(Unbounded, G) && TunnelOk(t) && G("") == Scan(ServerStart, None, false, map[])
    ensures var sc := G(PrintTunnel(t));
            && sc.s != Dead && sc.foundAt == t.userinfo.Some?
            && sc.fields == map[UfHost := Slice(0, |TunnelAuthority(t)|)]
  {
    ScanTunnelAuthority(G, t, PrintHost(t.host) + Before(Some(t.port), ':'), TunnelAuthority(t));
    ScanTunnelTail(G, TunnelAuthority(t), t);
  }

  lemma ScanTunnelAuthority(G: string -> Scan, t: Tunnel, rest: string, auth: string)
    requires IsScan(Unbounded, G) && TunnelOk(t) && G("") == Scan(ServerStart, None, false, map[])
    requires rest == PrintHost(t.host) + Before(Some(t.port), ':') && auth == TunnelAuthority(t)
    ensures G(auth) == Scan(Server, Some(UfHost), t.userinfo.Some?, map[UfHost := Slice(0, |auth|)])
  {
    TunnelPlain(t, rest);
    TunnelRegroup(UserPart(t.userinfo), PrintHost(t.host), Before(Some(t.port), ':'));
    ScanAuthority(G, "", t.userinfo, rest);
  }

  lemma TunnelRegroup(u: string, h: string, p: string)
    ensures "" + (u + (h + p)) == u + h + p && u + (h + p) == u + h + p
  {
  }

  lemma TunnelPlain(t: Tunnel, rest: string)
    requires TunnelOk(t) && rest == PrintHost(t.host) + Before(Some(t.port), ':')
    ensures rest != "" && All(IsPlainAuthChar, rest)
  {
    WithSchemeOk(t);
    HostIsPlain(t.host);
    RestIsPlain(WithScheme(t));
  }

  lemma WithSchemeOk(t: Tunnel)
    requires TunnelOk(t)
    ensures Ok(WithScheme(t))
  {
    assert All(IsAlpha, "a");
    if t.userinfo.Some? { assert t.userinfo.value == ""; }
  }

  lemma ScanTunnelTail(G: string -> Scan, auth: string, t: Tunnel)
    requires IsScan(Unbounded, G) && TunnelOk(t)
    requires G(auth) == Scan(Server, Some(UfHost), t.userinfo.Some?, map[UfHost := Slice(0, |auth|)])
    ensures var sc := G(auth + Before(t.query, '?') + Before(t.fragment, '#'));
            sc.s != Dead && sc.foundAt == t.userinfo.Some? && sc.fields == map[UfHost := Slice(0, |auth|)]
  {
    ScanTail(G, auth, "", t.query, t.fragment);
  }

  lemma TunnelText(t: Tunnel)
    ensures SliceText(PrintTunnel(t), Slice(0, |TunnelAuthority(t)|)) == TunnelAuthority(t)
  {
  }

  lemma HostFieldsTunnel(t: Tunnel, sc: Scan)
    requires TunnelOk(t) && sc.foundAt == t.userinfo.Some? && sc.fields == map[UfHost := Slice(0, |TunnelAuthority(t)|)]
    ensures HostFields(Unbounded, PrintTunnel(t), sc) == Some(TunnelFields(t))
  {
    var auth := TunnelAuthority(t);
    TunnelText(t);
    TunnelFound(t);
    WithSchemeOk(t);
    assert HostAll(Unbounded, sc.foundAt, 0, auth) == Found(WithScheme(t), 0) by {
      HostAllIsHost(Unbounded, sc.foundAt, 0);
      HostOfAuthority((u: string) => HostAll(Unbounded, sc.foundAt, 0, u), WithScheme(t), 0);
    }
    TunnelFound(t);
  }

  lemma TunnelFound(t: Tunnel)
    requires TunnelOk(t)
    ensures WithHost(map[UfHost := Slice(0, |TunnelAuthority(t)|)], Found(WithScheme(t), 0)) == TunnelFields(t)
    ensures Found(WithScheme(t), 0).s == Port && Authority(WithScheme(t)) == TunnelAuthority(t)
  {
    var start := |UserPart(t.userinfo)|;
    var host, port := Slice(start + Inset(t.host), |HostText(t.host)|), Slice(start + |PrintHost(t.host)| + 1, |t.port|);
    assert Found(WithScheme(t), 0) == HostScan(Port, None, host, Some(port));
    HostAndPort(Slice(0, |TunnelAuthority(t)|), host, port);
  }

  lemma HostAndPort(whole: Slice, host: Slice, port: Slice)
    ensures WithHost(map[UfHost := whole], HostScan(Port, None, host, Some(port))) == map[UfHost := host, UfPort := port]
  {
  }

  lemma TunnelHolds(t: Tunnel)
    ensures var start := |UserPart(t.userinfo)|;
            && Holds(PrintTunnel(t), start + Inset(t.host), HostText(t.host))
            && Holds(PrintTunnel(t), start + |PrintHost(t.host)| + 1, t.port)
  {
    var u, h, p := UserPart(t.userinfo), PrintHost(t.host), Before(Some(t.port), ':');
    var q, f := Before(t.query, '?'), Before(t.fragment, '#');
    PrintHostHolds(t.host);
    TunnelHostHolds(u, h, p, q, f, Inset(t.host), HostText(t.host));
    TunnelPortHolds(u, h, t.port, q, f);
  }

  lemma TunnelHostHolds(u: string, h: string, p: string, q: string, f: string, i: nat, text: string)
    requires Holds(h, i, text)
    ensures Holds(u + h + p + q + f, |u| + i, text)
  {
    HoldsWithin(u, h, p + q + f, i, text);
    assert u + h + (p + q + f) == u + h + p + q + f;
  }

  lemma TunnelPortHolds(u: string, h: string, port: string, q: string, f: string)
    ensures Holds(u + h + ([':'] + port) + q + f, |u| + |h| + 1, port)
  {
    HoldsMiddle(u + h + ":", port, q + f);
    assert u + h + ":" + port + (q + f) == u + h + ([':'] + port) + q + f;
  }

  lemma TunnelPortText(t: Tunnel, text: string, f: Slice)
    requires text == PrintTunnel(t) && f == Slice(|UserPart(t.userinfo)| + |PrintHost(t.host)| + 1, |t.port|)
    ensures Ends(f, |text|) && SliceText(text, f) == t.port
  {
    TunnelHolds(t);
  }

  lemma FinishTunnel(t: Tunnel, text: string, fields: map<Field, Slice>)
    requires PortOk(t.port) && text == PrintTunnel(t) && fields == TunnelFields(t)
    requires forall f | f in fields :: Ends(fields[f], |text|)
    ensures Finish(text, true, fields) == Some(Url(Decimal(t.port), fields))
  {
    assert fields.Keys == {UfHost, UfPort};
    TunnelPortText(t, text, fields[UfPort]);
    PortLoopIsDecimal(t.port);
  }

  lemma TunnelScanned(t: Tunnel)
    requires TunnelOk(t)
    ensures var sc := ScanAll(Unbounded, true, PrintTunnel(t));
            && sc.s != Dead && sc.foundAt == t.userinfo.Some?
            && sc.fields == map[UfHost := Slice(0, |TunnelAuthority(t)|)]
  {
    ScanAllIsScan(Unbounded, true);
    ScanTunnel((u: string) => ScanAll(Unbounded, true, u), t);
  }

  lemma TrueParseTunnel(t: Tunnel)
    requires TunnelOk(t)
    ensures FieldsAt(Unbounded, PrintTunnel(t), true) == Some(TunnelFields(t))
    ensures TrueParse(PrintTunnel(t), true) == Some(Url(Decimal(t.port), TunnelFields(t)))
  {
    TunnelScanned(t);
    HostFieldsTunnel(t, ScanAll(Unbounded, true, PrintTunnel(t)));
    FinishTunnel(t, PrintTunnel(t), TunnelFields(t));
  }

  lemma TunnelSmall(t: Tunnel)
    ensures AllSmall(map[UfHost := Slice(0, |TunnelAuthority(t)|)]) <==> |TunnelAuthority(t)| < 65536
    ensures |TunnelAuthority(t)| < 65536 ==> AllSmall(TunnelFields(t))
  {
    var n := |TunnelAuthority(t)|;
    assert map[UfHost := Slice(0, n)][UfHost] == Slice(0, n);
    assert n == |UserPart(t.userinfo)| + |PrintHost(t.host)| + 1 + |t.port|;
  }

  lemma TunnelFits(t: Tunnel)
    requires TunnelOk(t)
    ensures Fits(PrintTunnel(t), true) <==> |TunnelAuthority(t)| < 65536
  {
    TrueParseTunnel(t);
    TunnelScanned(t);
    TunnelSmall(t);
  }

  /** The same for CONNECT: host and port are found if and only if together they are shorter than 65536 bytes. */
  lemma ParsePrintTunnel(t: Tunnel)
    requires TunnelOk(t)
    ensures Parse(PrintTunnel(t), true) == Some(Url(Decimal(t.port), TunnelFields(t))) <==> |TunnelAuthority(t)| < 65536
    ensures Has(PrintTunnel(t), TunnelFields(t), UfHost, Some(HostText(t.host)))
    ensures Has(PrintTunnel(t), TunnelFields(t), UfPort, Some(t.port))
  {
    TunnelExact(t);
    var fields := TunnelFields(t);
    TunnelHolds(t);
    HoldsHas(PrintTunnel(t), fields, UfHost, HostText(t.host));
    HoldsHas(PrintTunnel(t), fields, UfPort, t.port);
  }

  lemma HoldsHas(buf: string, fields: map<Field, Slice>, f: Field, text: string)
    requires f in fields && fields[f].len == |text| && Holds(buf, fields[f].off, text)
    ensures Has(buf, fields, f, Some(text))
  {
  }

  lemma TunnelExact(t: Tunnel)
    requires TunnelOk(t)
    ensures Parse(PrintTunnel(t), true) == Some(Url(Decimal(t.port), TunnelFields(t))) <==> |TunnelAuthority(t)| < 65536
  {
    TrueParseTunnel(t);
    TunnelFits(t);
    ParseExact(PrintTunnel(t), true);
  }

  // ---------------------------------------------------------------- past 16 bits

  /** Of a path the length is recorded modulo 65536: one of 65536 bytes is accepted and recorded as empty. */
  lemma LongPathWraps(path: string)
    requires path != "" && path[0] == '/' && All(IsUrlChar, path)
    ensures Parse(path, false) == Some(Url(0, map[UfPath := Slice(0, |path| % 65536)]))
  {
    var t := Target(path, None, None);
    assert PrintTarget(t) == path;
    TargetWraps(t);
    assert TargetFields(t) == map[UfPath := Slice(0, |path|)];
    WrapOne(Slice(0, |path|));
  }

  lemma WrapOne(a: Slice)
    ensures WrapAll(map[UfPath := a]) == map[UfPath := Wrap(a)]
  {
  }

  /**
    An authority of 65536 bytes more than a host name is cut to the name: whatever the other bytes are, the URL is
    accepted with that name, even if no host may look like this.
  */
  lemma LongAuthorityCut(scheme: string, name: string, tail: string)
    requires scheme != "" && All(IsAlpha, scheme) && HostOk(Name(name)) && All(IsPlainAuthChar, tail) && |tail| == 65536
    requires |scheme| + 3 < 65536 && |name| < 65536
    ensures Parse(scheme + "://" + (name + tail), false)
         == Some(Url(0, map[UfSchema := Slice(0, |scheme|), UfHost := Slice(|scheme| + 3, |name|)]))
  {
    var buf := scheme + "://" + (name + tail);
    assert All(IsPlainAuthChar, name + tail) by {
      HostIsPlain(Name(name));
      PlainConcat(name, tail);
    }
    NameHeld(scheme, name, tail, buf);
    CutScan(scheme, name + tail, |name|, buf);
    CutParsed(buf, ScanAll(Bits16, false, buf), |scheme| + 3, name);
  }

  lemma NameHeld(scheme: string, name: string, tail: string, buf: string)
    requires buf == scheme + "://" + (name + tail)
    ensures Holds(buf, |scheme| + 3, name)
  {
    HoldsMiddle(scheme + "://", name, tail);
    assert scheme + "://" + name + tail == buf;
  }

  lemma CutParsed(buf: string, n: Scan, off: nat, name: string)
    requires buf != "" && n == ScanAll(Bits16, false, buf) && n.s != Dead && !n.foundAt
    requires UfHost in n.fields && UfPort !in n.fields && n.fields[UfHost] == Slice(off, |name|)
    requires off < 65536 && |name| < 65536 && HostOk(Name(name)) && Holds(buf, off, name)
    ensures Parse(buf, false) == Some(Url(0, n.fields))
  {
    CutToName(buf, n, off, name);
    ParseFrom(buf, n);
  }

  lemma ParseFrom(buf: string, n: Scan)
    requires buf != "" && n == ScanAll(Bits16, false, buf) && n.s != Dead && UfHost in n.fields && UfPort !in n.fields
    requires HostFields(Bits16, buf, n) == Some(n.fields)
    ensures Parse(buf, false) == Some(Url(0, n.fields))
  {
  }

  lemma CutScan(scheme: string, auth: string, len: nat, buf: string)
    requires buf == scheme + "://" + auth
    requires scheme != "" && All(IsAlpha, scheme) && All(IsPlainAuthChar, auth) && |auth| == len + 65536
    requires |scheme| + 3 < 65536 && len < 65536
    ensures var n := ScanAll(Bits16, false, buf);
            && n.s == Server && !n.foundAt
            && n.fields == map[UfSchema := Slice(0, |scheme|), UfHost := Slice(|scheme| + 3, len)]
  {
    ScanAllIsScan(Unbounded, false);
    ScanAllWraps(false, buf);
    CutScanRun((t: string) => ScanAll(Unbounded, false, t), ScanAll(Bits16, false, buf), scheme, auth, len, buf);
  }

  lemma CutScanRun(W: string -> Scan, n: Scan, scheme: string, auth: string, len: nat, buf: string)
    requires IsScan(Unbounded, W) && W("") == Scan(BeforeUrl, None, false, map[]) && ScanWrapped(n, W(buf))
    requires buf == scheme + "://" + auth && |auth| == len + 65536 && |scheme| + 3 < 65536 && len < 65536
    requires scheme != "" && All(IsAlpha, scheme) && All(IsPlainAuthChar, auth)
    ensures var m := |scheme|;
            n == Scan(Server, Some(UfHost), false, map[UfSchema := Slice(0, m), UfHost := Slice(m + 3, len)])
  {
    ScanLongRun(W, scheme, auth);
    CutWrapped(n, W(buf), |scheme|, len);
  }

  lemma CutWrapped(n: Scan, w: Scan, m: nat, len: nat)
    requires ScanWrapped(n, w) && m + 3 < 65536 && len < 65536
    requires w == Scan(Server, Some(UfHost), false, map[UfSchema := Slice(0, m), UfHost := Slice(m + 3, len + 65536)])
    ensures n == Scan(Server, Some(UfHost), false, map[UfSchema := Slice(0, m), UfHost := Slice(m + 3, len)])
  {
    WrapTwo(Slice(0, m), Slice(m + 3, len + 65536));
  }

  lemma WrapTwo(a: Slice, b: Slice)
    ensures WrapAll(map[UfSchema := a, UfHost := b]) == map[UfSchema := Wrap(a), UfHost := Wrap(b)]
  {
  }

  lemma PlainConcat(a: string, b: string)
    requires All(IsPlainAuthChar, a) && All(IsPlainAuthChar, b)
    ensures All(IsPlainAuthChar, a + b)
  {
    var ab := a + b;
    forall i | 0 <= i < |ab| ensures IsPlainAuthChar(ab[i]) {
      assert ab[i] == if i < |a| then a[i] else b[i - |a|];
    }
  }

  lemma ScanLongRun(G: string -> Scan, scheme: string, auth: string)
    requires IsScan(Unbounded, G) && G("") == Scan(BeforeUrl, None, false, map[])
    requires scheme != "" && All(IsAlpha, scheme) && auth != "" && All(IsPlainAuthChar, auth)
    ensures G(scheme + "://" + auth)
         == Scan(Server, Some(UfHost), false, map[UfSchema := Slice(0, |scheme|), UfHost := Slice(|scheme| + 3, |auth|)])
  {
    ScanScheme(G, scheme);
    ServerRun(G, scheme + "://", auth);
  }

  lemma NameFound(off: nat, name: string)
    requires HostOk(Name(name))
    ensures HostAll(Unbounded, false, off, name) == HostScan(RegName, None, Slice(off, |name|), None)
  {
    HostAllIsHost(Unbounded, false, off);
    NamePart((t: string) => HostAll(Unbounded, false, off, t), off, "", name);
    assert "" + name == name;
  }

  lemma NameScanned(off: nat, name: string)
    requires off < 65536 && |name| < 65536 && HostOk(Name(name))
    ensures HostAll(Bits16, false, off, name) == HostScan(RegName, None, Slice(off, |name|), None)
  {
    NameFound(off, name);
    WrapName(off, |name|);
    HostAllWraps(false, off, name);
  }

  lemma WrapName(off: nat, len: nat)
    requires off < 65536 && len < 65536
    ensures var hs := HostScan(RegName, None, Slice(off, len), None); WrapHost(hs) == hs
  {
  }

  lemma CutToName(buf: string, n: Scan, off: nat, name: string)
    requires !n.foundAt && AllEnd(n.fields, |buf|) && UfHost in n.fields && n.fields[UfHost] == Slice(off, |name|)
    requires off < 65536 && |name| < 65536 && HostOk(Name(name)) && Holds(buf, off, name)
    ensures HostFields(Bits16, buf, n) == Some(n.fields)
  {
    NameScanned(off, name);
    assert SliceText(buf, n.fields[UfHost]) == name;
    assert n.fields[UfHost := Slice(off, |name|)] == n.fields;
  }

  /** Such an authority is malformed if, for one, a percent sign follows the name: without the cut the URL is refused. */
  lemma LongAuthorityMalformed(scheme: string, name: string, tail: string)
    requires scheme != "" && All(IsAlpha, scheme) && HostOk(Name(name)) && All(IsPlainAuthChar, tail)
    requires tail != "" && tail[0] == '%'
    ensures TrueParse(scheme + "://" + (name + tail), false) == None
  {
    var s, auth := scheme + "://", name + tail;
    HostIsPlain(Name(name));
    PlainConcat(name, tail);
    ScanAllIsScan(Unbounded, false);
    ScanLongRun((t: string) => ScanAll(Unbounded, false, t), scheme, auth);
    HostRefused(s + auth, ScanAll(Unbounded, false, s + auth), |scheme| + 3, name, tail);
  }

  lemma HostRefused(buf: string, w: Scan, off: nat, name: string, tail: string)
    requires !w.foundAt && AllEnd(w.fields, |buf|) && UfHost in w.fields && w.fields[UfHost] == Slice(off, |name + tail|)
    requires off + |name + tail| == |buf| && buf[off..] == name + tail && HostOk(Name(name)) && tail != "" && tail[0] == '%'
    ensures HostFields(Unbounded, buf, w) == None
  {
    assert SliceText(buf, w.fields[UfHost]) == name + tail;
    HostAllIsHost(Unbounded, false, off);
    PercentKills((t: string) => HostAll(Unbounded, false, off, t), off, name, tail);
  }

  lemma PercentKills(F: string -> HostScan, off: nat, name: string, tail: string)
    requires IsHost(Unbounded, F, off) && F("") == HostScan(HostStart, None, Slice(off, 0), None)
    requires HostOk(Name(name)) && tail != "" && tail[0] == '%'
    ensures F(name + tail).s == HDead
  {
    NamePart(F, off, "", name);
    assert "" + name == name;
    HostSkip(F, off, name, '%', HDead);
    assert (name + tail)[..|name| + 1] == name + ['%'];
    HostDeadStays(Unbounded, F, off, name + tail, |name| + 1);
  }
}
