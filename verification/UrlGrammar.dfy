/**
  What the parser accepts: exactly the URLs that UrlRoundTrip prints. An accepted input is taken apart along the states of
  the two machines, and the parts are shown to be well-formed components.
*/
module UrlGrammar {
  import opened Basics
  import opened Text
  import opened UrlParser
  import opened UrlLayout
  import opened UrlWidth
  import opened UrlRoundTrip

  // ---------------------------------------------------------------- the URL machine

  /** What has been read, by the part it belongs to; marks counts the characters of "://". */
  datatype Cut = Cut(scheme: string, marks: nat, auth: string, path: string, query: Option<string>, fragment: Option<string>)

  function Marks(n: nat): string {
    if n == 0 then "" else if n == 1 then ":" else if n == 2 then ":/" else "://"
  }

  function PrintCut(c: Cut): string {
    c.scheme + Marks(c.marks) + c.auth + c.path + Before(c.query, '?') + Before(c.fragment, '#')
  }

  /** ch is added to the part that the machine's next state reads. */
  function CutStep(c: Cut, next: State, ch: char): Cut {
    match next
    case Schema => c.(scheme := c.scheme + [ch])
    case SchemaSlash | SchemaSlashSlash | ServerStart => c.(marks := c.marks + 1)
    case Server | ServerWithAt => c.(auth := c.auth + [ch])
    case Path => c.(path := c.path + [ch])
    case QueryStart => c.(query := Some(""))
    case Query => c.(query := Some((if c.query.Some? then c.query.value else "") + [ch]))
    case FragmentStart => c.(fragment := Some(if c.fragment.Some? then c.fragment.value + [ch] else ""))
    case Fragment => c.(fragment := Some((if c.fragment.Some? then c.fragment.value else "") + [ch]))
    case _ => c
  }

  predicate IsAuthChar(ch: char) {
    IsPlainAuthChar(ch) || ch == '@'
  }

  /** Nothing has been read of the parts after the authority. */
  predicate NoTail(c: Cut) {
    c.path == "" && c.query.None? && c.fragment.None?
  }

  /** An authority may come: after "://", or at once for CONNECT. */
  predicate Based(c: Cut, connect: bool) {
    if connect then c.scheme == "" && c.marks == 0 else c.scheme != "" && c.marks == 3
  }

  /** Where a path or query may stand: after an authority (or its place), or, but for CONNECT, a path at the start. */
  predicate Rooted(c: Cut, connect: bool) {
    || (Based(c, connect) && (c.path != "" ==> c.path[0] == '/'))
    || (!connect && c.scheme == "" && c.marks == 0 && c.auth == "" && c.path != "" && (c.path[0] == '/' || c.path[0] == '*'))
  }

  /** The parts hold only characters of theirs. */
  predicate CleanCut(c: Cut) {
    && All(IsAlpha, c.scheme) && All(IsAuthChar, c.auth) && All(IsUrlChar, c.path)
    && (c.query.Some? ==> All(IsQueryChar, c.query.value))
    && (c.fragment.Some? ==> All(IsFragmentChar, c.fragment.value))
  }

  /** What has been read when the machine is in state s. */
  predicate CutAt(c: Cut, s: State, connect: bool) {
    match s
    case BeforeUrl => !connect && c == Cut("", 0, "", "", None, None)
    case Schema => !connect && c.scheme != "" && c.marks == 0 && c.auth == "" && NoTail(c)
    case SchemaSlash => !connect && c.scheme != "" && c.marks == 1 && c.auth == "" && NoTail(c)
    case SchemaSlashSlash => !connect && c.scheme != "" && c.marks == 2 && c.auth == "" && NoTail(c)
    case ServerStart => Based(c, connect) && c.auth == "" && NoTail(c)
    case Server | ServerWithAt => Based(c, connect) && c.auth != "" && NoTail(c)
    case Path => Rooted(c, connect) && c.path != "" && c.query.None? && c.fragment.None?
    case QueryStart => Rooted(c, connect) && c.query == Some("") && c.fragment.None?
    case Query => Rooted(c, connect) && Filled(c.query).Some? && c.fragment.None?
    case FragmentStart =>
      && Rooted(c, connect) && (c.path != "" || c.query.Some?) && c.fragment.Some?
      && FragmentText(c.fragment).None?
    case Fragment => Rooted(c, connect) && (c.path != "" || c.query.Some?) && FragmentText(c.fragment).Some?
    case Dead => false
  }

  lemma AllSnoc(p: char -> bool, s: string, ch: char)
    requires All(p, s) && p(ch)
    ensures All(p, s + [ch])
  {
    var t := s + [ch];
    forall i | 0 <= i < |t| ensures p(t[i]) {
      if i < |s| { assert t[i] == s[i]; }
    }
  }

  lemma {:induction false} HashesSnoc(frag: string, ch: char)
    ensures FragmentText(Some(frag + [ch])).Some? <==> FragmentText(Some(frag)).Some? || ch != '#'
  {
    var t := frag + [ch];
    var n, m := Hashes(frag), Hashes(t);
    if n < |frag| {
      assert t[n] == frag[n];
      assert m <= n;
    } else {
      assert forall i | 0 <= i < |frag| :: t[i] == '#' by {
        forall i | 0 <= i < |frag| ensures t[i] == '#' { assert t[i] == frag[i]; }
      }
      assert m >= |frag| && t[|frag|] == ch;
    }
  }

  /** Every turn of the machine keeps that. */
  lemma CutMoves(c: Cut, s: State, ch: char, connect: bool)
    requires CutAt(c, s, connect) && UrlChar(s, ch) != Dead
    ensures CutAt(CutStep(c, UrlChar(s, ch), ch), UrlChar(s, ch), connect)
  {
    if UrlChar(s, ch) == FragmentStart || UrlChar(s, ch) == Fragment {
      CutMovesFragment(c, s, ch, connect);
    } else {
      CutMovesBefore(c, s, ch, connect);
    }
  }

  lemma CutMovesBefore(c: Cut, s: State, ch: char, connect: bool)
    requires CutAt(c, s, connect) && UrlChar(s, ch) != Dead && UrlChar(s, ch) != FragmentStart && UrlChar(s, ch) != Fragment
    ensures CutAt(CutStep(c, UrlChar(s, ch), ch), UrlChar(s, ch), connect)
  {
  }

  lemma CutMovesFragment(c: Cut, s: State, ch: char, connect: bool)
    requires CutAt(c, s, connect) && (UrlChar(s, ch) == FragmentStart || UrlChar(s, ch) == Fragment)
    ensures CutAt(CutStep(c, UrlChar(s, ch), ch), UrlChar(s, ch), connect)
  {
    HashesSnoc(if c.fragment.Some? then c.fragment.value else "", ch);
    assert FragmentText(Some("")).None?;
  }

  lemma CutClean(c: Cut, s: State, ch: char, connect: bool)
    requires CutAt(c, s, connect) && CleanCut(c) && UrlChar(s, ch) != Dead
    ensures CleanCut(CutStep(c, UrlChar(s, ch), ch))
  {
    match UrlChar(s, ch)
    case Schema => AllSnoc(IsAlpha, c.scheme, ch);
    case Server | ServerWithAt => AllSnoc(IsAuthChar, c.auth, ch);
    case Path => AllSnoc(IsUrlChar, c.path, ch);
    case Query => AllSnoc(IsQueryChar, c.query.value, ch);
    case FragmentStart => if c.fragment.Some? { AllSnoc(IsFragmentChar, c.fragment.value, ch); }
    case Fragment => AllSnoc(IsFragmentChar, c.fragment.value, ch);
    case _ =>
  }

  lemma PrintShort(c: Cut)
    ensures c.fragment.None? ==> PrintCut(c) == c.scheme + Marks(c.marks) + c.auth + c.path + Before(c.query, '?')
    ensures c.query.None? && c.fragment.None? ==> PrintCut(c) == c.scheme + Marks(c.marks) + c.auth + c.path
    ensures NoTail(c) ==> PrintCut(c) == c.scheme + Marks(c.marks) + c.auth
    ensures NoTail(c) && c.auth == "" ==> PrintCut(c) == c.scheme + Marks(c.marks)
  {
  }

  lemma AppendLast(a: string, b: string, ch: char)
    ensures a + (b + [ch]) == a + b + [ch]
  {
  }

  lemma CutPrints(c: Cut, s: State, ch: char, connect: bool)
    requires CutAt(c, s, connect) && UrlChar(s, ch) != Dead
    ensures PrintCut(CutStep(c, UrlChar(s, ch), ch)) == PrintCut(c) + [ch]
  {
    var c' := CutStep(c, UrlChar(s, ch), ch);
    match UrlChar(s, ch)
    case Schema => PrintsScheme(c, c', ch);
    case SchemaSlash | SchemaSlashSlash | ServerStart => PrintsMark(c, c', ch);
    case Server | ServerWithAt => PrintsAuth(c, c', ch);
    case Path => PrintsPath(c, c', ch);
    case QueryStart | Query => PrintsQuery(c, c', ch);
    case FragmentStart | Fragment => PrintsFragment(c, c', ch);
  }

  lemma PrintsScheme(c: Cut, c': Cut, ch: char)
    requires c.marks == 0 && c.auth == "" && NoTail(c) && c' == c.(scheme := c.scheme + [ch])
    ensures PrintCut(c') == PrintCut(c) + [ch]
  {
    PrintShort(c);
    PrintShort(c');
    assert c.scheme + [ch] + "" == c.scheme + "" + [ch];
  }

  lemma PrintsMark(c: Cut, c': Cut, ch: char)
    requires c.marks < 3 && c.auth == "" && NoTail(c) && c' == c.(marks := c.marks + 1)
    requires ch == if c.marks == 0 then ':' else '/'
    ensures PrintCut(c') == PrintCut(c) + [ch]
  {
    PrintShort(c);
    PrintShort(c');
    assert Marks(c.marks + 1) == Marks(c.marks) + [ch];
    AppendLast(c.scheme, Marks(c.marks), ch);
  }

  lemma PrintsAuth(c: Cut, c': Cut, ch: char)
    requires NoTail(c) && c' == c.(auth := c.auth + [ch])
    ensures PrintCut(c') == PrintCut(c) + [ch]
  {
    PrintShort(c);
    PrintShort(c');
    AppendLast(c.scheme + Marks(c.marks), c.auth, ch);
  }

  lemma PrintsPath(c: Cut, c': Cut, ch: char)
    requires c.query.None? && c.fragment.None? && c' == c.(path := c.path + [ch])
    ensures PrintCut(c') == PrintCut(c) + [ch]
  {
    PrintShort(c);
    PrintShort(c');
    AppendLast(c.scheme + Marks(c.marks) + c.auth, c.path, ch);
  }

  lemma PrintsQuery(c: Cut, c': Cut, ch: char)
    requires c.fragment.None?
    requires if c.query.None? then ch == '?' && c' == c.(query := Some(""))
             else c' == c.(query := Some(c.query.value + [ch]))
    ensures PrintCut(c') == PrintCut(c) + [ch]
  {
    PrintShort(c);
    PrintShort(c');
    AppendLast(c.scheme + Marks(c.marks) + c.auth + c.path, Before(c.query, '?'), ch);
    assert Before(c'.query, '?') == Before(c.query, '?') + [ch];
  }

  lemma PrintsFragment(c: Cut, c': Cut, ch: char)
    requires if c.fragment.None? then ch == '#' && c' == c.(fragment := Some(""))
             else c' == c.(fragment := Some(c.fragment.value + [ch]))
    ensures PrintCut(c') == PrintCut(c) + [ch]
  {
    AppendLast(c.scheme + Marks(c.marks) + c.auth + c.path + Before(c.query, '?'), Before(c.fragment, '#'), ch);
    assert Before(c'.fragment, '#') == Before(c.fragment, '#') + [ch];
  }

  // ---------------------------------------------------------------- the fields of the first loop

  /** A part that sets its field: it is not empty. */
  predicate Present(c: Cut, f: Field) {
    match f
    case UfSchema => c.scheme != ""
    case UfHost => c.auth != ""
    case UfPath => c.path != ""
    case UfQuery => Filled(c.query).Some?
    case UfFragment => FragmentText(c.fragment).Some?
    case _ => false
  }

  predicate KeyOk(c: Cut, fields: map<Field, Slice>, f: Field) {
    f in fields <==> Present(c, f)
  }

  /** The fields set are those of the parts that are not empty, and the host field is the authority. */
  ghost predicate CutFields(c: Cut, sc: Scan) {
    && (forall f: Field :: KeyOk(c, sc.fields, f))
    && (UfHost in sc.fields ==> sc.fields[UfHost] == Slice(|c.scheme| + c.marks, |c.auth|))
    && (sc.foundAt <==> '@' in c.auth)
  }

  lemma FragmentMoves(c: Cut, s: State, ch: char, connect: bool)
    requires CutAt(c, s, connect) && UrlChar(s, ch) != Dead
    ensures Present(CutStep(c, UrlChar(s, ch), ch), UfFragment) <==> Present(c, UfFragment) || UrlChar(s, ch) == Fragment
  {
    CutMoves(c, s, ch, connect);
    FragmentIn(c, s, connect);
    FragmentIn(CutStep(c, UrlChar(s, ch), ch), UrlChar(s, ch), connect);
    FragmentStays(ch);
  }

  lemma FragmentIn(c: Cut, s: State, connect: bool)
    requires CutAt(c, s, connect)
    ensures Present(c, UfFragment) <==> s == Fragment
  {
  }

  lemma FragmentStays(ch: char)
    ensures UrlChar(Fragment, ch) == Fragment || UrlChar(Fragment, ch) == Dead
  {
  }

  lemma QueryMoves(c: Cut, s: State, ch: char, connect: bool)
    requires CutAt(c, s, connect) && UrlChar(s, ch) != Dead
    ensures Present(CutStep(c, UrlChar(s, ch), ch), UfQuery) <==> Present(c, UfQuery) || UrlChar(s, ch) == Query
  {
  }

  /** A turn adds its own field to those that are there. */
  lemma PresentMoves(c: Cut, s: State, ch: char, connect: bool, f: Field)
    requires CutAt(c, s, connect) && UrlChar(s, ch) != Dead
    ensures Present(CutStep(c, UrlChar(s, ch), ch), f) <==> Present(c, f) || FieldOf(UrlChar(s, ch)) == Some(f)
  {
    FragmentMoves(c, s, ch, connect);
    QueryMoves(c, s, ch, connect);
  }

  lemma RecordFound(sc: Scan, s': State, pos: nat)
    requires sc.last.Some? ==> sc.last.value in sc.fields
    ensures Record(Unbounded, sc, s', pos).foundAt <==> sc.foundAt || s' == ServerWithAt
  {
  }

  lemma AuthMoves(c: Cut, s: State, ch: char, connect: bool)
    requires CutAt(c, s, connect) && UrlChar(s, ch) != Dead
    ensures '@' in CutStep(c, UrlChar(s, ch), ch).auth <==> '@' in c.auth || UrlChar(s, ch) == ServerWithAt
  {
    assert '@' in c.auth + [ch] <==> '@' in c.auth || ch == '@';
  }

  /** What one turn does to the fields. */
  lemma CutFieldsMove(c: Cut, sc: Scan, ch: char, t: string, connect: bool)
    requires CutAt(c, sc.s, connect) && CutFields(c, sc) && ScanLaid(t, sc) && t == PrintCut(c)
    requires UrlChar(sc.s, ch) != Dead
    ensures CutFields(CutStep(c, UrlChar(sc.s, ch), ch), ScanStep(Unbounded, sc, ch, |t|))
  {
    var s' := UrlChar(sc.s, ch);
    var c', fields' := CutStep(c, s', ch), Moved(sc.fields, FieldOf(sc.s), FieldOf(s'), |t|);
    UrlCharForward(sc.s, ch);
    assert ScanStep(Unbounded, sc, ch, |t|).fields == fields' by { RecordFields(sc, s', |t|, ch); }
    RecordFound(sc, s', |t|);
    AuthMoves(c, sc.s, ch, connect);
    forall f: Field ensures KeyOk(c', fields', f) {
      assert KeyOk(c, sc.fields, f);
      PresentMoves(c, sc.s, ch, connect, f);
    }
    HostSliceMoves(c, sc, ch, t, connect);
  }

  lemma HostSliceMoves(c: Cut, sc: Scan, ch: char, t: string, connect: bool)
    requires CutAt(c, sc.s, connect) && CutFields(c, sc) && t == PrintCut(c) && UrlChar(sc.s, ch) != Dead
    requires FieldOf(sc.s).Some? ==> FieldOf(sc.s).value in sc.fields
    ensures var s' := UrlChar(sc.s, ch);
            var c', fields' := CutStep(c, s', ch), Moved(sc.fields, FieldOf(sc.s), FieldOf(s'), |t|);
            UfHost in fields' ==> fields'[UfHost] == Slice(|c'.scheme| + c'.marks, |c'.auth|)
  {
    assert KeyOk(c, sc.fields, UfHost);
    if FieldOf(UrlChar(sc.s, ch)) == Some(UfHost) {
      AuthorityGrows(c, sc.s, ch, connect);
      CutLength(c);
    } else if c.auth != "" {
      AuthorityStays(c, sc.s, ch, connect);
    }
  }

  lemma AuthorityGrows(c: Cut, s: State, ch: char, connect: bool)
    requires CutAt(c, s, connect) && FieldOf(UrlChar(s, ch)) == Some(UfHost)
    ensures NoTail(c) && c.marks <= 3 && (FieldOf(s) == Some(UfHost) <==> c.auth != "")
    ensures CutStep(c, UrlChar(s, ch), ch) == c.(auth := c.auth + [ch])
  {
  }

  lemma AuthorityStays(c: Cut, s: State, ch: char, connect: bool)
    requires CutAt(c, s, connect) && UrlChar(s, ch) != Dead && FieldOf(UrlChar(s, ch)) != Some(UfHost) && c.auth != ""
    ensures var c' := CutStep(c, UrlChar(s, ch), ch); c'.scheme == c.scheme && c'.marks == c.marks && c'.auth == c.auth
  {
  }

  lemma CutLength(c: Cut)
    requires NoTail(c) && c.marks <= 3
    ensures |PrintCut(c)| == |c.scheme| + c.marks + |c.auth|
  {
    assert |Marks(c.marks)| == c.marks;
  }

  // ---------------------------------------------------------------- runs

  /** All that is kept of a cut along a run. */
  ghost predicate CutGood(c: Cut, t: string, sc: Scan, connect: bool) {
    t == PrintCut(c) && CutAt(c, sc.s, connect) && CleanCut(c) && CutFields(c, sc)
  }

  lemma CutTurn(c: Cut, t: string, sc: Scan, ch: char, connect: bool)
    requires CutGood(c, t, sc, connect) && ScanLaid(t, sc) && UrlChar(sc.s, ch) != Dead
    ensures CutGood(CutStep(c, UrlChar(sc.s, ch), ch), t + [ch], ScanStep(Unbounded, sc, ch, |t|), connect)
  {
    RecordState(sc, UrlChar(sc.s, ch), |t|);
    CutMoves(c, sc.s, ch, connect);
    CutClean(c, sc.s, ch, connect);
    CutPrints(c, sc.s, ch, connect);
    CutFieldsMove(c, sc, ch, t, connect);
  }

  lemma RecordState(sc: Scan, s': State, pos: nat)
    requires sc.last.Some? ==> sc.last.value in sc.fields
    ensures Record(Unbounded, sc, s', pos).s == s'
  {
  }

  lemma CutBegins(connect: bool)
    ensures CutGood(Cut("", 0, "", "", None, None), "", Scan(if connect then ServerStart else BeforeUrl, None, false, map[]), connect)
  {
    var c, sc := Cut("", 0, "", "", None, None), Scan(if connect then ServerStart else BeforeUrl, None, false, map[]);
    forall f: Field ensures KeyOk(c, sc.fields, f) {}
  }

  lemma {:induction false} CutRun(G: string -> Scan, t: string, connect: bool) returns (c: Cut)
    requires IsScan(Unbounded, G) && G(t).s != Dead
    requires G("") == Scan(if connect then ServerStart else BeforeUrl, None, false, map[])
    ensures CutGood(c, t, G(t), connect)
  {
    if t == "" {
      CutBegins(connect);
      c := Cut("", 0, "", "", None, None);
    } else {
      var front, ch := t[..|t| - 1], t[|t| - 1];
      assert t == front + [ch] && ScanTurn(Unbounded, G, front, ch);
      RecordState(G(front), UrlChar(G(front).s, ch), |front|);
      var before := CutRun(G, front, connect);
      ScanRunLaid(G, front);
      CutTurn(before, front, G(front), ch, connect);
      c := CutStep(before, UrlChar(G(front).s, ch), ch);
    }
  }

  // ---------------------------------------------------------------- the host machine

  /** What has been read of an authority. */
  datatype HostCut = HostCut(
    user: string, at: bool, open: bool, name: string, zone: Option<string>, close: bool, colon: bool, port: string)

  function If(there: bool, c: char): string {
    if there then [c] else ""
  }

  function PrintHostCut(h: HostCut): string {
    h.user + If(h.at, '@') + If(h.open, '[') + h.name + Before(h.zone, '%') + If(h.close, ']') + If(h.colon, ':') + h.port
  }

  function HostCutStep(h: HostCut, next: HostState, ch: char): HostCut {
    match next
    case Userinfo => h.(user := h.user + [ch])
    case HostStart => h.(at := true)
    case V6Start => h.(open := true)
    case RegName | V6 => h.(name := h.name + [ch])
    case ZoneStart => h.(zone := Some(""))
    case Zone => h.(zone := Some((if h.zone.Some? then h.zone.value else "") + [ch]))
    case V6End => h.(close := true)
    case PortStart => h.(colon := true)
    case Port => h.(port := h.port + [ch])
    case _ => h
  }

  predicate NoPort(h: HostCut) {
    !h.colon && h.port == ""
  }

  predicate NoHost(h: HostCut) {
    !h.open && h.name == "" && h.zone.None? && !h.close && NoPort(h)
  }

  /** The userinfo is over, or there is none. */
  predicate UserDone(h: HostCut, foundAt: bool) {
    h.at == foundAt && (!foundAt ==> h.user == "")
  }

  /** A host that is complete. */
  predicate WholeHost(h: HostCut) {
    h.name != "" && h.close == h.open && (if h.open then h.zone.Some? ==> h.zone.value != "" else h.zone.None?)
  }

  /** An address that is being read. */
  predicate InAddress(h: HostCut) {
    h.open && !h.close && h.name != "" && NoPort(h)
  }

  /** The parts hold only characters of theirs. */
  predicate CleanHost(h: HostCut) {
    && All(IsUserinfoChar, h.user) && All(if h.open then IsV6Char else IsHostChar, h.name)
    && (h.zone.Some? ==> All(IsZoneChar, h.zone.value)) && Digits(h.port)
  }

  /** What has been read when the machine is in state s. */
  predicate HostCutAt(h: HostCut, s: HostState, foundAt: bool) {
    match s
    case UserinfoStart => foundAt && h.user == "" && !h.at && NoHost(h)
    case Userinfo => foundAt && h.user != "" && !h.at && NoHost(h)
    case HostStart => UserDone(h, foundAt) && NoHost(h)
    case V6Start => UserDone(h, foundAt) && h.open && h.name == "" && h.zone.None? && !h.close && NoPort(h)
    case RegName => UserDone(h, foundAt) && !h.open && WholeHost(h) && NoPort(h)
    case V6 => UserDone(h, foundAt) && InAddress(h) && h.zone.None?
    case ZoneStart => UserDone(h, foundAt) && InAddress(h) && h.zone == Some("")
    case Zone => UserDone(h, foundAt) && InAddress(h) && h.zone.Some? && h.zone.value != ""
    case V6End => UserDone(h, foundAt) && h.open && WholeHost(h) && NoPort(h)
    case PortStart => UserDone(h, foundAt) && WholeHost(h) && h.colon && h.port == ""
    case Port => UserDone(h, foundAt) && WholeHost(h) && h.colon && h.port != ""
    case HDead => false
  }

  /** What the bookkeeping has recorded after n characters. */
  predicate HostCutSlices(h: HostCut, hs: HostScan, off: nat, n: nat) {
    && (hs.userinfo.Some? <==> h.user != "")
    && |h.port| <= n && hs.port == if h.port == "" then None else Some(Slice(off + n - |h.port|, |h.port|))
  }

  lemma DigitsSnoc(port: string, ch: char)
    requires Digits(port) && IsDigit(ch)
    ensures Digits(port + [ch])
  {
    DigitsGrow(port, 0, ch);
    assert port[0..] == port && (port + [ch])[0..] == port + [ch];
  }

  lemma HostCutMoves(h: HostCut, s: HostState, ch: char, foundAt: bool)
    requires HostCutAt(h, s, foundAt) && HostChar(s, ch) != HDead
    ensures HostCutAt(HostCutStep(h, HostChar(s, ch), ch), HostChar(s, ch), foundAt)
  {
  }

  lemma HostCutClean(h: HostCut, s: HostState, ch: char, foundAt: bool)
    requires HostCutAt(h, s, foundAt) && CleanHost(h) && HostChar(s, ch) != HDead
    ensures CleanHost(HostCutStep(h, HostChar(s, ch), ch))
  {
    match HostChar(s, ch)
    case Userinfo => AllSnoc(IsUserinfoChar, h.user, ch);
    case RegName => AllSnoc(IsHostChar, h.name, ch);
    case V6 => AllSnoc(IsV6Char, h.name, ch);
    case Zone => AllSnoc(IsZoneChar, h.zone.value, ch);
    case Port => DigitsSnoc(h.port, ch);
    case _ =>
  }

  /** The printed authority up to the name */
  function UpToName(h: HostCut): string {
    h.user + If(h.at, '@') + If(h.open, '[') + h.name
  }

  lemma HostShort(h: HostCut)
    ensures h.port == "" ==> PrintHostCut(h) == UpToName(h) + Before(h.zone, '%') + If(h.close, ']') + If(h.colon, ':')
    ensures NoPort(h) ==> PrintHostCut(h) == UpToName(h) + Before(h.zone, '%') + If(h.close, ']')
    ensures NoPort(h) && !h.close ==> PrintHostCut(h) == UpToName(h) + Before(h.zone, '%')
    ensures NoPort(h) && !h.close && h.zone.None? ==> PrintHostCut(h) == UpToName(h)
  {
  }

  lemma NameShort(h: HostCut)
    ensures h.name == "" ==> UpToName(h) == h.user + If(h.at, '@') + If(h.open, '[')
    ensures h.name == "" && !h.open ==> UpToName(h) == h.user + If(h.at, '@')
    ensures h.name == "" && !h.open && !h.at ==> UpToName(h) == h.user
  {
  }

  lemma HostCutPrints(h: HostCut, s: HostState, ch: char, foundAt: bool)
    requires HostCutAt(h, s, foundAt) && HostChar(s, ch) != HDead
    ensures PrintHostCut(HostCutStep(h, HostChar(s, ch), ch)) == PrintHostCut(h) + [ch]
  {
    var h' := HostCutStep(h, HostChar(s, ch), ch);
    match HostChar(s, ch)
    case Userinfo | HostStart => PrintsUser(h, h', ch);
    case V6Start | RegName | V6 => PrintsName(h, h', ch);
    case ZoneStart | Zone => PrintsZone(h, h', ch);
    case V6End => PrintsClose(h, h', ch);
    case PortStart => PrintsColon(h, h', ch);
    case Port => AppendLast(UpToName(h) + Before(h.zone, '%') + If(h.close, ']') + If(h.colon, ':'), h.port, ch);
  }

  lemma PrintsUser(h: HostCut, h': HostCut, ch: char)
    requires NoHost(h) && !h.at && (h' == h.(user := h.user + [ch]) || (h' == h.(at := true) && ch == '@'))
    ensures PrintHostCut(h') == PrintHostCut(h) + [ch]
  {
    HostShort(h);
    HostShort(h');
    NameShort(h);
    NameShort(h');
  }

  lemma PrintsName(h: HostCut, h': HostCut, ch: char)
    requires NoPort(h) && !h.close && h.zone.None?
    requires h' == h.(name := h.name + [ch]) || (h' == h.(open := true) && !h.open && h.name == "" && ch == '[')
    ensures PrintHostCut(h') == PrintHostCut(h) + [ch]
  {
    HostShort(h);
    HostShort(h');
    if h'.open == h.open {
      AppendLast(h.user + If(h.at, '@') + If(h.open, '['), h.name, ch);
    } else {
      NameShort(h);
      NameShort(h');
    }
  }

  lemma PrintsZone(h: HostCut, h': HostCut, ch: char)
    requires NoPort(h) && !h.close
    requires if h.zone.None? then h' == h.(zone := Some("")) && ch == '%' else h' == h.(zone := Some(h.zone.value + [ch]))
    ensures PrintHostCut(h') == PrintHostCut(h) + [ch]
  {
    HostShort(h);
    HostShort(h');
    if h.zone.Some? {
      AppendLast("%", h.zone.value, ch);
      AppendLast(UpToName(h), Before(h.zone, '%'), ch);
    }
  }

  lemma PrintsClose(h: HostCut, h': HostCut, ch: char)
    requires NoPort(h) && !h.close && h' == h.(close := true) && ch == ']'
    ensures PrintHostCut(h') == PrintHostCut(h) + [ch]
  {
    HostShort(h);
    HostShort(h');
  }

  lemma PrintsColon(h: HostCut, h': HostCut, ch: char)
    requires NoPort(h) && h' == h.(colon := true) && ch == ':'
    ensures PrintHostCut(h') == PrintHostCut(h) + [ch]
  {
    HostShort(h);
    HostShort(h');
  }

  /** How one turn changes what is recorded of userinfo and port. */
  predicate Advances(hs: HostScan, hs': HostScan, pos: nat) {
    && (hs'.userinfo.Some? <==> hs.userinfo.Some? || hs'.s == Userinfo)
    && hs'.port == (if hs'.s != Port then hs.port
                    else if hs.s == Port && hs.port.Some? then Some(hs.port.value.(len := hs.port.value.len + 1))
                    else Some(Slice(pos, 1)))
  }

  lemma HostAdvance(F: string -> HostScan, off: nat, front: string, ch: char, t: string)
    requires IsHost(Unbounded, F, off) && t == front + [ch] && F(t).s != HDead
    ensures F(t).s == HostChar(F(front).s, ch) && Advances(F(front), F(t), off + |front|)
  {
    assert HostTurnOk(Unbounded, F, off, front, ch);
    StepAdvances(F(front), ch, off + |front|);
  }

  lemma StepAdvances(hs: HostScan, ch: char, pos: nat)
    requires HostScanOk(hs, pos)
    ensures HostStep(Unbounded, hs, ch, pos).s == HostChar(hs.s, ch)
    ensures HostChar(hs.s, ch) != HDead ==> Advances(hs, HostStep(Unbounded, hs, ch, pos), pos)
  {
    if HostChar(hs.s, ch) != HDead { PortMoves(hs, ch, pos); }
  }

  lemma HostCutSlicesMove(h: HostCut, hs: HostScan, ch: char, foundAt: bool, off: nat, n: nat, hs': HostScan)
    requires HostCutAt(h, hs.s, foundAt) && HostCutSlices(h, hs, off, n) && HostChar(hs.s, ch) != HDead
    requires hs'.s == HostChar(hs.s, ch) && Advances(hs, hs', off + n)
    ensures HostCutSlices(HostCutStep(h, HostChar(hs.s, ch), ch), hs', off, n + 1)
  {
    UserCutMoves(h, hs.s, ch, foundAt);
    PortCutState(h, hs.s, ch, foundAt);
  }

  lemma UserCutMoves(h: HostCut, s: HostState, ch: char, foundAt: bool)
    requires HostCutAt(h, s, foundAt) && HostChar(s, ch) != HDead
    ensures HostCutStep(h, HostChar(s, ch), ch).user != "" <==> h.user != "" || HostChar(s, ch) == Userinfo
  {
  }

  lemma PortCutState(h: HostCut, s: HostState, ch: char, foundAt: bool)
    requires HostCutAt(h, s, foundAt) && HostChar(s, ch) != HDead
    ensures HostCutStep(h, HostChar(s, ch), ch).port == if HostChar(s, ch) == Port then h.port + [ch] else h.port
    ensures h.port != "" <==> s == Port
  {
  }

  predicate HostCutGood(h: HostCut, t: string, hs: HostScan, off: nat, foundAt: bool) {
    t == PrintHostCut(h) && HostCutAt(h, hs.s, foundAt) && CleanHost(h) && HostCutSlices(h, hs, off, |t|)
  }

  lemma HostCutTurn(h: HostCut, t: string, s: HostState, ch: char, foundAt: bool)
    requires t == PrintHostCut(h) && HostCutAt(h, s, foundAt) && CleanHost(h) && HostChar(s, ch) != HDead
    ensures var h' := HostCutStep(h, HostChar(s, ch), ch);
            t + [ch] == PrintHostCut(h') && HostCutAt(h', HostChar(s, ch), foundAt) && CleanHost(h')
  {
    HostCutMoves(h, s, ch, foundAt);
    HostCutClean(h, s, ch, foundAt);
    HostCutPrints(h, s, ch, foundAt);
  }

  lemma HostCutGoodFrom(h: HostCut, t: string, hs: HostScan, off: nat, foundAt: bool, s: HostState, n: nat)
    requires hs.s == s && PrintHostCut(h) == t && n == |t| && HostCutAt(h, s, foundAt) && HostCutSlices(h, hs, off, n)
    requires CleanHost(h)
    ensures HostCutGood(h, t, hs, off, foundAt)
  {
  }

  lemma HostCutNext(h: HostCut, t: string, hs: HostScan, ch: char, off: nat, foundAt: bool, t': string, hs': HostScan)
    requires HostCutGood(h, t, hs, off, foundAt) && t' == t + [ch]
    requires hs'.s == HostChar(hs.s, ch) != HDead && Advances(hs, hs', off + |t|)
    ensures HostCutGood(HostCutStep(h, hs'.s, ch), t', hs', off, foundAt)
  {
    HostCutTurn(h, t, hs.s, ch, foundAt);
    HostCutSlicesMove(h, hs, ch, foundAt, off, |t|, hs');
    HostCutGoodFrom(HostCutStep(h, hs'.s, ch), t', hs', off, foundAt, hs'.s, |t'|);
  }

  lemma HostCutBegins(off: nat, foundAt: bool)
    ensures HostCutGood(HostCut("", false, false, "", None, false, false, ""), "",
                        HostScan(if foundAt then UserinfoStart else HostStart, None, Slice(off, 0), None), off, foundAt)
  {
  }

  lemma {:induction false} HostCutRun(F: string -> HostScan, off: nat, t: string, foundAt: bool) returns (h: HostCut)
    requires IsHost(Unbounded, F, off) && F(t).s != HDead
    requires F("") == HostScan(if foundAt then UserinfoStart else HostStart, None, Slice(off, 0), None)
    ensures HostCutGood(h, t, F(t), off, foundAt)
  {
    if t == "" {
      HostCutBegins(off, foundAt);
      h := HostCut("", false, false, "", None, false, false, "");
    } else {
      var front, ch := t[..|t| - 1], t[|t| - 1];
      assert t == front + [ch];
      HostAdvance(F, off, front, ch, t);
      var before := HostCutRun(F, off, front, foundAt);
      h := HostCutStep(before, F(t).s, ch);
      HostCutNext(before, front, F(front), ch, off, foundAt, t, F(t));
    }
  }

  // ---------------------------------------------------------------- what is accepted

  /** The host of a complete cut */
  function HostOf(h: HostCut): Host {
    if h.open then Address(h.name, h.zone) else Name(h.name)
  }

  function UserOf(h: HostCut): Option<string> {
    if h.at then Some(h.user) else None
  }

  function PortOf(h: HostCut): Option<string> {
    if h.colon then Some(h.port) else None
  }

  /** auth is printed from what h holds. */
  predicate Spelled(auth: string, h: HostCut) {
    auth == UserPart(UserOf(h)) + PrintHost(HostOf(h)) + Before(PortOf(h), ':')
  }

  /** A complete cut is printed as an authority. */
  lemma HostCutIsAuthority(h: HostCut, s: HostState, foundAt: bool)
    requires HostCutAt(h, s, foundAt) && CleanHost(h) && HostAccepts(s)
    ensures HostOk(HostOf(h)) && All(IsUserinfoChar, h.user) && UserDone(h, foundAt)
    ensures Spelled(PrintHostCut(h), h)
    ensures h.colon ==> h.port != "" && Digits(h.port)
  {
    var user := h.user + If(h.at, '@');
    assert UserPart(UserOf(h)) == user;
    HostRegroup(user, If(h.open, '['), h.name, Before(h.zone, '%'), If(h.close, ']'), If(h.colon, ':'), h.port);
    PrintHostOf(h);
  }

  lemma PrintHostOf(h: HostCut)
    requires h.close == h.open && (!h.open ==> h.zone.None?) && (!h.colon ==> h.port == "")
    ensures PrintHost(HostOf(h)) == If(h.open, '[') + h.name + Before(h.zone, '%') + If(h.close, ']')
    ensures Before(PortOf(h), ':') == If(h.colon, ':') + h.port
  {
    if !h.open {
      PlainName(h.name);
    } else {
      Bracketed(h.name, h.zone);
    }
  }

  lemma PlainName(name: string)
    ensures "" + name + "" + "" == name
  {
  }

  lemma Bracketed(name: string, zone: Option<string>)
    ensures PrintHost(Address(name, zone)) == ['['] + name + Before(zone, '%') + [']']
  {
    if zone.Some? {
      assert name + "%" + zone.value == name + (['%'] + zone.value);
    } else {
      assert name + "" == name;
    }
  }

  lemma HostRegroup(u: string, o: string, n: string, z: string, c: string, k: string, p: string)
    ensures u + o + n + z + c + k + p == u + (o + n + z + c) + (k + p)
  {
  }

  /** What an accepted authority consists of. */
  lemma AcceptedAuthority(F: string -> HostScan, off: nat, auth: string, foundAt: bool) returns (h: HostCut)
    requires IsHost(Unbounded, F, off) && HostAccepts(F(auth).s)
    requires F("") == HostScan(if foundAt then UserinfoStart else HostStart, None, Slice(off, 0), None)
    ensures Spelled(auth, h) && HostOk(HostOf(h))
    ensures All(IsUserinfoChar, h.user) && UserDone(h, foundAt) && (h.colon ==> h.port != "" && Digits(h.port))
    ensures F(auth).userinfo.Some? <==> h.user != ""
    ensures F(auth).port == if h.colon then Some(Slice(off + |auth| - |h.port|, |h.port|)) else None
  {
    h := HostCutRun(F, off, auth, foundAt);
    HostCutIsAuthority(h, F(auth).s, foundAt);
  }

  /** The port of an accepted URL is at most 65535. */
  lemma AcceptedPort(buf: string, connect: bool, fields: map<Field, Slice>, port: string)
    requires (forall f | f in fields :: Ends(fields[f], |buf|)) && Finish(buf, connect, fields).Some?
    requires UfPort in fields && SliceText(buf, fields[UfPort]) == port && port != "" && Digits(port)
    ensures PortOk(port)
  {
    PortLoopIsDecimal(port);
  }

  /** The text of the host field of a cut is its authority. */
  lemma AuthorityOfCut(c: Cut, buf: string)
    requires buf == PrintCut(c) && c.marks <= 3
    ensures var off := |c.scheme| + c.marks;
            off + |c.auth| <= |buf| && buf[off..off + |c.auth|] == c.auth
  {
    HoldsSecond(c.scheme + Marks(c.marks), c.auth, c.path, Before(c.query, '?'), Before(c.fragment, '#'));
    assert |Marks(c.marks)| == c.marks;
  }

  lemma HoldsSecond(s: string, a: string, p: string, q: string, f: string)
    ensures Holds(s + a + p + q + f, |s|, a)
  {
    HoldsMiddle(s, a, p + q + f);
    assert s + a + (p + q + f) == s + a + p + q + f;
  }

  /** The text of the port field. */
  lemma PortOfAuthority(buf: string, off: nat, auth: string, front: string, port: string)
    requires off + |auth| <= |buf| && buf[off..off + |auth|] == auth && auth == front + port
    ensures buf[off + |auth| - |port|..off + |auth|] == port
  {
    var a := off + |front|;
    assert auth[|front|..] == port;
    forall i | 0 <= i < |port| ensures buf[a + i] == port[i] {
      assert buf[off..off + |auth|][|front| + i] == auth[|front| + i] == port[i];
    }
  }

  /** The authority at off is accepted with hs, and so is the whole with it. */
  predicate HostGood(buf: string, connect: bool, sc: Scan, off: nat, auth: string, hs: HostScan) {
    && UfUserinfo !in sc.fields && UfPort !in sc.fields && off + |auth| <= |buf| && buf[off..off + |auth|] == auth
    && HostAccepts(hs.s) && AllEnd(WithHost(sc.fields, hs), |buf|) && Finish(buf, connect, WithHost(sc.fields, hs)).Some?
  }

  /** What acceptance means for the scan behind it. */
  predicate ScanAccepted(buf: string, connect: bool, sc: Scan) {
    && buf != "" && sc.s != Dead && (UfSchema in sc.fields ==> UfHost in sc.fields) && AllEnd(sc.fields, |buf|)
    && if UfHost in sc.fields then
         var off, auth := sc.fields[UfHost].off, SliceText(buf, sc.fields[UfHost]);
         HostGood(buf, connect, sc, off, auth, HostAll(Unbounded, sc.foundAt, off, auth))
       else Finish(buf, connect, sc.fields).Some?
  }

  lemma AcceptedScan(buf: string, connect: bool)
    requires TrueParse(buf, connect).Some?
    ensures ScanAccepted(buf, connect, ScanAll(Unbounded, connect, buf))
  {
    ScanAllFields(Unbounded, connect, buf);
  }

  /** What follows for an authority from what it was taken apart into; its port lies at `at`. */
  lemma AuthorityOk(buf: string, connect: bool, sc: Scan, at: nat, hs: HostScan, h: HostCut)
    requires UfUserinfo !in sc.fields && UfPort !in sc.fields
    requires AllEnd(WithHost(sc.fields, hs), |buf|) && Finish(buf, connect, WithHost(sc.fields, hs)).Some?
    requires hs.userinfo.Some? <==> h.user != ""
    requires h.colon ==> h.port != "" && Digits(h.port) && at + |h.port| <= |buf| && buf[at..at + |h.port|] == h.port
    requires hs.port == if h.colon then Some(Slice(at, |h.port|)) else None
    ensures h.colon ==> PortOk(h.port)
    ensures connect ==> h.colon && h.user == ""
    ensures connect ==> UfPath !in sc.fields && UfQuery !in sc.fields && UfFragment !in sc.fields
  {
    InnerKeys(sc.fields, hs);
    if connect { ConnectKeys(buf, WithHost(sc.fields, hs)); }
    if h.colon { AuthorityPortOk(buf, connect, WithHost(sc.fields, hs), at, h.port); }
  }

  lemma AuthorityPortOk(buf: string, connect: bool, fields: map<Field, Slice>, at: nat, port: string)
    requires at + |port| <= |buf| && buf[at..at + |port|] == port && port != "" && Digits(port)
    requires AllEnd(fields, |buf|) && Finish(buf, connect, fields).Some?
    requires UfPort in fields && fields[UfPort] == Slice(at, |port|)
    ensures PortOk(port)
  {
    assert SliceText(buf, fields[UfPort]) == port;
    AcceptedPort(buf, connect, fields, port);
  }

  lemma ConnectKeys(buf: string, fields: map<Field, Slice>)
    requires AllEnd(fields, |buf|) && Finish(buf, true, fields).Some?
    ensures forall f: Field :: f in fields <==> f == UfHost || f == UfPort
  {
    assert fields.Keys == {UfHost, UfPort};
    forall f: Field ensures f in fields <==> f == UfHost || f == UfPort { assert f in fields <==> f in fields.Keys; }
  }

  lemma PortText(buf: string, off: nat, auth: string, h: HostCut)
    requires off + |auth| <= |buf| && buf[off..off + |auth|] == auth && h.colon
    requires Spelled(auth, h)
    ensures |h.port| <= |auth| && buf[off + |auth| - |h.port|..off + |auth|] == h.port
  {
    var user, host := UserPart(UserOf(h)), PrintHost(HostOf(h));
    ColonRegroup(user, host, h.port);
    PortOfAuthority(buf, off, auth, user + host + ":", h.port);
  }

  lemma ColonRegroup(user: string, host: string, port: string)
    ensures user + host + ([':'] + port) == user + host + ":" + port
  {
  }

  lemma AuthorityPort(buf: string, connect: bool, sc: Scan, off: nat, auth: string, hs: HostScan, h: HostCut)
    requires off + |auth| <= |buf| && buf[off..off + |auth|] == auth && UfUserinfo !in sc.fields && UfPort !in sc.fields
    requires AllEnd(WithHost(sc.fields, hs), |buf|) && Finish(buf, connect, WithHost(sc.fields, hs)).Some?
    requires Spelled(auth, h) && (h.colon ==> h.port != "" && Digits(h.port)) && (hs.userinfo.Some? <==> h.user != "")
    requires hs.port == if h.colon then Some(Slice(off + |auth| - |h.port|, |h.port|)) else None
    ensures (h.colon ==> PortOk(h.port)) && (connect ==> h.colon && h.user == "")
    ensures connect ==> UfPath !in sc.fields && UfQuery !in sc.fields && UfFragment !in sc.fields
  {
    if h.colon { PortText(buf, off, auth, h); }
    AuthorityOk(buf, connect, sc, if h.colon then off + |auth| - |h.port| else 0, hs, h);
  }

  lemma AuthorityFrom(F: string -> HostScan, buf: string, connect: bool, sc: Scan, off: nat, auth: string)
    returns (h: HostCut)
    requires IsHost(Unbounded, F, off) && HostAccepts(F(auth).s)
    requires F("") == HostScan(if sc.foundAt then UserinfoStart else HostStart, None, Slice(off, 0), None)
    requires off + |auth| <= |buf| && buf[off..off + |auth|] == auth && UfUserinfo !in sc.fields && UfPort !in sc.fields
    requires AllEnd(WithHost(sc.fields, F(auth)), |buf|) && Finish(buf, connect, WithHost(sc.fields, F(auth))).Some?
    ensures Spelled(auth, h) && HostOk(HostOf(h))
    ensures All(IsUserinfoChar, h.user) && (h.colon ==> PortOk(h.port)) && (connect ==> h.colon && h.user == "")
    ensures connect ==> UfPath !in sc.fields && UfQuery !in sc.fields && UfFragment !in sc.fields
  {
    h := AcceptedAuthority(F, off, auth, sc.foundAt);
    AuthorityPort(buf, connect, sc, off, auth, F(auth), h);
  }

  lemma HostOfAccepted(buf: string, connect: bool, sc: Scan, off: nat, auth: string)
    requires ScanAccepted(buf, connect, sc) && UfHost in sc.fields && sc.fields[UfHost] == Slice(off, |auth|)
    requires off + |auth| <= |buf| && buf[off..off + |auth|] == auth
    ensures HostGood(buf, connect, sc, off, auth, HostAll(Unbounded, sc.foundAt, off, auth))
  {
    assert SliceText(buf, sc.fields[UfHost]) == auth;
  }

  lemma AuthorityOfAccepted(buf: string, connect: bool, c: Cut, sc: Scan, off: nat) returns (hs: HostScan)
    requires ScanAccepted(buf, connect, sc) && c.auth != "" && CutFields(c, sc) && off == |c.scheme| + c.marks
    requires off + |c.auth| <= |buf| && buf[off..off + |c.auth|] == c.auth
    ensures HostGood(buf, connect, sc, off, c.auth, hs) && hs == HostAll(Unbounded, sc.foundAt, off, c.auth)
  {
    assert KeyOk(c, sc.fields, UfHost);
    HostOfAccepted(buf, connect, sc, off, c.auth);
    hs := HostAll(Unbounded, sc.foundAt, off, c.auth);
  }

  lemma AuthorityOfScan(buf: string, connect: bool, c: Cut, sc: Scan, off: nat, hs: HostScan) returns (h: HostCut)
    requires CutFields(c, sc) && HostGood(buf, connect, sc, off, c.auth, hs)
    requires hs == HostAll(Unbounded, sc.foundAt, off, c.auth)
    ensures Spelled(c.auth, h) && HostOk(HostOf(h)) && All(IsUserinfoChar, h.user) && (h.colon ==> PortOk(h.port))
    ensures connect ==> h.colon && h.user == "" && NoFields(c)
  {
    HostAllIsHost(Unbounded, sc.foundAt, off);
    h := AuthorityFrom((t: string) => HostAll(Unbounded, sc.foundAt, off, t), buf, connect, sc, off, c.auth);
    assert KeyOk(c, sc.fields, UfPath) && KeyOk(c, sc.fields, UfQuery) && KeyOk(c, sc.fields, UfFragment);
  }

  /** Nothing after the authority sets a field. */
  predicate NoFields(c: Cut) {
    c.path == "" && Filled(c.query).None? && FragmentText(c.fragment).None?
  }

  lemma InnerKeys(fields: map<Field, Slice>, hs: HostScan)
    requires UfUserinfo !in fields && UfPort !in fields
    ensures UfUserinfo in WithHost(fields, hs) <==> hs.userinfo.Some?
    ensures UfPort in WithHost(fields, hs) <==> hs.port.Some?
    ensures hs.port.Some? ==> WithHost(fields, hs)[UfPort] == hs.port.value
    ensures forall f: Field | f != UfUserinfo && f != UfPort && f != UfHost :: f in WithHost(fields, hs) <==> f in fields
  {
  }

  lemma CutOf(buf: string, connect: bool) returns (c: Cut, sc: Scan)
    requires TrueParse(buf, connect).Some?
    ensures ScanAccepted(buf, connect, sc) && CutGood(c, buf, sc, connect)
  {
    AcceptedScan(buf, connect);
    ScanAllIsScan(Unbounded, connect);
    sc := ScanAll(Unbounded, connect, buf);
    c := CutRun((t: string) => ScanAll(Unbounded, connect, t), buf, connect);
  }

  lemma CutShape(c: Cut, buf: string, sc: Scan, connect: bool)
    requires ScanAccepted(buf, connect, sc) && CutGood(c, buf, sc, connect)
    ensures c.marks <= 3 && (c.scheme != "" ==> c.auth != "") && (connect ==> c.scheme == "")
    ensures c.auth != "" && !connect ==> c.scheme != ""
    ensures var off := |c.scheme| + c.marks; off + |c.auth| <= |buf| && buf[off..off + |c.auth|] == c.auth
  {
    assert KeyOk(c, sc.fields, UfSchema) && KeyOk(c, sc.fields, UfHost);
    AuthorityOfCut(c, buf);
  }

  /** An accepted URL is an absolute one or a target, printed from well-formed parts. */
  datatype Form = Absolute(c: Components) | Origin(t: Target) | Connect(tunnel: Tunnel)

  predicate FormOk(f: Form, connect: bool) {
    match f
    case Absolute(c) => !connect && Ok(c)
    case Origin(t) => !connect && TargetOk(t)
    case Connect(t) => connect && TunnelOk(t)
  }

  function PrintForm(f: Form): string {
    match f
    case Absolute(c) => Print(c)
    case Origin(t) => PrintTarget(t)
    case Connect(t) => PrintTunnel(t)
  }

  function FormUrl(f: Form, connect: bool): Url
    requires FormOk(f, connect)
  {
    match f
    case Absolute(c) => Url(if c.port.Some? then Decimal(c.port.value) else 0, Expected(c))
    case Origin(t) => Url(0, TargetFields(t))
    case Connect(t) => Url(Decimal(t.port), TunnelFields(t))
  }

  /** What an accepted input is made of; h is the authority, if there is one. */
  ghost predicate MadeOf(buf: string, connect: bool, c: Cut, h: HostCut, s: State) {
    && buf == PrintCut(c) && CutAt(c, s, connect) && CleanCut(c)
    && if c.auth == "" then !connect && c.scheme == "" && buf != ""
       else
         && (connect || c.scheme != "") && Spelled(c.auth, h) && HostOk(HostOf(h)) && All(IsUserinfoChar, h.user)
         && (h.colon ==> PortOk(h.port)) && (connect ==> h.colon && h.user == "" && NoFields(c))
  }

  lemma PartsOf(buf: string, connect: bool) returns (c: Cut, h: HostCut, s: State)
    requires TrueParse(buf, connect).Some?
    ensures MadeOf(buf, connect, c, h, s)
  {
    var sc: Scan;
    c, sc := CutOf(buf, connect);
    s := sc.s;
    h := MadeOfCut(buf, connect, c, sc);
  }

  lemma MadeOfCut(buf: string, connect: bool, c: Cut, sc: Scan) returns (h: HostCut)
    requires ScanAccepted(buf, connect, sc) && CutGood(c, buf, sc, connect)
    ensures MadeOf(buf, connect, c, h, sc.s)
  {
    if c.auth == "" {
      h := HostCut("", false, false, "", None, false, false, "");
      MadeOfNone(buf, connect, c, h, sc);
    } else {
      h := MadeOfSome(buf, connect, c, sc);
    }
  }

  lemma MadeOfNone(buf: string, connect: bool, c: Cut, h: HostCut, sc: Scan)
    requires ScanAccepted(buf, connect, sc) && CutGood(c, buf, sc, connect) && c.auth == ""
    ensures MadeOf(buf, connect, c, h, sc.s)
  {
    CutShape(c, buf, sc, connect);
    NoAuthority(buf, connect, c, sc);
  }

  lemma MadeOfSome(buf: string, connect: bool, c: Cut, sc: Scan) returns (h: HostCut)
    requires ScanAccepted(buf, connect, sc) && CutGood(c, buf, sc, connect) && c.auth != ""
    ensures MadeOf(buf, connect, c, h, sc.s)
  {
    CutShape(c, buf, sc, connect);
    var hs := AuthorityOfAccepted(buf, connect, c, sc, |c.scheme| + c.marks);
    h := MadeOfHost(buf, connect, c, sc, |c.scheme| + c.marks, hs);
  }

  lemma MadeOfHost(buf: string, connect: bool, c: Cut, sc: Scan, off: nat, hs: HostScan) returns (h: HostCut)
    requires HostGood(buf, connect, sc, off, c.auth, hs) && hs == HostAll(Unbounded, sc.foundAt, off, c.auth)
    requires CutGood(c, buf, sc, connect)
    requires c.auth != "" && (connect || c.scheme != "")
    ensures MadeOf(buf, connect, c, h, sc.s)
  {
    h := AuthorityOfScan(buf, connect, c, sc, off, hs);
    MadeOfAuthority(buf, connect, c, h, sc.s);
  }

  lemma MadeOfAuthority(buf: string, connect: bool, c: Cut, h: HostCut, s: State)
    requires buf == PrintCut(c) && CutAt(c, s, connect) && CleanCut(c) && c.auth != "" && (connect || c.scheme != "")
    requires Spelled(c.auth, h) && HostOk(HostOf(h)) && All(IsUserinfoChar, h.user)
    requires (h.colon ==> PortOk(h.port)) && (connect ==> h.colon && h.user == "" && NoFields(c))
    ensures MadeOf(buf, connect, c, h, s)
  {
  }

  lemma NoAuthority(buf: string, connect: bool, c: Cut, sc: Scan)
    requires ScanAccepted(buf, connect, sc) && CutFields(c, sc) && c.auth == ""
    ensures !connect
  {
    assert KeyOk(c, sc.fields, UfHost);
    if connect {
      HostForConnect(buf, sc.fields);
      assert false;
    }
  }

  /** Every accepted input is printed from well-formed parts. */
  lemma AcceptedIsPrinted(buf: string, connect: bool) returns (f: Form)
    requires TrueParse(buf, connect).Some?
    ensures FormOk(f, connect) && PrintForm(f) == buf
  {
    var c, h, s := PartsOf(buf, connect);
    f := FormOf(buf, connect, c, h, s);
  }

  lemma FormOf(buf: string, connect: bool, c: Cut, h: HostCut, s: State) returns (f: Form)
    requires MadeOf(buf, connect, c, h, s)
    ensures FormOk(f, connect) && PrintForm(f) == buf
  {
    if c.auth == "" {
      OriginCut(c, s);
      f := Origin(Target(c.path, c.query, c.fragment));
    } else if connect {
      f := ConnectForm(c, h, s);
    } else {
      f := AbsoluteForm(c, h, s);
    }
  }

  lemma HostForConnect(buf: string, fields: map<Field, Slice>)
    requires (forall f | f in fields :: Ends(fields[f], |buf|)) && Finish(buf, true, fields).Some?
    ensures UfHost in fields
  {
  }

  lemma OriginCut(c: Cut, s: State)
    requires CutAt(c, s, false) && CleanCut(c) && c.auth == "" && c.scheme == "" && PrintCut(c) != ""
    ensures TargetOk(Target(c.path, c.query, c.fragment)) && PrintTarget(Target(c.path, c.query, c.fragment)) == PrintCut(c)
  {
    PrintShort(c);
    OriginMarks(c, s);
    OriginPrint(c.path, Before(c.query, '?'), Before(c.fragment, '#'));
  }

  lemma OriginMarks(c: Cut, s: State)
    requires CutAt(c, s, false) && c.auth == "" && c.scheme == ""
    ensures c.marks == 0 && (c == Cut("", 0, "", "", None, None) || c.path != "")
    ensures c.path != "" ==> (c.path[0] == '/' || c.path[0] == '*')
    ensures c.fragment.Some? ==> c.path != "" || c.query.Some?
  {
  }

  lemma OriginPrint(p: string, q: string, f: string)
    ensures "" + "" + "" + p + q + f == p + q + f
  {
  }

  lemma AbsoluteForm(c: Cut, h: HostCut, s: State) returns (f: Form)
    requires CutAt(c, s, false) && CleanCut(c) && c.auth != "" && c.scheme != ""
    requires Spelled(c.auth, h) && HostOk(HostOf(h))
    requires All(IsUserinfoChar, h.user) && (h.colon ==> PortOk(h.port))
    ensures FormOk(f, false) && PrintForm(f) == PrintCut(c)
  {
    f := Absolute(Components(c.scheme, UserOf(h), HostOf(h), PortOf(h), c.path, c.query, c.fragment));
  }

  lemma ConnectForm(c: Cut, h: HostCut, s: State) returns (f: Form)
    requires CutAt(c, s, true) && CleanCut(c) && c.auth != "" && NoFields(c)
    requires Spelled(c.auth, h) && HostOk(HostOf(h))
    requires h.user == "" && h.colon && PortOk(h.port)
    ensures FormOk(f, true) && PrintForm(f) == PrintCut(c)
  {
    var t := Tunnel(UserOf(h), HostOf(h), h.port, c.query, c.fragment);
    PrintConnectCut(c);
    assert TunnelAuthority(t) == c.auth;
    assert TunnelOk(t) by { ConnectTail(c, s); }
    f := Connect(t);
  }

  lemma PrintConnectCut(c: Cut)
    requires c.scheme == "" && c.marks == 0 && c.path == ""
    ensures PrintCut(c) == c.auth + Before(c.query, '?') + Before(c.fragment, '#')
  {
    assert "" + "" + c.auth + "" == c.auth;
  }

  lemma ConnectTail(c: Cut, s: State)
    requires CutAt(c, s, true) && CleanCut(c) && NoFields(c)
    ensures TailOk("", c.query, c.fragment)
  {
  }

  /**
    The language of the parser, for inputs of every length: without the casts to 16 bits it accepts exactly what is printed
    from well-formed parts, and then finds exactly those parts.
  */
  lemma AcceptsExactly(buf: string, connect: bool)
    ensures TrueParse(buf, connect).Some? <==> exists f: Form :: FormOk(f, connect) && PrintForm(f) == buf
    ensures forall f: Form | FormOk(f, connect) && PrintForm(f) == buf :: TrueParse(buf, connect) == Some(FormUrl(f, connect))
  {
    if TrueParse(buf, connect).Some? { var f := AcceptedIsPrinted(buf, connect); }
    forall f: Form | FormOk(f, connect) && PrintForm(f) == buf ensures TrueParse(buf, connect) == Some(FormUrl(f, connect)) {
      FormParsed(f, connect);
    }
  }

  lemma FormParsed(f: Form, connect: bool)
    requires FormOk(f, connect)
    ensures TrueParse(PrintForm(f), connect) == Some(FormUrl(f, connect))
  {
    match f
    case Absolute(c) => TrueParsePrint(c);
    case Origin(t) => TargetParsed(t);
    case Connect(t) => TrueParseTunnel(t);
  }
}
