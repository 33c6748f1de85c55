/** On success the parser has cut its input into ordered, nonempty, disjoint fields with only delimiters between them. */
module UrlLayout {
  import opened Basics
  import opened Text
  import opened UrlParser

  /** The order in which fields occur in a URL. */
  function Rank(f: Field): nat {
    match f
    case UfSchema => 0
    case UfUserinfo => 1
    case UfHost => 2
    case UfPort => 3
    case UfPath => 4
    case UfQuery => 5
    case UfFragment => 6
  }

  predicate IsDelimiter(c: char) {
    c == ':' || c == '/' || c == '@' || c == '[' || c == ']' || c == '?' || c == '#'
  }

  // The quantified bodies below are named so that proofs instantiate them one by one.

  predicate InOrder(fields: map<Field, Slice>, f: Field, g: Field) {
    f in fields && g in fields && Rank(f) < Rank(g) ==> fields[f].off + fields[f].len <= fields[g].off
  }

  ghost predicate Ordered(fields: map<Field, Slice>) {
    forall f: Field, g: Field :: InOrder(fields, f, g)
  }

  predicate Covers(fields: map<Field, Slice>, f: Field, i: nat) {
    f in fields && fields[f].off <= i < fields[f].off + fields[f].len
  }

  ghost predicate InField(fields: map<Field, Slice>, i: nat) {
    exists f: Field :: Covers(fields, f, i)
  }

  predicate Bounded(fields: map<Field, Slice>, f: Field, lo: nat, hi: nat) {
    f in fields ==> 1 <= fields[f].len && lo <= fields[f].off && fields[f].off + fields[f].len <= hi
  }

  ghost predicate Nonempty(fields: map<Field, Slice>, lo: nat, hi: nat) {
    forall f: Field :: Bounded(fields, f, lo, hi)
  }

  ghost predicate CoveredAt(fields: map<Field, Slice>, lo: nat, text: string, i: nat) {
    i < |text| ==> InField(fields, lo + i) || IsDelimiter(text[i])
  }

  ghost predicate Covered(fields: map<Field, Slice>, lo: nat, text: string) {
    forall i: nat :: CoveredAt(fields, lo, text, i)
  }

  /** Fields cut text, which starts at offset lo, and leave only delimiters over. */
  ghost predicate WellLaid(fields: map<Field, Slice>, lo: nat, text: string) {
    Nonempty(fields, lo, lo + |text|) && Ordered(fields) && Covered(fields, lo, text)
  }

  predicate UpTo(fields: map<Field, Slice>, f: Field, cur: Field) {
    f in fields ==> Rank(f) <= Rank(cur)
  }

  predicate Below(fields: map<Field, Slice>, f: Field, next: nat) {
    f in fields ==> Rank(f) < next
  }

  /** Where a scan stands: in the field cur, which ends here, or between fields, where the next one has rank >= next. */
  ghost predicate At(fields: map<Field, Slice>, here: nat, cur: Option<Field>, next: nat) {
    if cur.Some? then
      && cur.value in fields && fields[cur.value].off + fields[cur.value].len == here
      && forall f: Field :: UpTo(fields, f, cur.value)
    else forall f: Field :: Below(fields, f, next)
  }

  ghost predicate Laid(fields: map<Field, Slice>, lo: nat, text: string, cur: Option<Field>, next: nat) {
    WellLaid(fields, lo, text) && At(fields, lo + |text|, cur, next)
  }

  /** What lies in a field still does when fields only grow. */
  predicate Kept(fields: map<Field, Slice>, fields': map<Field, Slice>, f: Field) {
    f in fields ==> f in fields' && fields'[f].off == fields[f].off && fields[f].len <= fields'[f].len
  }

  lemma CoveredGrows(fields: map<Field, Slice>, fields': map<Field, Slice>, lo: nat, text: string, ch: char)
    requires Covered(fields, lo, text) && (forall f: Field :: Kept(fields, fields', f))
    requires InField(fields', lo + |text|) || IsDelimiter(ch)
    ensures Covered(fields', lo, text + [ch])
  {
    forall i: nat ensures CoveredAt(fields', lo, text + [ch], i) {
      if i < |text| {
        assert CoveredAt(fields, lo, text, i);
        if InField(fields, lo + i) {
          var f: Field :| Covers(fields, f, lo + i);
          assert Kept(fields, fields', f) && Covers(fields', f, lo + i);
        }
      }
    }
  }

  lemma LaidSkip(fields: map<Field, Slice>, lo: nat, text: string, cur: Option<Field>, next: nat, ch: char, next': nat)
    requires Laid(fields, lo, text, cur, next) && IsDelimiter(ch)
    requires if cur.Some? then Rank(cur.value) < next' else next <= next'
    ensures Laid(fields, lo, text + [ch], None, next')
  {
    CoveredGrows(fields, fields, lo, text, ch);
    BoundedGrows(fields, lo, text, ch);
    forall f: Field ensures Below(fields, f, next') {
      assert cur.Some? ==> UpTo(fields, f, cur.value);
      assert cur.None? ==> Below(fields, f, next);
    }
  }

  lemma BoundedGrows(fields: map<Field, Slice>, lo: nat, text: string, ch: char)
    requires Nonempty(fields, lo, lo + |text|)
    ensures Nonempty(fields, lo, lo + |text + [ch]|)
  {
    var hi := lo + |text + [ch]|;
    forall f: Field ensures Bounded(fields, f, lo, hi) {
      assert Bounded(fields, f, lo, lo + |text|);
    }
  }

  /** Setting field f to a slice that ends at hi. */
  lemma BoundedSet(fields: map<Field, Slice>, f: Field, slice: Slice, lo: nat, hi: nat)
    requires Nonempty(fields, lo, hi) && 1 <= slice.len && lo <= slice.off && slice.off + slice.len <= hi
    ensures Nonempty(fields[f := slice], lo, hi)
  {
    var fields' := fields[f := slice];
    forall g: Field ensures Bounded(fields', g, lo, hi) {
      assert Bounded(fields, g, lo, hi);
    }
  }

  lemma LaidGrow(fields: map<Field, Slice>, lo: nat, text: string, f: Field, next: nat, ch: char, next': nat)
    requires Laid(fields, lo, text, Some(f), next)
    ensures Laid(Longer(fields, f), lo, text + [ch], Some(f), next')
  {
    var fields' := Longer(fields, f);
    assert Bounded(fields, f, lo, lo + |text|);
    assert Covers(fields', f, lo + |text|);
    CoveredGrows(fields, fields', lo, text, ch);
    BoundedGrows(fields, lo, text, ch);
    BoundedSet(fields, f, fields'[f], lo, lo + |text + [ch]|);
    forall g: Field ensures UpTo(fields', g, f) { assert UpTo(fields, g, f); }
    forall g: Field, h: Field ensures InOrder(fields', g, h) {
      assert InOrder(fields, g, h) && UpTo(fields, h, f);
    }
  }

  lemma LaidOpen(fields: map<Field, Slice>, lo: nat, text: string, cur: Option<Field>, next: nat, ch: char,
                 f: Field, next': nat)
    requires Laid(fields, lo, text, cur, next)
    requires if cur.Some? then Rank(cur.value) < Rank(f) else next <= Rank(f)
    ensures Laid(fields[f := Slice(lo + |text|, 1)], lo, text + [ch], Some(f), next')
  {
    var slice := Slice(lo + |text|, 1);
    var fields' := fields[f := slice];
    forall g: Field ensures Below(fields, g, Rank(f)) {
      assert cur.Some? ==> UpTo(fields, g, cur.value);
      assert cur.None? ==> Below(fields, g, next);
    }
    assert Below(fields, f, Rank(f));
    assert Covers(fields', f, lo + |text|);
    CoveredGrows(fields, fields', lo, text, ch);
    BoundedGrows(fields, lo, text, ch);
    BoundedSet(fields, f, slice, lo, lo + |text + [ch]|);
    forall g: Field ensures UpTo(fields', g, f) { assert Below(fields, g, Rank(f)); }
    forall g: Field, h: Field ensures InOrder(fields', g, h) {
      assert InOrder(fields, g, h) && Below(fields, h, Rank(f)) && Bounded(fields, g, lo, lo + |text|);
    }
  }

  function Longer(fields: map<Field, Slice>, f: Field): map<Field, Slice>
    requires f in fields
  {
    fields[f := fields[f].(len := fields[f].len + 1)]
  }

  /** A move from a position in or after cur to one in or after uf: forward, and over a delimiter if uf is None. */
  predicate Forward(cur: Option<Field>, next: nat, uf: Option<Field>, next': nat, ch: char) {
    if uf.None? then IsDelimiter(ch) && if cur.Some? then Rank(cur.value) < next' else next <= next'
    else uf == cur || if cur.Some? then Rank(cur.value) < Rank(uf.value) else next <= Rank(uf.value)
  }

  /** The fields after one forward move. */
  function Moved(fields: map<Field, Slice>, cur: Option<Field>, uf: Option<Field>, pos: nat): map<Field, Slice>
    requires cur.Some? ==> cur.value in fields
  {
    if uf.None? then fields
    else if uf == cur then Longer(fields, uf.value)
    else fields[uf.value := Slice(pos, 1)]
  }

  lemma StepLaid(fields: map<Field, Slice>, lo: nat, text: string, cur: Option<Field>, next: nat,
                 uf: Option<Field>, next': nat, ch: char)
    requires Laid(fields, lo, text, cur, next) && Forward(cur, next, uf, next', ch)
    ensures Laid(Moved(fields, cur, uf, lo + |text|), lo, text + [ch], uf, next')
  {
    if uf.None? {
      LaidSkip(fields, lo, text, cur, next, ch, next');
    } else if uf == cur {
      LaidGrow(fields, lo, text, uf.value, next, ch, next');
    } else {
      LaidOpen(fields, lo, text, cur, next, ch, uf.value, next');
    }
  }

  // ---------------------------------------------------------------- the first loop

  /** The lowest rank that may follow a delimiter state. */
  function NextRank(s: State): nat {
    match s
    case SchemaSlash | SchemaSlashSlash | ServerStart => 2
    case QueryStart => 5
    case FragmentStart => 6
    case _ => 0
  }

  /** Every transition of the URL machine moves forward through the fields. */
  lemma UrlCharForward(s: State, ch: char)
    requires UrlChar(s, ch) != Dead
    ensures var s' := UrlChar(s, ch); s' != BeforeUrl && Forward(FieldOf(s), NextRank(s), FieldOf(s'), NextRank(s'), ch)
  {
  }

  ghost predicate ScanLaid(t: string, sc: Scan) {
    && Laid(sc.fields, 0, t, FieldOf(sc.s), NextRank(sc.s))
    && (sc.last.Some? ==> sc.last.value in sc.fields)
    && (FieldOf(sc.s).Some? ==> sc.last == FieldOf(sc.s))
    && UfUserinfo !in sc.fields && UfPort !in sc.fields
  }

  /** What Record does to the fields, when nothing has outgrown 16 bits. */
  lemma RecordFields(sc: Scan, s': State, pos: nat, ch: char)
    requires sc.last.Some? ==> sc.last.value in sc.fields
    requires FieldOf(sc.s).Some? ==> sc.last == FieldOf(sc.s)
    requires At(sc.fields, pos, FieldOf(sc.s), NextRank(sc.s))
    requires Forward(FieldOf(sc.s), NextRank(sc.s), FieldOf(s'), NextRank(s'), ch)
    ensures var r, uf := Record(Unbounded, sc, s', pos), FieldOf(s');
            && r.s == s'
            && r.last == (if uf.None? then sc.last else uf)
            && r.fields == Moved(sc.fields, FieldOf(sc.s), uf, pos)
  {
    if FieldOf(sc.s).None? && sc.last.Some? {
      assert Below(sc.fields, sc.last.value, NextRank(sc.s));
    }
  }

  lemma RecordLaid(t: string, sc: Scan, s': State, ch: char)
    requires ScanLaid(t, sc)
    requires Forward(FieldOf(sc.s), NextRank(sc.s), FieldOf(s'), NextRank(s'), ch)
    ensures ScanLaid(t + [ch], Record(Unbounded, sc, s', |t|))
  {
    var cur, uf := FieldOf(sc.s), FieldOf(s');
    RecordFields(sc, s', |t|, ch);
    StepLaid(sc.fields, 0, t, cur, NextRank(sc.s), uf, NextRank(s'), ch);
    ScanLaidFrom(t + [ch], Record(Unbounded, sc, s', |t|), Moved(sc.fields, cur, uf, |t|));
  }

  lemma ScanLaidFrom(t: string, sc: Scan, fields: map<Field, Slice>)
    requires fields == sc.fields && Laid(fields, 0, t, FieldOf(sc.s), NextRank(sc.s))
    requires sc.last.Some? ==> sc.last.value in fields
    requires FieldOf(sc.s).Some? ==> sc.last == FieldOf(sc.s)
    requires UfUserinfo !in fields && UfPort !in fields
    ensures ScanLaid(t, sc)
  {
  }

  lemma {:induction false} ScanRunLaid(G: string -> Scan, t: string)
    requires IsScan(Unbounded, G) && G(t).s != Dead && G("").last.None? && G("").fields == map[]
    requires G("").s == BeforeUrl || G("").s == ServerStart
    ensures ScanLaid(t, G(t))
  {
    if t != "" {
      var front, ch := t[..|t| - 1], t[|t| - 1];
      assert t == front + [ch] && ScanTurn(Unbounded, G, front, ch);
      ScanRunLaid(G, front);
      UrlCharForward(G(front).s, ch);
      RecordLaid(front, G(front), UrlChar(G(front).s, ch), ch);
    }
  }

  lemma ScanAllLaid(isConnect: bool, t: string)
    requires ScanAll(Unbounded, isConnect, t).s != Dead
    ensures ScanLaid(t, ScanAll(Unbounded, isConnect, t))
  {
    ScanAllIsScan(Unbounded, isConnect);
    ScanRunLaid((t: string) => ScanAll(Unbounded, isConnect, t), t);
  }

  // ---------------------------------------------------------------- http_parse_host

  function HostField(s: HostState): Option<Field> {
    match s
    case Userinfo => Some(UfUserinfo)
    case RegName | V6 | ZoneStart | Zone => Some(UfHost)
    case Port => Some(UfPort)
    case _ => None
  }

  function HostNext(s: HostState): nat {
    match s
    case UserinfoStart => 1
    case HostStart | V6Start => 2
    case V6End | PortStart => 3
    case _ => 0
  }

  /** The slices recorded so far; the host counts once it has a character. */
  function HostMap(hs: HostScan): map<Field, Slice> {
    var m0: map<Field, Slice> := if hs.host.len > 0 then map[UfHost := hs.host] else map[];
    var m1 := if hs.userinfo.Some? then m0[UfUserinfo := hs.userinfo.value] else m0;
    if hs.port.Some? then m1[UfPort := hs.port.value] else m1
  }

  lemma HostCharForward(s: HostState, ch: char)
    requires HostChar(s, ch) != HDead
    ensures var s' := HostChar(s, ch);
            Forward(HostField(s), HostNext(s), HostField(s'), HostNext(s'), ch) && HostMoves(s, s')
  {
  }

  /** The moves of the host machine that matter to the bookkeeping: the host is read once, before the port. */
  predicate HostMoves(s: HostState, s': HostState) {
    && (s' == RegName ==> s == RegName || s == HostStart)
    && (s' == V6 ==> s == V6 || s == V6Start)
    && (s' == ZoneStart ==> s == V6)
    && (s' == Zone ==> s == Zone || s == ZoneStart)
    && (s' == V6End || s' == PortStart || s' == Port ==> PastHost(s))
    && (s' == HostStart || s' == V6Start || s' == Userinfo || s' == UserinfoStart ==> !PastHost(s))
  }

  /** States from which the host is known to have been read, or is being read. */
  predicate PastHost(s: HostState) {
    s == RegName || s == V6 || s == ZoneStart || s == Zone || s == V6End || s == PortStart || s == Port
  }

  ghost predicate HostLaid(off: nat, t: string, hs: HostScan) {
    && Laid(HostMap(hs), off, t, HostField(hs.s), HostNext(hs.s))
    && (PastHost(hs.s) <==> hs.host.len > 0)
  }

  lemma HostRecordPast(hs: HostScan, s': HostState, pos: nat)
    requires HostScanOk(hs, pos) && HostMoves(hs.s, s') && s' != HDead
    requires PastHost(hs.s) <==> hs.host.len > 0
    ensures var hs' := HostRecord(Unbounded, hs, s', pos); hs'.s == s' && (PastHost(s') <==> hs'.host.len > 0)
  {
  }

  /** The slice hs has for one of its three fields. */
  function SliceOf(hs: HostScan, f: Field): Slice {
    match f
    case UfHost => hs.host
    case UfPort => if hs.port.Some? then hs.port.value else Slice(0, 0)
    case _ => if hs.userinfo.Some? then hs.userinfo.value else Slice(0, 0)
  }

  function WithSlice(hs: HostScan, s': HostState, f: Field, slice: Slice): HostScan {
    match f
    case UfHost => hs.(s := s', host := slice)
    case UfPort => hs.(s := s', port := Some(slice))
    case _ => hs.(s := s', userinfo := Some(slice))
  }

  /** HostRecord changes one slice: the current field grows by one or a new field begins at pos. */
  lemma HostRecordIs(hs: HostScan, s': HostState, pos: nat)
    requires HostScanOk(hs, pos) && HostMoves(hs.s, s') && s' != HDead
    requires (PastHost(hs.s) <==> hs.host.len > 0) && HostField(s').Some?
    requires HostField(s') != HostField(hs.s) ==> HostField(s').value !in HostMap(hs)
    ensures var f := HostField(s').value;
            var was := SliceOf(hs, f);
            var slice := if HostField(hs.s) == Some(f) then was.(len := was.len + 1) else Slice(pos, 1);
            HostRecord(Unbounded, hs, s', pos) == WithSlice(hs, s', f, slice)
  {
  }

  /** So on the recorded slices it is a move. */
  lemma HostRecordMap(hs: HostScan, s': HostState, pos: nat)
    requires HostScanOk(hs, pos) && HostMoves(hs.s, s') && s' != HDead
    requires PastHost(hs.s) <==> hs.host.len > 0
    requires HostField(s').Some? && HostField(s') != HostField(hs.s) ==> HostField(s').value !in HostMap(hs)
    ensures HostField(hs.s).Some? ==> HostField(hs.s).value in HostMap(hs)
    ensures HostMap(HostRecord(Unbounded, hs, s', pos)) == Moved(HostMap(hs), HostField(hs.s), HostField(s'), pos)
  {
    var cur, uf := HostField(hs.s), HostField(s');
    if cur.Some? { HostMapHas(hs, cur.value); }
    if uf.Some? {
      var f := uf.value;
      HostRecordIs(hs, s', pos);
      HostMapUpdates(hs, s', f, if cur == uf then SliceOf(hs, f).(len := SliceOf(hs, f).len + 1) else Slice(pos, 1));
    }
  }

  lemma HostMapHas(hs: HostScan, f: Field)
    requires HostField(hs.s) == Some(f) && (PastHost(hs.s) ==> hs.host.len > 0)
    requires (hs.s == Userinfo ==> hs.userinfo.Some?) && (hs.s == Port ==> hs.port.Some?)
    ensures f in HostMap(hs) && HostMap(hs)[f] == SliceOf(hs, f)
  {
  }

  lemma HostMapUpdates(hs: HostScan, s': HostState, f: Field, slice: Slice)
    requires slice.len > 0 && (f == UfUserinfo || f == UfHost || f == UfPort)
    ensures HostMap(WithSlice(hs, s', f, slice)) == HostMap(hs)[f := slice]
  {
  }

  lemma HostRecordLaid(off: nat, t: string, hs: HostScan, s': HostState, ch: char)
    requires HostScanOk(hs, off + |t|) && HostLaid(off, t, hs) && s' != HDead
    requires Forward(HostField(hs.s), HostNext(hs.s), HostField(s'), HostNext(s'), ch) && HostMoves(hs.s, s')
    ensures HostLaid(off, t + [ch], HostRecord(Unbounded, hs, s', off + |t|))
  {
    OpensOnce(HostMap(hs), off + |t|, HostField(hs.s), HostNext(hs.s), HostField(s'), HostNext(s'), ch);
    HostRecordMap(hs, s', off + |t|);
    HostRecordPast(hs, s', off + |t|);
    HostMoveLaid(off, t, HostMap(hs), hs.s, HostRecord(Unbounded, hs, s', off + |t|), ch);
  }

  lemma HostMoveLaid(off: nat, t: string, m: map<Field, Slice>, s: HostState, hs': HostScan, ch: char)
    requires Laid(m, off, t, HostField(s), HostNext(s)) && (PastHost(hs'.s) <==> hs'.host.len > 0)
    requires Forward(HostField(s), HostNext(s), HostField(hs'.s), HostNext(hs'.s), ch)
    requires HostMap(hs') == Moved(m, HostField(s), HostField(hs'.s), off + |t|)
    ensures HostLaid(off, t + [ch], hs')
  {
    StepLaid(m, off, t, HostField(s), HostNext(s), HostField(hs'.s), HostNext(hs'.s), ch);
  }

  /** A field that a forward move opens was not there before. */
  lemma OpensOnce(fields: map<Field, Slice>, here: nat, cur: Option<Field>, next: nat,
                  uf: Option<Field>, next': nat, ch: char)
    requires At(fields, here, cur, next) && Forward(cur, next, uf, next', ch)
    ensures uf.Some? && uf != cur ==> uf.value !in fields
  {
    if uf.Some? && uf != cur {
      assert cur.Some? ==> UpTo(fields, uf.value, cur.value);
      assert cur.None? ==> Below(fields, uf.value, next);
    }
  }

  lemma HostStepLaid(off: nat, t: string, hs: HostScan, ch: char)
    requires HostScanOk(hs, off + |t|) && HostLaid(off, t, hs) && HostChar(hs.s, ch) != HDead
    ensures HostLaid(off, t + [ch], HostStep(Unbounded, hs, ch, off + |t|))
  {
    HostCharForward(hs.s, ch);
    HostRecordLaid(off, t, hs, HostChar(hs.s, ch), ch);
  }

  lemma HostDies(hs: HostScan, ch: char, pos: nat)
    requires HostScanOk(hs, pos)
    ensures HostStep(Unbounded, hs, ch, pos).s == HostChar(hs.s, ch)
  {
  }

  /** Nothing is recorded at the start of the authority. */
  predicate HostBegins(hs: HostScan, off: nat) {
    (hs.s == UserinfoStart || hs.s == HostStart) && hs.userinfo.None? && hs.host == Slice(off, 0) && hs.port.None?
  }

  lemma HostBeginsLaid(hs: HostScan, off: nat)
    requires HostBegins(hs, off)
    ensures HostLaid(off, "", hs)
  {
    assert HostMap(hs) == map[];
  }

  lemma HostTurnLaid(F: string -> HostScan, off: nat, front: string, ch: char)
    requires HostTurnOk(Unbounded, F, off, front, ch) && F(front + [ch]).s != HDead
    ensures F(front).s != HDead
    ensures HostLaid(off, front, F(front)) ==> HostLaid(off, front + [ch], F(front + [ch]))
  {
    HostDies(F(front), ch, off + |front|);
    if HostLaid(off, front, F(front)) { HostStepLaid(off, front, F(front), ch); }
  }

  lemma {:induction false} HostRunLaid(F: string -> HostScan, off: nat, t: string)
    requires IsHost(Unbounded, F, off) && HostBegins(F(""), off) && F(t).s != HDead
    ensures HostLaid(off, t, F(t))
  {
    if t == "" {
      HostBeginsLaid(F(t), off);
    } else {
      var front, ch := t[..|t| - 1], t[|t| - 1];
      assert t == front + [ch] && HostTurnOk(Unbounded, F, off, front, ch);
      HostTurnLaid(F, off, front, ch);
      HostRunLaid(F, off, front);
    }
  }

  lemma HostAllLaid(foundAt: bool, off: nat, t: string)
    requires HostAll(Unbounded, foundAt, off, t).s != HDead
    ensures HostLaid(off, t, HostAll(Unbounded, foundAt, off, t))
  {
    HostAllIsHost(Unbounded, foundAt, off);
    HostRunLaid((t: string) => HostAll(Unbounded, foundAt, off, t), off, t);
  }

  // ---------------------------------------------------------------- the whole parse

  /** Inner fields are userinfo, host and port. */
  predicate InnerRank(inner: map<Field, Slice>, f: Field) {
    f in inner ==> 1 <= Rank(f) <= 3
  }

  /** Replacing the host field by what http_parse_host found inside it keeps the layout. */
  lemma SpliceOrdered(fields: map<Field, Slice>, inner: map<Field, Slice>, all: map<Field, Slice>)
    requires Ordered(fields) && UfHost in fields && UfUserinfo !in fields && UfPort !in fields
    requires Nonempty(inner, fields[UfHost].off, fields[UfHost].off + fields[UfHost].len) && Ordered(inner)
    requires forall f: Field :: InnerRank(inner, f)
    requires UfHost in inner && all == fields + inner
    ensures Ordered(all)
  {
    var host := fields[UfHost];
    forall f: Field, g: Field ensures InOrder(all, f, g) {
      assert InnerRank(inner, f) && InnerRank(inner, g);
      assert InOrder(inner, f, g) && InOrder(fields, f, g);
      assert InOrder(fields, UfHost, g) && InOrder(fields, f, UfHost);
      assert Bounded(inner, f, host.off, host.off + host.len) && Bounded(inner, g, host.off, host.off + host.len);
    }
  }

  lemma SpliceNonempty(fields: map<Field, Slice>, inner: map<Field, Slice>, all: map<Field, Slice>, n: nat)
    requires Nonempty(fields, 0, n) && UfHost in fields
    requires Nonempty(inner, fields[UfHost].off, fields[UfHost].off + fields[UfHost].len)
    requires all == fields + inner
    ensures Nonempty(all, 0, n)
  {
    var host := fields[UfHost];
    forall f: Field ensures Bounded(all, f, 0, n) {
      assert Bounded(fields, f, 0, n) && Bounded(fields, UfHost, 0, n);
      assert Bounded(inner, f, host.off, host.off + host.len);
    }
  }

  /** A byte inside the old host field is covered by the inner fields. */
  lemma SpliceInside(fields: map<Field, Slice>, inner: map<Field, Slice>, all: map<Field, Slice>, buf: string, i: nat)
    requires UfHost in fields && Ends(fields[UfHost], |buf|)
    requires Covered(inner, fields[UfHost].off, SliceText(buf, fields[UfHost])) && all == fields + inner
    requires fields[UfHost].off <= i < fields[UfHost].off + fields[UfHost].len
    ensures CoveredAt(all, 0, buf, i)
  {
    var host := fields[UfHost];
    var j := i - host.off;
    assert CoveredAt(inner, host.off, SliceText(buf, host), j);
    assert SliceText(buf, host)[j] == buf[i] && host.off + j == i;
    if InField(inner, i) {
      var f: Field :| Covers(inner, f, i);
      assert Covers(all, f, i);
    }
  }

  /** A byte outside the old host field is covered as before. */
  lemma SpliceOutside(fields: map<Field, Slice>, inner: map<Field, Slice>, all: map<Field, Slice>, buf: string, i: nat)
    requires Covered(fields, 0, buf) && UfHost in fields && UfUserinfo !in fields && UfPort !in fields
    requires (forall f: Field :: InnerRank(inner, f)) && all == fields + inner
    requires !(fields[UfHost].off <= i < fields[UfHost].off + fields[UfHost].len)
    ensures CoveredAt(all, 0, buf, i)
  {
    assert CoveredAt(fields, 0, buf, i);
    if InField(fields, i) {
      var f: Field :| Covers(fields, f, i);
      assert InnerRank(inner, f);
      assert Covers(all, f, i);
    }
  }

  /** The authority is never empty and always holds a host. */
  lemma WithHostSplices(fields: map<Field, Slice>, hs: HostScan)
    requires hs.host.len > 0
    ensures WithHost(fields, hs) == fields + HostMap(hs)
    ensures forall f: Field :: InnerRank(HostMap(hs), f)
    ensures UfHost in HostMap(hs)
  {
  }

  lemma HostFieldsLaid(buf: string, sc: Scan)
    requires ScanLaid(buf, sc) && UfHost in sc.fields
    requires (forall f | f in sc.fields :: Ends(sc.fields[f], |buf|)) && HostFields(Unbounded, buf, sc).Some?
    ensures WellLaid(HostFields(Unbounded, buf, sc).value, 0, buf)
  {
    var f := sc.fields[UfHost];
    var hs := HostAll(Unbounded, sc.foundAt, f.off, SliceText(buf, f));
    HostAllLaid(sc.foundAt, f.off, SliceText(buf, f));
    WithHostSplices(sc.fields, hs);
    SpliceLaid(buf, sc.fields, HostMap(hs), WithHost(sc.fields, hs));
  }

  lemma SpliceLaid(buf: string, fields: map<Field, Slice>, inner: map<Field, Slice>, all: map<Field, Slice>)
    requires WellLaid(fields, 0, buf) && UfHost in fields && UfUserinfo !in fields && UfPort !in fields
    requires Ends(fields[UfHost], |buf|) && WellLaid(inner, fields[UfHost].off, SliceText(buf, fields[UfHost]))
    requires (forall f: Field :: InnerRank(inner, f)) && UfHost in inner && all == fields + inner
    ensures WellLaid(all, 0, buf)
  {
    var host := fields[UfHost];
    SpliceNonempty(fields, inner, all, |buf|);
    SpliceOrdered(fields, inner, all);
    forall i: nat ensures CoveredAt(all, 0, buf, i) {
      if host.off <= i < host.off + host.len {
        SpliceInside(fields, inner, all, buf, i);
      } else {
        SpliceOutside(fields, inner, all, buf, i);
      }
    }
  }

  /**
    Every successful parse without truncation, CONNECT or not and of any length: the set fields are nonempty, in bounds
    and in URL order (so pairwise disjoint), and every byte outside them is a delimiter.
  */
  lemma TrueLayout(buf: string, isConnect: bool)
    requires TrueParse(buf, isConnect).Some?
    ensures WellLaid(TrueParse(buf, isConnect).value.fields, 0, buf)
  {
    ScanAllLaid(isConnect, buf);
    var sc := ScanAll(Unbounded, isConnect, buf);
    if UfHost in sc.fields { HostFieldsLaid(buf, sc); }
  }

  /** A scheme, userinfo or port only ever comes with a host, and CONNECT takes exactly a host and a port. */
  lemma ParseFields(w: Width, buf: string, isConnect: bool)
    requires ParseAt(w, buf, isConnect).Some?
    ensures var fields := ParseAt(w, buf, isConnect).value.fields;
            && (UfSchema in fields || UfUserinfo in fields || UfPort in fields ==> UfHost in fields)
            && (isConnect ==> fields.Keys == {UfHost, UfPort})
  {
    ScanAllFields(w, isConnect, buf);
  }

  /** The first loop records no userinfo and no port: those are the host loop's. */
  lemma ScanAllFields(w: Width, isConnect: bool, t: string)
    ensures var fields := ScanAll(w, isConnect, t).fields; UfUserinfo !in fields && UfPort !in fields
  {
    ScanAllIsScan(w, isConnect);
    ScanRunFields(w, (t: string) => ScanAll(w, isConnect, t), t);
  }

  lemma {:induction false} ScanRunFields(w: Width, G: string -> Scan, t: string)
    requires IsScan(w, G) && G("").fields == map[]
    ensures UfUserinfo !in G(t).fields && UfPort !in G(t).fields
  {
    if t != "" {
      var front, ch := t[..|t| - 1], t[|t| - 1];
      assert t == front + [ch] && ScanTurn(w, G, front, ch);
      ScanRunFields(w, G, front);
    }
  }

  predicate Digits(t: string) {
    forall i | 0 <= i < |t| :: IsDigit(t[i])
  }

  /** Once the port has begun, everything read is a digit of it. */
  predicate PortSoFar(hs: HostScan, off: nat, t: string) {
    && (hs.s == Port <==> hs.port.Some?)
    && (hs.port.Some? ==>
          var p := hs.port.value; off <= p.off && p.off + p.len == off + |t| && Digits(t[p.off - off..]))
  }

  /** What one turn does to the port: it begins or grows with a digit, and nothing follows it. */
  lemma PortMoves(hs: HostScan, ch: char, pos: nat)
    requires HostScanOk(hs, pos) && HostChar(hs.s, ch) != HDead
    ensures var r := HostStep(Unbounded, hs, ch, pos);
            && r.s == HostChar(hs.s, ch) && (r.s == Port ==> IsDigit(ch)) && (hs.s == Port ==> r.s == Port)
            && r.port == (if r.s != Port then hs.port
                          else Some(if hs.s == Port then hs.port.value.(len := hs.port.value.len + 1) else Slice(pos, 1)))
  {
  }

  lemma DigitsGrow(t: string, i: nat, ch: char)
    requires i <= |t| && Digits(t[i..]) && IsDigit(ch)
    ensures Digits((t + [ch])[i..])
  {
    assert (t + [ch])[i..] == t[i..] + [ch];
  }

  lemma PortStep(hs: HostScan, off: nat, t: string, ch: char)
    requires HostScanOk(hs, off + |t|) && PortSoFar(hs, off, t)
    requires HostChar(hs.s, ch) != HDead
    ensures PortSoFar(HostStep(Unbounded, hs, ch, off + |t|), off, t + [ch])
  {
    PortMoves(hs, ch, off + |t|);
    if hs.s == Port {
      DigitsGrow(t, hs.port.value.off - off, ch);
    } else if HostChar(hs.s, ch) == Port {
      DigitsGrow(t, |t|, ch);
    }
  }

  lemma {:induction false} PortTail(F: string -> HostScan, off: nat, t: string)
    requires IsHost(Unbounded, F, off) && HostBegins(F(""), off) && F(t).s != HDead
    ensures PortSoFar(F(t), off, t)
  {
    if t != "" {
      var front, ch := t[..|t| - 1], t[|t| - 1];
      assert t == front + [ch] && HostTurnOk(Unbounded, F, off, front, ch);
      PortTail(F, off, front);
      PortStep(F(front), off, front, ch);
    }
  }

  lemma HostPortDigits(buf: string, sc: Scan)
    requires UfHost in sc.fields && UfPort !in sc.fields
    requires (forall f | f in sc.fields :: Ends(sc.fields[f], |buf|)) && HostFields(Unbounded, buf, sc).Some?
    requires UfPort in HostFields(Unbounded, buf, sc).value
    ensures Digits(SliceText(buf, HostFields(Unbounded, buf, sc).value[UfPort]))
  {
    var f := sc.fields[UfHost];
    HostAllIsHost(Unbounded, sc.foundAt, f.off);
    PortTail((t: string) => HostAll(Unbounded, sc.foundAt, f.off, t), f.off, SliceText(buf, f));
    var p := HostFields(Unbounded, buf, sc).value[UfPort];
    assert p == HostAll(Unbounded, sc.foundAt, f.off, SliceText(buf, f)).port.value;
    assert SliceText(buf, f)[p.off - f.off..] == SliceText(buf, p);
  }

  /** A parsed port is a digit string (not empty, by TrueLayout) and `port` is its decimal value, at most 65535. */
  lemma TruePort(buf: string, isConnect: bool)
    requires TrueParse(buf, isConnect).Some?
    ensures var u := TrueParse(buf, isConnect).value;
            if UfPort in u.fields then
              && Ends(u.fields[UfPort], |buf|)
              && var text := SliceText(buf, u.fields[UfPort]);
              && Digits(text) && u.port == Decimal(text) <= 0xffff
            else u.port == 0
  {
    ScanAllLaid(isConnect, buf);
    var sc, u := ScanAll(Unbounded, isConnect, buf), TrueParse(buf, isConnect).value;
    if UfPort in u.fields {
      HostPortDigits(buf, sc);
      PortLoopIsDecimal(SliceText(buf, u.fields[UfPort]));
    }
  }

  /** The fields of an accepted authority reach its end, or stop short of a closing bracket. */
  lemma HostReachesEnd(F: string -> HostScan, off: nat, t: string)
    requires IsHost(Unbounded, F, off) && HostBegins(F(""), off) && HostAccepts(F(t).s)
    ensures var last := if F(t).port.Some? then F(t).port.value else F(t).host; off + |t| <= last.off + last.len + 1
    ensures off <= F(t).host.off
  {
    PortTail(F, off, t);
    HostRunLaid(F, off, t);
    assert Bounded(HostMap(F(t)), UfHost, off, off + |t|);
    if F(t).s == V6End {
      var front, ch := t[..|t| - 1], t[|t| - 1];
      assert t == front + [ch] && HostTurnOk(Unbounded, F, off, front, ch);
      BracketCloses(F(front), ch, off + |front|);
      HostRunLaid(F, off, front);
      AddressEndsHere(F(front), off, front);
    }
  }

  /** A closing bracket follows an address and changes no slice. */
  lemma BracketCloses(hs: HostScan, ch: char, pos: nat)
    requires HostScanOk(hs, pos) && HostStep(Unbounded, hs, ch, pos).s == V6End
    ensures (hs.s == V6 || hs.s == Zone) && HostStep(Unbounded, hs, ch, pos).host == hs.host
  {
  }

  lemma AddressEndsHere(hs: HostScan, off: nat, t: string)
    requires HostLaid(off, t, hs) && (hs.s == V6 || hs.s == Zone)
    ensures hs.host.off + hs.host.len == off + |t|
  {
    assert HostMap(hs)[UfHost] == hs.host;
  }
}
