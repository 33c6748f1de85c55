/**
  What storing offsets and lengths in 16 bits does to the parser: what is recorded is the truth modulo 65536, and the
  result is the true one exactly when every offset and length fits.
*/
module UrlWidth {
  import opened Basics
  import opened UrlParser
  import opened UrlLayout

  function Wrap(f: Slice): Slice {
    Slice(f.off % 65536, f.len % 65536)
  }

  function WrapAll(fields: map<Field, Slice>): map<Field, Slice> {
    map f | f in fields :: Wrap(fields[f])
  }

  lemma CutNext(n: nat)
    ensures Cut(Bits16, n % 65536 + 1) == (n + 1) % 65536
  {
  }

  // ---------------------------------------------------------------- the first loop

  predicate ScanWrapped(n: Scan, w: Scan) {
    n.s == w.s && n.last == w.last && n.foundAt == w.foundAt && n.fields == WrapAll(w.fields)
  }

  lemma RecordWraps(n: Scan, w: Scan, s: State, pos: nat)
    requires ScanWrapped(n, w) && (w.last.Some? ==> w.last.value in w.fields)
    ensures ScanWrapped(Record(Bits16, n, s, pos), Record(Unbounded, w, s, pos))
  {
    var uf := FieldOf(s);
    if uf.Some? && uf == w.last { CutNext(w.fields[uf.value].len); }
  }

  lemma {:induction false} ScanRunWraps(N: string -> Scan, W: string -> Scan, t: string)
    requires IsScan(Bits16, N) && IsScan(Unbounded, W) && ScanWrapped(N(""), W(""))
    ensures ScanWrapped(N(t), W(t))
  {
    if t != "" {
      var front, ch := t[..|t| - 1], t[|t| - 1];
      assert t == front + [ch] && ScanTurn(Bits16, N, front, ch) && ScanTurn(Unbounded, W, front, ch);
      ScanRunWraps(N, W, front);
      RecordWraps(N(front), W(front), UrlChar(W(front).s, ch), |front|);
    }
  }

  /** The first loop goes through the same states and sets the same fields, to the true slices modulo 65536. */
  lemma ScanAllWraps(isConnect: bool, t: string)
    ensures ScanWrapped(ScanAll(Bits16, isConnect, t), ScanAll(Unbounded, isConnect, t))
  {
    ScanAllIsScan(Bits16, isConnect);
    ScanAllIsScan(Unbounded, isConnect);
    ScanRunWraps((t: string) => ScanAll(Bits16, isConnect, t), (t: string) => ScanAll(Unbounded, isConnect, t), t);
  }

  // ---------------------------------------------------------------- the host loop

  function WrapOption(f: Option<Slice>): Option<Slice> {
    if f.Some? then Some(Wrap(f.value)) else None
  }

  function WrapHost(hs: HostScan): HostScan {
    HostScan(hs.s, WrapOption(hs.userinfo), Wrap(hs.host), WrapOption(hs.port))
  }

  lemma GrownWraps(f: Slice)
    ensures Grown(Bits16, Wrap(f)) == Wrap(Grown(Unbounded, f))
  {
    CutNext(f.len);
  }

  lemma HostRecordWraps(w: HostScan, s: HostState, pos: nat)
    requires HostScanOk(w, pos) && HostScanOk(WrapHost(w), pos)
    ensures HostRecord(Bits16, WrapHost(w), s, pos) == WrapHost(HostRecord(Unbounded, w, s, pos))
  {
    GrownWraps(w.host);
    if w.port.Some? { GrownWraps(w.port.value); }
    if w.userinfo.Some? { GrownWraps(w.userinfo.value); }
  }

  lemma {:induction false} HostRunWraps(N: string -> HostScan, W: string -> HostScan, off: nat, t: string)
    requires IsHost(Bits16, N, off) && IsHost(Unbounded, W, off) && N("") == WrapHost(W(""))
    ensures N(t) == WrapHost(W(t))
  {
    if t != "" {
      var front, ch := t[..|t| - 1], t[|t| - 1];
      assert t == front + [ch] && HostTurnOk(Bits16, N, off, front, ch) && HostTurnOk(Unbounded, W, off, front, ch);
      HostRunWraps(N, W, off, front);
      HostRecordWraps(W(front), HostChar(W(front).s, ch), off + |front|);
    }
  }

  /** So does the host loop, over the same text. */
  lemma HostAllWraps(foundAt: bool, off: nat, t: string)
    requires off < 65536
    ensures HostAll(Bits16, foundAt, off, t) == WrapHost(HostAll(Unbounded, foundAt, off, t))
  {
    HostAllIsHost(Bits16, foundAt, off);
    HostAllIsHost(Unbounded, foundAt, off);
    HostRunWraps((t: string) => HostAll(Bits16, foundAt, off, t), (t: string) => HostAll(Unbounded, foundAt, off, t),
                 off, t);
  }

  // ---------------------------------------------------------------- the whole parse

  predicate Small(f: Slice) {
    f.off < 65536 && f.len < 65536
  }

  predicate AllSmall(fields: map<Field, Slice>) {
    forall f | f in fields :: Small(fields[f])
  }

  lemma WrapSmall(fields: map<Field, Slice>)
    ensures AllSmall(WrapAll(fields)) && (AllSmall(fields) <==> WrapAll(fields) == fields)
  {
    if WrapAll(fields) == fields {
      forall f | f in fields ensures Small(fields[f]) { assert Wrap(fields[f]) == fields[f]; }
    }
  }

  lemma WithHostWraps(fields: map<Field, Slice>, hs: HostScan)
    ensures WithHost(WrapAll(fields), WrapHost(hs)) == WrapAll(WithHost(fields, hs))
  {
  }

  /** The authority as the first loop finds it, if there is one, fits 16 bits. */
  predicate AuthorityFits(buf: string, isConnect: bool) {
    var fields := ScanAll(Unbounded, isConnect, buf).fields;
    UfHost in fields ==> Small(fields[UfHost])
  }

  predicate AllEnd(fields: map<Field, Slice>, n: nat) {
    forall f | f in fields :: Ends(fields[f], n)
  }

  lemma HostFieldsWrap(buf: string, n: Scan, w: Scan)
    requires ScanWrapped(n, w) && AllEnd(n.fields, |buf|) && AllEnd(w.fields, |buf|)
    requires UfHost in w.fields && Small(w.fields[UfHost])
    ensures var fields := HostFields(Unbounded, buf, w);
            HostFields(Bits16, buf, n) == if fields.Some? then Some(WrapAll(fields.value)) else None
  {
    var f := w.fields[UfHost];
    assert n.fields[UfHost] == f;
    var hs := HostAll(Unbounded, w.foundAt, f.off, SliceText(buf, f));
    assert HostAll(Bits16, w.foundAt, f.off, SliceText(buf, f)) == WrapHost(hs) by {
      HostAllWraps(w.foundAt, f.off, SliceText(buf, f));
    }
    WithHostWraps(w.fields, hs);
  }

  /** For every input whose authority fits, the same fields are set or the same failure met, modulo 65536. */
  lemma FieldsWrap(buf: string, isConnect: bool)
    requires AuthorityFits(buf, isConnect)
    ensures var fields := FieldsAt(Unbounded, buf, isConnect);
            FieldsAt(Bits16, buf, isConnect) == if fields.Some? then Some(WrapAll(fields.value)) else None
  {
    ScanAllWraps(isConnect, buf);
    var n, w := ScanAll(Bits16, isConnect, buf), ScanAll(Unbounded, isConnect, buf);
    if UfHost in w.fields { HostFieldsWrap(buf, n, w); }
  }

  /** Every offset and length fits 16 bits: those of the result and those of the authority before it is taken apart. */
  predicate Fits(buf: string, isConnect: bool) {
    && AllSmall(ScanAll(Unbounded, isConnect, buf).fields)
    && var fields := FieldsAt(Unbounded, buf, isConnect);
    && (fields.Some? ==> AllSmall(fields.value))
  }

  /** If everything fits, the parser accepts what it should and records what it should. */
  lemma ParseIsTrue(buf: string, isConnect: bool)
    requires Fits(buf, isConnect)
    ensures Parse(buf, isConnect) == TrueParse(buf, isConnect)
  {
    FieldsWrap(buf, isConnect);
    var fields := FieldsAt(Unbounded, buf, isConnect);
    if fields.Some? { WrapSmall(fields.value); }
  }

  predicate HostSmall(hs: HostScan) {
    Small(hs.host) && (hs.userinfo.Some? ==> Small(hs.userinfo.value)) && (hs.port.Some? ==> Small(hs.port.value))
  }

  lemma HostAllSmall(foundAt: bool, off: nat, t: string)
    requires off < 65536
    ensures HostSmall(HostAll(Bits16, foundAt, off, t))
  {
    HostAllWraps(foundAt, off, t);
  }

  lemma WithHostSmall(fields: map<Field, Slice>, hs: HostScan)
    requires AllSmall(fields) && HostSmall(hs)
    ensures AllSmall(WithHost(fields, hs))
  {
  }

  /** Everything recorded fits. */
  lemma FieldsSmall(buf: string, isConnect: bool)
    requires FieldsAt(Bits16, buf, isConnect).Some?
    ensures AllSmall(FieldsAt(Bits16, buf, isConnect).value)
  {
    ScanAllWraps(isConnect, buf);
    WrapSmall(ScanAll(Unbounded, isConnect, buf).fields);
    var n := ScanAll(Bits16, isConnect, buf);
    if UfHost in n.fields { HostFieldsSmall(buf, n); }
  }

  lemma HostFieldsSmall(buf: string, n: Scan)
    requires AllEnd(n.fields, |buf|) && AllSmall(n.fields) && UfHost in n.fields
    requires HostFields(Bits16, buf, n).Some?
    ensures AllSmall(HostFields(Bits16, buf, n).value)
  {
    var f := n.fields[UfHost];
    HostAllSmall(n.foundAt, f.off, SliceText(buf, f));
    WithHostSmall(n.fields, HostAll(Bits16, n.foundAt, f.off, SliceText(buf, f)));
  }

  /** If the true slices were recorded, the authority was not cut short. */
  lemma AuthorityNotCut(buf: string, n: Scan, w: Scan)
    requires ScanWrapped(n, w) && AllEnd(n.fields, |buf|) && AllEnd(w.fields, |buf|)
    requires UfHost in w.fields && UfPort !in w.fields
    requires HostFields(Unbounded, buf, w).Some? && AllSmall(HostFields(Unbounded, buf, w).value)
    requires HostFields(Bits16, buf, n) == HostFields(Unbounded, buf, w)
    ensures Small(w.fields[UfHost])
  {
    var f, g := w.fields[UfHost], n.fields[UfHost];
    var hs := HostAll(Unbounded, w.foundAt, f.off, SliceText(buf, f));
    AcceptedEnd(w.foundAt, f.off, SliceText(buf, f));
    NotCut(w.fields, hs, n.fields, HostAll(Bits16, n.foundAt, g.off, SliceText(buf, g)));
  }

  lemma NotCut(fields: map<Field, Slice>, hs: HostScan, fields': map<Field, Slice>, hs': HostScan)
    requires UfHost in fields && UfPort !in fields && fields' == WrapAll(fields)
    requires WithHost(fields, hs) == WithHost(fields', hs') && AllSmall(WithHost(fields, hs))
    requires var f := fields[UfHost];
             var last := if hs.port.Some? then hs.port.value else hs.host;
             f.off + f.len <= last.off + last.len + 1 && f.off <= hs.host.off
    requires HostScanOk(hs', fields'[UfHost].off + fields'[UfHost].len)
    ensures Small(fields[UfHost])
  {
    SameHost(fields, hs, fields', hs');
    assert WithHost(fields, hs)[UfHost] == hs.host && Small(hs.host);
    CutShort(fields[UfHost], fields'[UfHost], if hs.port.Some? then hs.port.value else hs.host);
  }

  lemma AcceptedEnd(foundAt: bool, off: nat, t: string)
    requires HostAccepts(HostAll(Unbounded, foundAt, off, t).s)
    ensures var hs := HostAll(Unbounded, foundAt, off, t);
            var last := if hs.port.Some? then hs.port.value else hs.host;
            off + |t| <= last.off + last.len + 1 && off <= hs.host.off
  {
    HostAllIsHost(Unbounded, foundAt, off);
    HostReachesEnd((t: string) => HostAll(Unbounded, foundAt, off, t), off, t);
  }

  lemma SameHost(fields: map<Field, Slice>, hs: HostScan, fields': map<Field, Slice>, hs': HostScan)
    requires UfPort !in fields && UfPort !in fields' && WithHost(fields, hs) == WithHost(fields', hs')
    ensures hs.host == hs'.host && hs.port == hs'.port
  {
    assert WithHost(fields, hs)[UfHost] == hs.host && WithHost(fields', hs')[UfHost] == hs'.host;
    assert UfPort in WithHost(fields, hs) <==> hs.port.Some?;
    assert UfPort in WithHost(fields', hs') <==> hs'.port.Some?;
  }

  lemma CutShort(f: Slice, g: Slice, last: Slice)
    requires g == Wrap(f) && f.off < 65536 && Ends(last, g.off + g.len) && f.off + f.len <= last.off + last.len + 1
    ensures f.len < 65536
  {
  }

  /** What WithHost does not replace fits if the whole does. */
  lemma OthersSmall(fields: map<Field, Slice>, hs: HostScan)
    requires UfUserinfo !in fields && UfPort !in fields && (UfHost in fields ==> Small(fields[UfHost]))
    requires AllSmall(WithHost(fields, hs))
    ensures AllSmall(fields)
  {
    forall f | f in fields ensures Small(fields[f]) {
      if f != UfHost { assert WithHost(fields, hs)[f] == fields[f]; }
    }
  }

  /** Recording the true slices takes that they fit. */
  lemma TrueFieldsFit(buf: string, isConnect: bool)
    requires FieldsAt(Unbounded, buf, isConnect).Some?
    requires FieldsAt(Bits16, buf, isConnect) == FieldsAt(Unbounded, buf, isConnect)
    ensures Fits(buf, isConnect)
  {
    FieldsSmall(buf, isConnect);
    ScanAllFields(Unbounded, isConnect, buf);
    ScanAllWraps(isConnect, buf);
    var n, w := ScanAll(Bits16, isConnect, buf), ScanAll(Unbounded, isConnect, buf);
    if UfHost in w.fields {
      AuthorityNotCut(buf, n, w);
      var f := w.fields[UfHost];
      OthersSmall(w.fields, HostAll(Unbounded, w.foundAt, f.off, SliceText(buf, f)));
    }
  }

  /**
    The exact condition, for inputs of every length: a URL that is well formed is parsed to its true slices if and only
    if every true offset and length is below 65536.
  */
  lemma ParseExact(buf: string, isConnect: bool)
    requires TrueParse(buf, isConnect).Some?
    ensures Parse(buf, isConnect) == TrueParse(buf, isConnect) <==> Fits(buf, isConnect)
  {
    if Fits(buf, isConnect) { ParseIsTrue(buf, isConnect); }
    if Parse(buf, isConnect) == TrueParse(buf, isConnect) { TrueFieldsFit(buf, isConnect); }
  }

  /** In particular inputs of up to 65535 bytes. */
  lemma ShortFits(buf: string, isConnect: bool)
    requires |buf| <= 65535
    ensures Fits(buf, isConnect)
  {
  }

  /**
    Every successful parse in which every offset and length fits: the set fields are nonempty, in bounds and in URL
    order (so pairwise disjoint), and every byte outside them is a delimiter.
  */
  lemma ParseLayout(buf: string, isConnect: bool)
    requires Fits(buf, isConnect) && Parse(buf, isConnect).Some?
    ensures WellLaid(Parse(buf, isConnect).value.fields, 0, buf)
  {
    ParseIsTrue(buf, isConnect);
    TrueLayout(buf, isConnect);
  }

  /** A port is a digit string and `port` its decimal value, at most 65535; without the field `port` is 0. */
  lemma ParsePort(buf: string, isConnect: bool)
    requires Fits(buf, isConnect) && Parse(buf, isConnect).Some?
    ensures var u := Parse(buf, isConnect).value;
            if UfPort in u.fields then
              && Ends(u.fields[UfPort], |buf|)
              && var text := SliceText(buf, u.fields[UfPort]);
              && Digits(text) && u.port == Decimal(text) <= 0xffff
            else u.port == 0
  {
    ParseIsTrue(buf, isConnect);
    TruePort(buf, isConnect);
  }
}
