/** The character classes of third-party/url-parser/url_parser.c against the source's own table and RFC 3986's sets. */
module UrlClasses {
  import opened Text
  import opened Basics
  import opened UrlParser
  import opened UrlLayout
  import opened UrlWidth
  import opened UrlRoundTrip
  import R = Rfc3986

  // ---------------------------------------------------------------- the table

  /** normal_url_char, in strict mode: row i holds the bits of the characters 8 * i to 8 * i + 7. */
  function UrlTable(i: nat): nat
    requires i < 32
  {
    if i < 4 then 0
    else if i == 4 then 2 + 4 + 16 + 32 + 64 + 128
    else if i < 7 then 255
    else if i == 7 then 1 + 2 + 4 + 8 + 16 + 32 + 64
    else if i < 15 then 255
    else if i == 15 then 1 + 2 + 4 + 8 + 16 + 32 + 64
    else 0
  }

  function Pow2(b: nat): nat
    requires b < 8
  {
    match b
    case 0 => 1
    case 1 => 2
    case 2 => 4
    case 3 => 8
    case 4 => 16
    case 5 => 32
    case 6 => 64
    case 7 => 128
  }

  /** BIT_AT */
  predicate BitAt(row: nat, b: nat)
    requires b < 8
  {
    row / Pow2(b) % 2 == 1
  }

  lemma Rows(b: nat)
    requires b < 8
    ensures !BitAt(0, b) && BitAt(255, b) && (BitAt(127, b) <==> b != 7) && (BitAt(246, b) <==> b != 0 && b != 3)
  {
    match b
    case 0 =>
    case 1 =>
    case 2 =>
    case 3 =>
    case 4 =>
    case 5 =>
    case 6 =>
    case 7 =>
  }

  /** IS_URL_CHAR is the bit of the table, for every byte. */
  lemma UrlCharIsTable(c: char)
    requires c as int < 256
    ensures IsUrlChar(c) <==> BitAt(UrlTable(c as int / 8), c as int % 8)
  {
    var i, b := c as int / 8, c as int % 8;
    Rows(b);
    assert c as int == 8 * i + b;
  }

  // ---------------------------------------------------------------- the sets

  /** IS_HOST_CHAR, IS_USERINFO_CHAR and the host machine's classes, by code. */
  lemma ClassesByCode(c: char)
    ensures IsAlpha(c) <==> R.Alpha(c)
    ensures IsDigit(c) <==> R.Digit(c)
    ensures IsUrlChar(c) <==> 0x21 <= c as int <= 0x7e && c as int != 0x23 && c as int != 0x3f
    ensures IsQueryChar(c) <==> 0x21 <= c as int <= 0x7e && c as int != 0x23
    ensures IsFragmentChar(c) <==> 0x21 <= c as int <= 0x7e
    ensures IsHostChar(c) <==> R.Alpha(c) || R.Digit(c) || c as int == 0x2d || c as int == 0x2e
    ensures IsUserinfoChar(c) <==> R.UserinfoChar(c) || c as int == 0x25
    ensures IsV6Char(c) <==> R.HexDig(c) || c as int == 0x2e || c as int == 0x3a
    ensures IsZoneChar(c) <==> R.Unreserved(c) || c as int == 0x25
  {
  }

  /** Whatever RFC 3986 allows in a path, query, fragment or userinfo, escapes included, the parser allows. */
  lemma RfcAllowed(c: char)
    ensures R.PathChar(c) || R.HexDig(c) || c as int == 0x25 ==> IsUrlChar(c)
    ensures R.QueryChar(c) ==> IsUrlChar(c) || c == '?'
    ensures R.UserinfoChar(c) || R.HexDig(c) || c as int == 0x25 ==> IsUserinfoChar(c)
  {
  }

  // ---------------------------------------------------------------- URLs of RFC 3986

  predicate SchemeChar(c: char) {
    R.Alpha(c) || R.Digit(c) || c as int == 0x2b || c as int == 0x2d || c as int == 0x2e
  }

  predicate NameChar(c: char) {
    R.Unreserved(c) || R.SubDelim(c)
  }

  predicate AddressChar(c: char) {
    R.HexDig(c) || c as int == 0x2e || c as int == 0x3a
  }

  predicate RfcHost(h: Host) {
    match h
    case Name(name) => R.Escaped(name, NameChar)
    case Address(v6, zone) =>
      v6 != "" && All(AddressChar, v6) && (zone.Some? ==> zone.value != "" && R.Escaped(zone.value, R.Unreserved))
  }

  /** A URI with an authority, by the characters of its parts (section 3 of RFC 3986; zones as in RFC 6874). */
  predicate RfcUrl(c: Components) {
    && c.scheme != "" && R.Alpha(c.scheme[0]) && All(SchemeChar, c.scheme)
    && (c.userinfo.Some? ==> R.Escaped(c.userinfo.value, R.UserinfoChar))
    && RfcHost(c.host)
    && (c.port.Some? ==> All(R.Digit, c.port.value))
    && (c.path != "" ==> c.path[0] as int == 0x2f) && R.Escaped(c.path, R.PathChar)
    && (c.query.Some? ==> R.Escaped(c.query.value, R.QueryChar))
    && (c.fragment.Some? ==> R.Escaped(c.fragment.value, R.QueryChar))
  }

  predicate LetterDigitHyphenDot(c: char) {
    R.Alpha(c) || R.Digit(c) || c as int == 0x2d || c as int == 0x2e
  }

  /** What the parser asks for beyond RFC 3986. */
  predicate Narrow(c: Components) {
    && All(R.Alpha, c.scheme)
    && (c.host.Name? ==> c.host.name != "" && All(LetterDigitHyphenDot, c.host.name))
    && (c.port.Some? ==> c.port.value != "" && Digits(c.port.value) && Decimal(c.port.value) <= 65535)
    && (c.fragment.Some? ==> c.path != "" || c.query.Some?)
  }

  lemma EscapedAll(s: string, allowed: char -> bool, p: char -> bool)
    requires R.Escaped(s, allowed) && forall c: char | allowed(c) || R.HexDig(c) || c as int == 0x25 :: p(c)
    ensures All(p, s)
  {
    forall i | 0 <= i < |s| ensures p(s[i]) {
      assert allowed(s[i]) || R.InEscape(s, i);
    }
  }

  lemma AllSame(s: string, p: char -> bool, q: char -> bool)
    requires forall c: char :: p(c) <==> q(c)
    ensures All(p, s) <==> All(q, s)
  {
  }

  lemma RfcHostOk(h: Host)
    requires RfcHost(h)
    ensures HostOk(h) <==> (h.Name? ==> h.name != "" && All(LetterDigitHyphenDot, h.name))
  {
    match h
    case Name(name) => AllSame(name, LetterDigitHyphenDot, IsHostChar);
    case Address(v6, zone) =>
      AllSame(v6, AddressChar, IsV6Char);
      if zone.Some? { EscapedAll(zone.value, R.Unreserved, IsZoneChar); }
  }

  lemma RfcTailOk(path: string, query: Option<string>, fragment: Option<string>)
    requires query.Some? ==> R.Escaped(query.value, R.QueryChar)
    requires fragment.Some? ==> R.Escaped(fragment.value, R.QueryChar)
    ensures TailOk(path, query, fragment) <==> (fragment.Some? ==> path != "" || query.Some?)
  {
    if query.Some? { EscapedAll(query.value, R.QueryChar, IsQueryChar); }
    if fragment.Some? { EscapedAll(fragment.value, R.QueryChar, IsFragmentChar); }
  }

  /** Of the URLs of RFC 3986, exactly the narrow ones are well formed for the parser. */
  lemma RfcUrlOk(c: Components)
    requires RfcUrl(c)
    ensures Ok(c) <==> Narrow(c)
  {
    AllSame(c.scheme, R.Alpha, IsAlpha);
    if c.userinfo.Some? { EscapedAll(c.userinfo.value, R.UserinfoChar, IsUserinfoChar); }
    RfcHostOk(c.host);
    EscapedAll(c.path, R.PathChar, IsUrlChar);
    RfcTailOk(c.path, c.query, c.fragment);
  }

  /** Every narrow URL of RFC 3986 is parsed to its components if and only if they fit 16 bits. */
  lemma RfcUrlParsed(c: Components)
    requires RfcUrl(c) && Narrow(c)
    ensures var port := if c.port.Some? then Decimal(c.port.value) else 0;
            && TrueParse(Print(c), false) == Some(Url(port, Expected(c)))
            && (Parse(Print(c), false) == Some(Url(port, Expected(c))) <==> PrintFits(c))
            && forall f: Field :: Has(Print(c), Expected(c), f, Component(c, f))
  {
    RfcUrlOk(c);
    TrueParsePrint(c);
    ParsePrint(c);
  }
}
