/** Percent coding of paths (lib/util.h, lib/util.cc) and split_path (lib/asio_common.h). */
module Percent {
  import opened Text
  import R = Rfc3986

  /** A std::string holds bytes. */
  predicate IsBytes(s: string) {
    forall i | 0 <= i < |s| :: s[i] as int < 256
  }

  predicate Unreserved(c: char) {
    IsAlpha(c) || IsDigit(c) || c == '-' || c == '.' || c == '_' || c == '~'
  }

  predicate SubDelim(c: char) {
    || c == '!' || c == '$' || c == '&' || c == '\'' || c == '(' || c == ')'
    || c == '*' || c == '+' || c == ',' || c == ';' || c == '='
  }

  predicate KeptInPath(c: char) {
    Unreserved(c) || SubDelim(c) || c == '/'
  }

  /** The conversion to uint32_t */
  function U32(n: int): nat {
    n % 0x1_0000_0000
  }

  /** hex_to_uint. c is the value of a char, which may be negative where char is signed. */
  function HexToUint(c: int): (v: nat)
    ensures IsHexCode(c) ==> v < 16
  {
    if c <= '9' as int then U32(c - '0' as int)
    else if c <= 'Z' as int then U32(c - 'A' as int + 10)
    else if c <= 'z' as int then U32(c - 'a' as int + 10)
    else 256
  }

  predicate IsHexCode(c: int) {
    48 <= c <= 57 || 65 <= c <= 70 || 97 <= c <= 102
  }

  /** What the header says hex_to_uint returns: the digit's value, or 256 for anything else. */
  function HexDocumented(c: int): nat {
    if 48 <= c <= 57 then c - 48
    else if 65 <= c <= 70 then c - 55
    else if 97 <= c <= 102 then c - 87
    else 256
  }

  /** For every char, signed or not: 256 is returned exactly past 'z', so the header is met there and at hex digits. */
  lemma HexToUintExactly(c: int)
    requires -128 <= c < 256
    ensures HexToUint(c) == 256 <==> c > 'z' as int
    ensures HexToUint(c) == HexDocumented(c) <==> IsHexCode(c) || c > 'z' as int
  {
    if c < '0' as int { assert HexToUint(c) == c - '0' as int + 0x1_0000_0000; }
  }

  /** At 'G', for one, it returns 16. */
  lemma HexToUintAtG(c: char)
    requires c == 'G'
    ensures HexToUint(c as int) == 16 != HexDocumented(c as int)
  {
  }

  /** UPPER_XDIGITS[v] */
  function UpperHex(v: nat): (c: char)
    requires v < 16
    ensures IsHexDigit(c) && HexToUint(c as int) == v
  {
    if v < 10 then (v + '0' as int) as char else (v - 10 + 'A' as int) as char
  }

  function EncodeByte(c: char): (r: string)
    requires c as int < 256
  {
    if KeptInPath(c) then [c] else ['%', UpperHex(c as int / 16), UpperHex(c as int % 16)]
  }

  function Encode(s: string): (r: string)
    requires IsBytes(s)
  {
    if s == "" then "" else EncodeByte(s[0]) + Encode(s[1..])
  }

  predicate EscapeAt(s: string, i: nat) {
    i + 2 < |s| && s[i] == '%' && IsHexDigit(s[i + 1]) && IsHexDigit(s[i + 2])
  }

  function EscapedByte(s: string, i: nat): char
    requires EscapeAt(s, i)
  {
    (HexToUint(s[i + 1] as int) * 16 + HexToUint(s[i + 2] as int)) as char
  }

  function Decode(s: string): (r: string)
    ensures |r| <= |s|
  {
    if s == "" then ""
    else if EscapeAt(s, 0) then [EscapedByte(s, 0)] + Decode(s[3..])
    else [s[0]] + Decode(s[1..])
  }

  /** percent_encode_path: the loop that appends to dest */
  method PercentEncodePath(s: string) returns (dest: string)
    requires IsBytes(s)
    ensures dest == Encode(s)
  {
    dest := "";
    var i := 0;
    while i < |s|
      invariant 0 <= i <= |s|
      invariant dest + Encode(s[i..]) == Encode(s)
    {
      EncodeTurn(s, i, dest);
      if KeptInPath(s[i]) {
        dest := dest + [s[i]];
      } else {
        dest := dest + ['%', UpperHex(s[i] as int / 16), UpperHex(s[i] as int % 16)];
      }
      i := i + 1;
    }
    assert s[i..] == "";
  }

  lemma EncodeTurn(s: string, i: nat, dest: string)
    requires i < |s| && IsBytes(s)
    ensures dest + Encode(s[i..]) == dest + EncodeByte(s[i]) + Encode(s[i + 1..])
  {
    assert s[i..][1..] == s[i + 1..];
  }

  /** percent_decode: writes into a buffer of the input's length and cuts it to what was written */
  method PercentDecode(s: string) returns (result: string)
    ensures result == Decode(s)
  {
    var buf := new char[|s|];
    var p, first := 0, 0;
    assert DecodeDone(s, 0, "") by { assert s[0..] == s; }
    while first < |s|
      invariant 0 <= p <= first <= |s|
      invariant DecodeDone(s, first, buf[..p])
    {
      ghost var done := buf[..p];
      DecodeTurn(s, first, done);
      if EscapeAt(s, first) {
        buf[p] := EscapedByte(s, first);
        first := first + 3;
      } else {
        buf[p] := s[first];
        first := first + 1;
      }
      p := p + 1;
      assert buf[..p] == done + [buf[p - 1]];
    }
    DecodeEnds(s, buf[..p]);
    result := buf[..p];
  }

  /** What has been written when the rest of s is yet to be decoded. */
  predicate DecodeDone(s: string, i: nat, done: string)
    requires i <= |s|
  {
    done + Decode(s[i..]) == Decode(s)
  }

  lemma DecodeEnds(s: string, done: string)
    requires DecodeDone(s, |s|, done)
    ensures done == Decode(s)
  {
    assert s[|s|..] == "";
  }

  lemma DecodeTurn(s: string, i: nat, done: string)
    requires i < |s| && DecodeDone(s, i, done)
    ensures if EscapeAt(s, i) then DecodeDone(s, i + 3, done + [EscapedByte(s, i)]) else DecodeDone(s, i + 1, done + [s[i]])
  {
    var left := s[i..];
    if EscapeAt(s, i) {
      assert EscapeAt(left, 0) && left[3..] == s[i + 3..];
      Regroup(done, [EscapedByte(s, i)], Decode(s[i + 3..]));
    } else {
      assert !EscapeAt(left, 0) && left[1..] == s[i + 1..];
      Regroup(done, [s[i]], Decode(s[i + 1..]));
    }
  }

  lemma DecodeEncodedByte(c: char, t: string)
    requires c as int < 256
    ensures Decode(EncodeByte(c) + t) == [c] + Decode(t)
  {
    var s := EncodeByte(c) + t;
    if KeptInPath(c) {
      assert s[0] == c && s[1..] == t;
    } else {
      assert s[0] == '%' && s[1] == UpperHex(c as int / 16) && s[2] == UpperHex(c as int % 16) && s[3..] == t;
    }
  }

  /** Decoding undoes encoding, for every byte string. */
  lemma {:induction false} DecodeEncode(s: string)
    requires IsBytes(s)
    ensures Decode(Encode(s)) == s
  {
    if s != "" {
      DecodeEncode(s[1..]);
      DecodeEncodedByte(s[0], Encode(s[1..]));
    }
  }

  /** An encoded path holds only path characters and escapes; in particular no '?' that split_path would cut at. */
  lemma {:induction false} EncodeAlphabet(s: string)
    requires IsBytes(s)
    ensures forall c | c in Encode(s) :: KeptInPath(c) || c == '%'
  {
    if s != "" {
      EncodeAlphabet(s[1..]);
      assert forall c | c in EncodeByte(s[0]) :: KeptInPath(c) || c == '%';
    }
  }

  /** A string without '%' decodes to itself. */
  lemma {:induction false} DecodePlain(s: string)
    requires '%' !in s
    ensures Decode(s) == s
  {
    if s != "" {
      assert s == [s[0]] + s[1..];
      DecodePlain(s[1..]);
    }
  }

  // ---------------------------------------------------------------- what the codes mean

  /** A byte as it is, or "%" and two hex digits of either case. */
  datatype Piece = Plain(c: char) | Escape(hi: char, lo: char)

  function SpellPiece(p: Piece): string {
    match p
    case Plain(c) => [c]
    case Escape(hi, lo) => ['%', hi, lo]
  }

  function Spell(ps: seq<Piece>): string {
    if ps == [] then "" else SpellPiece(ps[0]) + Spell(ps[1..])
  }

  predicate PieceOk(p: Piece) {
    p.Escape? ==> R.HexDig(p.hi) && R.HexDig(p.lo)
  }

  /** The byte a piece stands for */
  function Meant(p: Piece): char
    requires PieceOk(p)
  {
    match p
    case Plain(c) => c
    case Escape(hi, lo) => (16 * HexDocumented(hi as int) + HexDocumented(lo as int)) as char
  }

  /** A percent sign stands for itself only where no two hex digits follow. */
  predicate Unmistaken(ps: seq<Piece>, i: nat)
    requires i < |ps|
  {
    ps[i] == Plain('%') ==> !R.EscapeAt(Spell(ps[i..]), 0)
  }

  predicate PiecesOk(ps: seq<Piece>) {
    forall i: nat | i < |ps| :: PieceOk(ps[i]) && Unmistaken(ps, i)
  }

  function Meaning(ps: seq<Piece>): string
    requires PiecesOk(ps)
  {
    seq(|ps|, i requires 0 <= i < |ps| => Meant(ps[i]))
  }

  lemma PiecesTail(ps: seq<Piece>)
    requires ps != [] && PiecesOk(ps)
    ensures PiecesOk(ps[1..]) && Meaning(ps) == [Meant(ps[0])] + Meaning(ps[1..])
  {
    forall i: nat | i < |ps[1..]| ensures PieceOk(ps[1..][i]) && Unmistaken(ps[1..], i) {
      assert ps[1..][i] == ps[i + 1] && ps[1..][i..] == ps[i + 1..];
      assert PieceOk(ps[i + 1]) && Unmistaken(ps, i + 1);
    }
  }

  lemma DecodeFirst(p: Piece, t: string)
    requires PieceOk(p) && (p == Plain('%') ==> !R.EscapeAt(SpellPiece(p) + t, 0))
    ensures Decode(SpellPiece(p) + t) == [Meant(p)] + Decode(t)
  {
    match p
    case Plain(c) => DecodeKept(c, t);
    case Escape(hi, lo) => DecodeEscape(hi, lo, t);
  }

  lemma SameEscapes(s: string)
    ensures EscapeAt(s, 0) <==> R.EscapeAt(s, 0)
  {
  }

  lemma DecodeKept(c: char, t: string)
    requires c == '%' ==> !R.EscapeAt([c] + t, 0)
    ensures Decode([c] + t) == [c] + Decode(t)
  {
    SameEscapes([c] + t);
    assert ([c] + t)[1..] == t;
  }

  lemma DecodeEscape(hi: char, lo: char, t: string)
    requires R.HexDig(hi) && R.HexDig(lo)
    ensures Decode(['%', hi, lo] + t) == [(16 * HexDocumented(hi as int) + HexDocumented(lo as int)) as char] + Decode(t)
  {
    var s := ['%', hi, lo] + t;
    assert s[1] == hi && s[2] == lo && s[3..] == t;
    HexToUintExactly(hi as int);
    HexToUintExactly(lo as int);
    assert EscapeAt(s, 0);
  }

  /** Decoding replaces each escape, in either case, by the byte it stands for and keeps every other byte. */
  lemma {:induction false} DecodeMeaning(ps: seq<Piece>)
    requires PiecesOk(ps)
    ensures Decode(Spell(ps)) == Meaning(ps)
  {
    if ps != [] {
      PiecesTail(ps);
      DecodeMeaning(ps[1..]);
      assert Unmistaken(ps, 0) && ps[0..] == ps;
      DecodeFirst(ps[0], Spell(ps[1..]));
    }
  }

  /** Every string is spelled by such pieces. */
  lemma {:induction false} Pieces(s: string) returns (ps: seq<Piece>)
    ensures PiecesOk(ps) && Spell(ps) == s
  {
    if s == "" {
      ps := [];
    } else {
      var p := if R.EscapeAt(s, 0) then Escape(s[1], s[2]) else Plain(s[0]);
      var n := |SpellPiece(p)|;
      var tail := Pieces(s[n..]);
      ps := [p] + tail;
      assert ps[1..] == tail && s == SpellPiece(p) + s[n..];
      forall i: nat | i < |ps| ensures PieceOk(ps[i]) && Unmistaken(ps, i) {
        if i > 0 {
          assert ps[i] == tail[i - 1] && ps[i..] == tail[i - 1..];
          assert PieceOk(tail[i - 1]) && Unmistaken(tail, i - 1);
        } else {
          assert ps[0..] == ps;
        }
      }
    }
  }

  lemma Regroup(a: string, b: string, c: string)
    ensures a + (b + c) == a + b + c
  {
  }

  lemma {:induction false} EncodeConcat(a: string, b: string)
    requires IsBytes(a) && IsBytes(b)
    ensures IsBytes(a + b) && Encode(a + b) == Encode(a) + Encode(b)
  {
    if a == "" {
      assert a + b == b;
    } else {
      EncodeConcat(a[1..], b);
      assert (a + b)[1..] == a[1..] + b && (a + b)[0] == a[0];
      Regroup(EncodeByte(a[0]), Encode(a[1..]), Encode(b));
    }
  }

  /** One byte: kept if it is unreserved, a sub-delimiter or a slash, otherwise escaped with upper-case digits. */
  lemma EncodeMeaning(c: char)
    requires c as int < 256
    ensures R.Unreserved(c) || R.SubDelim(c) || c as int == 0x2f ==> Encode([c]) == [c]
    ensures !(R.Unreserved(c) || R.SubDelim(c) || c as int == 0x2f) ==>
              var r := Encode([c]);
              && |r| == 3 && r[0] as int == 0x25
              && (forall i | 1 <= i < 3 :: R.Digit(r[i]) || 0x41 <= r[i] as int <= 0x46)
              && 16 * HexDocumented(r[1] as int) + HexDocumented(r[2] as int) == c as int
  {
    assert [c][1..] == "";
    assert Encode([c]) == EncodeByte(c);
  }

  // ---------------------------------------------------------------- split_path

  function PathPart(target: string): string {
    target[..Find(target, '?')]
  }

  function QueryPart(target: string): string {
    var k := Find(target, '?');
    if k == |target| then "" else target[k + 1..]
  }

  /** uri_ref, the struct whose fields split_path fills */
  class UriRef {
    var scheme: string
    var host: string
    var path: string
    var rawPath: string
    var rawQuery: string

    constructor ()
      ensures scheme == host == path == rawPath == rawQuery == ""
    {
      scheme, host, path, rawPath, rawQuery := "", "", "", "", "";
    }

    method SplitPath(target: string)
      modifies this`path, this`rawPath, this`rawQuery
      ensures path == Decode(PathPart(target))
      ensures rawPath == PathPart(target)
      ensures rawQuery == QueryPart(target)
    {
      var pathLast := Find(target, '?');
      var queryFirst := if pathLast == |target| then |target| else pathLast + 1;
      path := PercentDecode(target[..pathLast]);
      rawPath := target[..pathLast];
      rawQuery := target[queryFirst..];
    }
  }

  lemma SplitAtQuery(path: string, query: string)
    requires '?' !in path
    ensures PathPart(path) == path && QueryPart(path) == ""
    ensures PathPart(path + "?" + query) == path && QueryPart(path + "?" + query) == query
  {
    FindUnique(path, '?', |path|);
    var s := path + "?" + query;
    assert forall j | 0 <= j < |path| :: s[j] == path[j];
    FindUnique(s, '?', |path|);
  }
}
