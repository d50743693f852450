/** Percent-encoding of a URL path segment, as `urllib.parse.quote(s, safe="")` does it: every
    character outside the unreserved set of section 2.3 of RFC 3986 is replaced by the
    percent-encoded octets (section 2.1 of RFC 3986) of its UTF-8 form, in upper-case hex. */
module PercentEncoding {

  /** Letters, digits and `_ . - ~`: the characters `quote` never encodes. */
  predicate IsUnreserved(c: char) {
    ('A' <= c <= 'Z') || ('a' <= c <= 'z') || ('0' <= c <= '9') || c == '_' || c == '.' || c == '-' || c == '~'
  }

  function HexDigit(n: nat): (c: char)
    requires n < 16
    ensures IsUnreserved(c)
  {
    if n < 10 then ('0' as int + n) as char else ('A' as int + n - 10) as char
  }

  function HexValue(c: char): (n: nat)
    ensures n < 16
  {
    if '0' <= c <= '9' then c as int - '0' as int
    else if 'A' <= c <= 'F' then c as int - 'A' as int + 10
    else 0
  }

  lemma HexRoundTrip(n: nat)
    requires n < 16
    ensures HexValue(HexDigit(n)) == n
  {
  }

  /** The UTF-8 octets of a character. */
  function Utf8(c: char): (bs: seq<nat>)
    ensures 1 <= |bs| <= 4
    ensures forall i :: 0 <= i < |bs| ==> bs[i] < 256
    ensures (c as int < 128) <==> |bs| == 1
    ensures c as int < 128 ==> bs == [c as int]
  {
    var cp := c as int;
    if cp < 0x80 then [cp]
    else if cp < 0x800 then [0xC0 + cp / 64, 0x80 + cp % 64]
    else if cp < 0x1_0000 then [0xE0 + cp / 4096, 0x80 + (cp / 64) % 64, 0x80 + cp % 64]
    else [0xF0 + cp / 262144, 0x80 + (cp / 4096) % 64, 0x80 + (cp / 64) % 64, 0x80 + cp % 64]
  }

  /** `%XY` for one octet. */
  function PercentOctet(b: nat): string
    requires b < 256
  {
    ['%', HexDigit(b / 16), HexDigit(b % 16)]
  }

  function PercentOctets(bs: seq<nat>): string
    requires forall i :: 0 <= i < |bs| ==> bs[i] < 256
  {
    if bs == [] then [] else PercentOctet(bs[0]) + PercentOctets(bs[1..])
  }

  function EncodeChar(c: char): string {
    if IsUnreserved(c) then [c] else PercentOctets(Utf8(c))
  }

  /** `quote(s, safe="")` */
  function PercentEncode(s: string): string {
    if s == [] then [] else EncodeChar(s[0]) + PercentEncode(s[1..])
  }

  /** The inverse for octets below 128: `%XY` becomes the character with that code. */
  function PercentDecode(s: string): string
    decreases |s|
  {
    if |s| >= 3 && s[0] == '%' then [(16 * HexValue(s[1]) + HexValue(s[2])) as char] + PercentDecode(s[3..])
    else if s == [] then []
    else [s[0]] + PercentDecode(s[1..])
  }

  /** An encoded string holds only unreserved characters and `%`: in particular no `/`, `?` or
      space, so the model stays one path segment. */
  lemma {:induction false} EncodedAlphabet(s: string)
    ensures forall i :: 0 <= i < |PercentEncode(s)| ==> IsUnreserved(PercentEncode(s)[i]) || PercentEncode(s)[i] == '%'
  {
    if s != [] {
      EncodedAlphabet(s[1..]);
      OctetsAlphabet(Utf8(s[0]));
      var e, r := EncodeChar(s[0]), PercentEncode(s[1..]);
      forall i | 0 <= i < |e + r| ensures IsUnreserved((e + r)[i]) || (e + r)[i] == '%' {
        if i >= |e| {
          assert (e + r)[i] == r[i - |e|];
        }
      }
    }
  }

  lemma {:induction false} OctetsAlphabet(bs: seq<nat>)
    requires forall i :: 0 <= i < |bs| ==> bs[i] < 256
    ensures forall i :: 0 <= i < |PercentOctets(bs)| ==> IsUnreserved(PercentOctets(bs)[i]) || PercentOctets(bs)[i] == '%'
  {
    if bs != [] {
      OctetsAlphabet(bs[1..]);
      var e, r := PercentOctet(bs[0]), PercentOctets(bs[1..]);
      forall i | 0 <= i < |e + r| ensures IsUnreserved((e + r)[i]) || (e + r)[i] == '%' {
        if i >= |e| {
          assert (e + r)[i] == r[i - |e|];
        }
      }
    }
  }

  /** Decoding undoes the encoding of an ASCII string. */
  lemma {:induction false} DecodeEncodeAscii(s: string)
    requires forall i :: 0 <= i < |s| ==> s[i] as int < 128
    ensures PercentDecode(PercentEncode(s)) == s
  {
    if s != [] {
      var c, rest := s[0], PercentEncode(s[1..]);
      DecodeEncodeAscii(s[1..]);
      if IsUnreserved(c) {
        assert c != '%';
        assert ([c] + rest)[1..] == rest;
      } else {
        var b := c as int;
        assert Utf8(c) == [b];
        assert PercentOctets([b]) == PercentOctet(b);
        var e := PercentOctet(b);
        HexRoundTrip(b / 16);
        HexRoundTrip(b % 16);
        assert (e + rest)[3..] == rest;
        assert (e + rest)[..3] == e;
      }
      assert s == [c] + s[1..];
    }
  }
}
