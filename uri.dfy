/** URI text as the web2 client builds it: JavaScript's `encodeURIComponent`
    (section 19.2.6.5 of ECMA-262; every other character becomes the
    percent-encoded octets of section 2.1 of RFC 3986, with upper-case hex
    digits, of its UTF-8 form), a reference decoder that inverts it, and the
    `path?key=value&...` layout of a request URL together with a parser of it. */
module Uri {
  import opened Wrappers
  import opened Text

  newtype byte = x: int | 0 <= x < 256

  /** The characters `encodeURIComponent` leaves as they are. */
  predicate Unreserved(c: char) {
    ('A' <= c <= 'Z') || ('a' <= c <= 'z') || ('0' <= c <= '9') ||
    c == '-' || c == '_' || c == '.' || c == '!' || c == '~' || c == '*' || c == '\'' || c == '(' || c == ')'
  }

  /** The UTF-8 form of one Unicode scalar value. */
  function Utf8(c: char): (bs: seq<byte>)
    ensures 1 <= |bs| <= 4
  {
    var n := c as int;
    if n < 0x80 then [n as byte]
    else if n < 0x800 then [(0xC0 + n / 64) as byte, (0x80 + n % 64) as byte]
    else if n < 0x10000 then
      [(0xE0 + n / 4096) as byte, (0x80 + (n / 64) % 64) as byte, (0x80 + n % 64) as byte]
    else
      [(0xF0 + n / 0x40000) as byte, (0x80 + (n / 4096) % 64) as byte,
       (0x80 + (n / 64) % 64) as byte, (0x80 + n % 64) as byte]
  }

  function Utf8String(s: string): seq<byte>
  {
    if s == [] then [] else Utf8(s[0]) + Utf8String(s[1..])
  }

  predicate IsScalar(n: int) {
    0 <= n < 0xD800 || 0xE000 <= n <= 0x10FFFF
  }

  predicate Continuation(b: byte) {
    0x80 <= b < 0xC0
  }

  /** How many octets the UTF-8 sequence led by `b` has; 0 for no valid lead. */
  function SequenceLength(b: byte): nat
  {
    if b < 0x80 then 1
    else if 0xC0 <= b < 0xE0 then 2
    else if 0xE0 <= b < 0xF0 then 3
    else if 0xF0 <= b < 0xF8 then 4
    else 0
  }

  /** The scalar value a lead octet and its continuations spell. */
  function ScalarOf(bs: seq<byte>): int
    requires 1 <= |bs| <= 4
  {
    var b0 := bs[0] as int;
    if |bs| == 1 then b0
    else if |bs| == 2 then (b0 - 0xC0) * 64 + (bs[1] as int - 0x80)
    else if |bs| == 3 then (b0 - 0xE0) * 4096 + (bs[1] as int - 0x80) * 64 + (bs[2] as int - 0x80)
    else (b0 - 0xF0) * 0x40000 + (bs[1] as int - 0x80) * 4096 + (bs[2] as int - 0x80) * 64 + (bs[3] as int - 0x80)
  }

  /** UTF-8 decoding of an octet string; `None` where it is malformed. */
  function Utf8Decode(bs: seq<byte>): Option<string>
    decreases |bs|
  {
    if bs == [] then Some([])
    else
      var len := SequenceLength(bs[0]);
      if len == 0 || |bs| < len then None
      else if !(forall k :: 1 <= k < len ==> Continuation(bs[k])) then None
      else
        var n := ScalarOf(bs[..len]);
        if !IsScalar(n) then None
        else
          match Utf8Decode(bs[len..])
          case None => None
          case Some(rest) => Some([n as char] + rest)
  }

  lemma {:induction false} DivMod64(n: int)
    requires 0 <= n
    ensures n == (n / 64) * 64 + n % 64
    ensures n / 4096 == (n / 64) / 64 && n / 0x40000 == (n / 4096) / 64
    ensures n == (n / 4096) * 4096 + ((n / 64) % 64) * 64 + n % 64
    ensures n == (n / 0x40000) * 0x40000 + ((n / 4096) % 64) * 4096 + ((n / 64) % 64) * 64 + n % 64
  {
    var q := n / 64;
    var q2 := q / 64;
    assert n == q2 * 4096 + (q % 64) * 64 + n % 64;
    assert 0 <= (q % 64) * 64 + n % 64 < 4096;
    var q3 := q2 / 64;
    assert n == q3 * 0x40000 + (q2 % 64) * 4096 + (q % 64) * 64 + n % 64;
    assert 0 <= (q2 % 64) * 4096 + (q % 64) * 64 + n % 64 < 0x40000;
  }

  /** The UTF-8 form of a character is a well-formed sequence of its own length
      spelling that character. */
  lemma {:induction false} Utf8Shape(c: char)
    ensures SequenceLength(Utf8(c)[0]) == |Utf8(c)|
    ensures forall k :: 1 <= k < |Utf8(c)| ==> Continuation(Utf8(c)[k])
    ensures ScalarOf(Utf8(c)) == c as int && IsScalar(c as int)
  {
    DivMod64(c as int);
  }

  /** The UTF-8 form of a character decodes back to it, whatever follows. */
  lemma {:induction false} Utf8DecodeChar(c: char, rest: seq<byte>)
    ensures Utf8Decode(Utf8(c) + rest) ==
      match Utf8Decode(rest)
      case None => None
      case Some(t) => Some([c] + t)
  {
    var bs := Utf8(c);
    Utf8Shape(c);
    var all := bs + rest;
    assert all[..|bs|] == bs && all[|bs|..] == rest;
    assert all[0] == bs[0];
    assert forall k :: 1 <= k < |bs| ==> all[k] == bs[k];
  }

  /** Decoding undoes UTF-8 encoding. */
  lemma {:induction false} Utf8RoundTrip(s: string)
    ensures Utf8Decode(Utf8String(s)) == Some(s)
  {
    if s != [] {
      Utf8RoundTrip(s[1..]);
      Utf8DecodeChar(s[0], Utf8String(s[1..]));
      assert [s[0]] + s[1..] == s;
    }
  }

  /** An upper-case hexadecimal digit. */
  function HexDigit(d: int): (c: char)
    requires 0 <= d < 16
  {
    if d < 10 then ('0' as int + d) as char else ('A' as int + d - 10) as char
  }

  predicate IsHexDigit(c: char) {
    ('0' <= c <= '9') || ('A' <= c <= 'F') || ('a' <= c <= 'f')
  }

  function HexValue(c: char): (d: int)
    requires IsHexDigit(c)
    ensures 0 <= d < 16
  {
    if '0' <= c <= '9' then c as int - '0' as int
    else if 'A' <= c <= 'F' then c as int - 'A' as int + 10
    else c as int - 'a' as int + 10
  }

  /** `%XY`: one octet, percent-encoded. */
  function PercentOctet(b: byte): (s: string)
    ensures |s| == 3 && s[0] == '%' && IsHexDigit(s[1]) && IsHexDigit(s[2])
  {
    ['%', HexDigit(b as int / 16), HexDigit(b as int % 16)]
  }

  function PercentOctets(bs: seq<byte>): (s: string)
    ensures |s| == 3 * |bs|
  {
    if bs == [] then [] else PercentOctet(bs[0]) + PercentOctets(bs[1..])
  }

  function EncodeChar(c: char): string
  {
    if Unreserved(c) then [c] else PercentOctets(Utf8(c))
  }

  /** `encodeURIComponent`. */
  function EncodeURIComponent(s: string): string
  {
    if s == [] then [] else EncodeChar(s[0]) + EncodeURIComponent(s[1..])
  }

  /** Undo percent-encoding: `%XY` is the octet XY, any other character its UTF-8 form. */
  function PercentDecode(t: string): Option<seq<byte>>
  {
    if t == [] then Some([])
    else if t[0] == '%' then
      if |t| < 3 || !IsHexDigit(t[1]) || !IsHexDigit(t[2]) then None
      else
        match PercentDecode(t[3..])
        case None => None
        case Some(rest) => Some([(HexValue(t[1]) * 16 + HexValue(t[2])) as byte] + rest)
    else
      match PercentDecode(t[1..])
      case None => None
      case Some(rest) => Some(Utf8(t[0]) + rest)
  }

  /** The reference decoder: percent-decoding, then UTF-8 decoding. */
  function DecodeURIComponent(t: string): Option<string>
  {
    match PercentDecode(t)
    case None => None
    case Some(bs) => Utf8Decode(bs)
  }

  lemma {:induction false} PercentOctetsDecode(bs: seq<byte>, rest: string)
    ensures PercentDecode(rest).None? ==> PercentDecode(PercentOctets(bs) + rest).None?
    ensures PercentDecode(rest).Some? ==>
      PercentDecode(PercentOctets(bs) + rest) == Some(bs + PercentDecode(rest).value)
  {
    if bs == [] {
      assert PercentOctets(bs) + rest == rest;
      if PercentDecode(rest).Some? {
        assert bs + PercentDecode(rest).value == PercentDecode(rest).value;
      }
    } else {
      var b := bs[0];
      var t := PercentOctets(bs) + rest;
      assert t[0] == '%' && t[1] == HexDigit(b as int / 16) && t[2] == HexDigit(b as int % 16);
      assert HexValue(t[1]) == b as int / 16 && HexValue(t[2]) == b as int % 16;
      assert (HexValue(t[1]) * 16 + HexValue(t[2])) as byte == b;
      assert t[3..] == PercentOctets(bs[1..]) + rest;
      PercentOctetsDecode(bs[1..], rest);
      if PercentDecode(rest).Some? {
        var r := PercentDecode(rest).value;
        assert PercentDecode(t) == Some([b] + (bs[1..] + r));
        ConsAppend(bs, r);
      }
    }
  }

  lemma {:induction false} ConsAppend<T>(s: seq<T>, r: seq<T>)
    requires s != []
    ensures [s[0]] + (s[1..] + r) == s + r
  {
    assert s == [s[0]] + s[1..];
  }

  lemma {:induction false} EncodeCharDecode(c: char, rest: string)
    ensures PercentDecode(rest).None? ==> PercentDecode(EncodeChar(c) + rest).None?
    ensures PercentDecode(rest).Some? ==>
      PercentDecode(EncodeChar(c) + rest) == Some(Utf8(c) + PercentDecode(rest).value)
  {
    if Unreserved(c) {
      assert ([c] + rest)[1..] == rest;
    } else {
      PercentOctetsDecode(Utf8(c), rest);
    }
  }

  lemma {:induction false} PercentRoundTrip(s: string)
    ensures PercentDecode(EncodeURIComponent(s)) == Some(Utf8String(s))
  {
    if s != [] {
      PercentRoundTrip(s[1..]);
      EncodeCharDecode(s[0], EncodeURIComponent(s[1..]));
    }
  }

  /** Decoding an encoded component gives the original text back. */
  lemma {:induction false} EncodeDecode(s: string)
    ensures DecodeURIComponent(EncodeURIComponent(s)) == Some(s)
  {
    PercentRoundTrip(s);
    Utf8RoundTrip(s);
  }

  /** A character an encoded component may hold. */
  predicate Encoded(c: char) {
    Unreserved(c) || c == '%' || IsHexDigit(c)
  }

  predicate AllEncoded(s: string) {
    forall i :: 0 <= i < |s| ==> Encoded(s[i])
  }

  lemma {:induction false} AllEncodedAppend(a: string, b: string)
    requires AllEncoded(a) && AllEncoded(b)
    ensures AllEncoded(a + b)
  {
    forall i | 0 <= i < |a + b| ensures Encoded((a + b)[i]) {
      if i >= |a| {
        assert (a + b)[i] == b[i - |a|];
      }
    }
  }

  lemma {:induction false} PercentOctetsEncoded(bs: seq<byte>)
    ensures AllEncoded(PercentOctets(bs))
  {
    if bs != [] {
      PercentOctetsEncoded(bs[1..]);
      AllEncodedAppend(PercentOctet(bs[0]), PercentOctets(bs[1..]));
    }
  }

  /** An encoded component holds only unreserved characters and `%XY` escapes. */
  lemma {:induction false} EncodedChars(s: string)
    ensures AllEncoded(EncodeURIComponent(s))
  {
    if s != [] {
      EncodedChars(s[1..]);
      if !Unreserved(s[0]) {
        PercentOctetsEncoded(Utf8(s[0]));
      }
      AllEncodedAppend(EncodeChar(s[0]), EncodeURIComponent(s[1..]));
    }
  }

  /** No character that delimits the parts of a URL. */
  predicate NoSeparator(s: string) {
    '/' !in s && '?' !in s && '#' !in s && '&' !in s && '=' !in s
  }

  /** So an encoded component holds none of the separators `/ ? # & =` of a URL. */
  lemma {:induction false} EncodedSafe(s: string)
    ensures NoSeparator(EncodeURIComponent(s))
  {
    var e := EncodeURIComponent(s);
    EncodedChars(s);
    forall i | 0 <= i < |e| ensures e[i] != '/' && e[i] != '?' && e[i] != '#' && e[i] != '&' && e[i] != '=' {
      assert Encoded(e[i]);
    }
  }

  /** Text made only of unreserved characters is sent as it is. */
  lemma {:induction false} EncodeUnreserved(s: string)
    requires forall i :: 0 <= i < |s| ==> Unreserved(s[i])
    ensures EncodeURIComponent(s) == s
  {
    if s != [] {
      EncodeUnreserved(s[1..]);
    }
  }

  /** `s.split(c)`: the pieces between occurrences of `c`, at least one. */
  function Split(s: string, c: char): (parts: seq<string>)
    ensures parts != []
  {
    if s == [] then [[]]
    else if s[0] == c then [[]] + Split(s[1..], c)
    else
      var r := Split(s[1..], c);
      [[s[0]] + r[0]] + r[1..]
  }

  lemma {:induction false} SplitNone(p: string, c: char)
    requires c !in p
    ensures Split(p, c) == [p]
  {
    if p != [] {
      SplitNone(p[1..], c);
      assert [p[0]] + p[1..] == p;
    }
  }

  lemma {:induction false} SplitAt(p: string, c: char, rest: string)
    requires c !in p
    ensures Split(p + [c] + rest, c) == [p] + Split(rest, c)
  {
    if p == [] {
      assert p + [c] + rest == [c] + rest;
      assert ([c] + rest)[1..] == rest;
    } else {
      var t := p + [c] + rest;
      assert t[1..] == p[1..] + [c] + rest;
      SplitAt(p[1..], c, rest);
      assert [p[0]] + p[1..] == p;
    }
  }

  /** A last field without the separator is split off as the last part. */
  lemma {:induction false} SplitSnoc(p: string, c: char, last: string)
    requires c !in last
    ensures Split(p + [c] + last, c) == Split(p, c) + [last]
    decreases |p|
  {
    var t := p + [c] + last;
    if p == [] {
      assert t == [c] + last && t[1..] == last;
      SplitNone(last, c);
    } else {
      assert t[1..] == p[1..] + [c] + last;
      SplitSnoc(p[1..], c, last);
    }
  }

  /** Splitting a joined list at a separator the parts do not hold gives the parts back. */
  lemma {:induction false} SplitJoin(parts: seq<string>, c: char)
    requires parts != []
    requires forall i :: 0 <= i < |parts| ==> c !in parts[i]
    ensures Split(Join(parts, [c]), c) == parts
  {
    if |parts| == 1 {
      SplitNone(parts[0], c);
    } else {
      SplitJoin(parts[1..], c);
      SplitAt(parts[0], c, Join(parts[1..], [c]));
      assert Join(parts, [c]) == parts[0] + [c] + Join(parts[1..], [c]);
    }
  }

  /** One `key=value` field of a query string. */
  function Field(p: (string, string)): string { p.0 + "=" + p.1 }

  /** `key=value&key=value...`, as the client's template strings lay it out. */
  function QueryString(params: seq<(string, string)>): string
  {
    Join(seq(|params|, i requires 0 <= i < |params| => Field(params[i])), "&")
  }

  /** A request URL: the path, then `?` and the query when there is one. */
  function Url(path: string, params: seq<(string, string)>): string
  {
    if params == [] then path else path + "?" + QueryString(params)
  }

  /** The index of the first `c` in `s`, or `|s|`. */
  function IndexOf(s: string, c: char): (i: nat)
    ensures i <= |s| && c !in s[..i] && (i < |s| ==> s[i] == c)
  {
    if s == [] then 0 else if s[0] == c then 0 else 1 + IndexOf(s[1..], c)
  }

  lemma {:induction false} IndexOfAbsent(s: string, c: char)
    requires c !in s
    ensures IndexOf(s, c) == |s|
  {
    if s != [] {
      IndexOfAbsent(s[1..], c);
    }
  }

  /** Read one field back: the key up to the first `=`, the value after it. */
  function ParseField(f: string): (string, string)
  {
    var i := IndexOf(f, '=');
    if i == |f| then (f, "") else (f[..i], f[i + 1..])
  }

  /** Read a URL back into its path and its query parameters. */
  function ParseUrl(u: string): (string, seq<(string, string)>)
  {
    var i := IndexOf(u, '?');
    if i == |u| then (u, [])
    else
      var fields := Split(u[i + 1..], '&');
      (u[..i], seq(|fields|, k requires 0 <= k < |fields| => ParseField(fields[k])))
  }

  /** A URL without `?` is a bare path. */
  lemma {:induction false} ParseUrlPlain(u: string)
    requires '?' !in u
    ensures ParseUrl(u) == (u, [])
  {
    IndexOfAbsent(u, '?');
  }

  /** A key and value that survive the layout: no `=` or `&` in the key, no `&` in the value. */
  predicate SafeParam(p: (string, string)) {
    '=' !in p.0 && '&' !in p.0 && '&' !in p.1
  }

  lemma {:induction false} ParseFieldOf(p: (string, string))
    requires '=' !in p.0
    ensures ParseField(Field(p)) == p
  {
    var f := Field(p);
    assert f[|p.0|] == '=' && '=' !in f[..|p.0|];
    assert f[..|p.0|] == p.0 && f[|p.0| + 1..] == p.1;
  }

  /** A URL built from a path without `?` and safe parameters parses back to them. */
  lemma {:induction false} UrlRoundTrip(path: string, params: seq<(string, string)>)
    requires '?' !in path
    requires forall i :: 0 <= i < |params| ==> SafeParam(params[i])
    ensures ParseUrl(Url(path, params)) == (path, params)
  {
    var u := Url(path, params);
    if params != [] {
      var fields := seq(|params|, i requires 0 <= i < |params| => Field(params[i]));
      forall i | 0 <= i < |fields| ensures '&' !in fields[i] {
        assert fields[i] == params[i].0 + "=" + params[i].1;
      }
      SplitJoin(fields, '&');
      assert u[|path|] == '?' && '?' !in u[..|path|];
      assert u[..|path|] == path;
      assert u[|path| + 1..] == QueryString(params);
      assert IndexOf(u, '?') == |path|;
      var parsed := ParseUrl(u).1;
      assert Split(u[|path| + 1..], '&') == fields;
      assert |parsed| == |params|;
      forall k | 0 <= k < |params| ensures parsed[k] == params[k] {
        ParseFieldOf(params[k]);
      }
      assert parsed == params;
      assert ParseUrl(u).0 == u[..|path|];
    } else {
      IndexOfAbsent(path, '?');
    }
  }
}
