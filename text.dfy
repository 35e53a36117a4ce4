/** The string operations the crawler, backend and web clients rely on:
    whitespace stripping, ASCII lower-casing, substring tests, the date part
    of an ISO timestamp, joining with a separator, and decimal numerals. */
module Text {

  /** Whose whitespace rules apply: Python's `str.strip()` or JavaScript's
      `trim()` and `parseInt`. */
  datatype Runtime = Python | JavaScript

  /** ASCII whitespace: space, tab, line feed, carriage return, vertical tab
      and form feed for both; Python also counts the separators U+001C to
      U+001F, which JavaScript keeps (Unicode spaces beyond ASCII are not
      modelled). */
  predicate IsSpace(c: char, rt: Runtime) {
    c == ' ' || c == '\t' || c == '\n' || c == '\r' || c == '\U{000B}' || c == '\U{000C}' ||
    (rt == Python && '\U{001C}' <= c <= '\U{001F}')
  }

  predicate AllSpace(s: string, rt: Runtime) {
    forall i :: 0 <= i < |s| ==> IsSpace(s[i], rt)
  }

  /** Drop leading whitespace. */
  function StripLeft(s: string, rt: Runtime): (r: string)
    ensures |r| <= |s| && r == s[|s| - |r|..]
    ensures AllSpace(s[..|s| - |r|], rt)
    ensures r != [] ==> !IsSpace(r[0], rt)
  {
    if s != [] && IsSpace(s[0], rt) then StripLeft(s[1..], rt) else s
  }

  /** Drop trailing whitespace. */
  function StripRight(s: string, rt: Runtime): (r: string)
    ensures |r| <= |s| && r == s[..|r|]
    ensures AllSpace(s[|r|..], rt)
    ensures r != [] ==> !IsSpace(r[|r| - 1], rt)
  {
    if s != [] && IsSpace(s[|s| - 1], rt) then StripRight(s[..|s| - 1], rt) else s
  }

  /** `str.strip()` under `Python`, `String.prototype.trim()` under `JavaScript`. */
  function Strip(s: string, rt: Runtime): string {
    StripRight(StripLeft(s, rt), rt)
  }

  /** The stripped string is a contiguous piece of the input, cut only at
      whitespace, and neither starts nor ends with whitespace. */
  lemma {:induction false} StripSlice(s: string, rt: Runtime)
    ensures exists i, j :: 0 <= i <= j <= |s| && Strip(s, rt) == s[i..j] && AllSpace(s[..i], rt) && AllSpace(s[j..], rt)
    ensures Strip(s, rt) != [] ==> !IsSpace(Strip(s, rt)[0], rt) && !IsSpace(Strip(s, rt)[|Strip(s, rt)| - 1], rt)
  {
    var l := StripLeft(s, rt);
    var r := StripRight(l, rt);
    var i := |s| - |l|;
    var j := i + |r|;
    assert s[j..] == l[|r|..];
    assert r == s[i..j];
    assert 0 <= i <= j <= |s| && Strip(s, rt) == s[i..j] && AllSpace(s[..i], rt) && AllSpace(s[j..], rt);
    if r != [] {
      assert r[0] == l[0];
    }
  }

  /** A string strips to nothing exactly when it is all whitespace. */
  lemma {:induction false} StripEmpty(s: string, rt: Runtime)
    ensures Strip(s, rt) == [] <==> AllSpace(s, rt)
  {
    var l := StripLeft(s, rt);
    if Strip(s, rt) == [] {
      assert AllSpace(l, rt) by {
        assert l[0..] == l;
      }
      assert s == s[..|s| - |l|] + l;
    }
  }

  /** The two runtimes part on the information separators: Python strips a
      string of one to nothing, JavaScript keeps it whole. */
  lemma {:induction false} SeparatorsDiffer(c: char)
    requires '\U{001C}' <= c <= '\U{001F}'
    ensures Strip([c], Python) == []
    ensures Strip([c], JavaScript) == [c]
    ensures forall d :: IsSpace(d, JavaScript) ==> IsSpace(d, Python)
  {
    assert [c][1..] == [];
    assert StripLeft([c], Python) == [];
    assert StripLeft([c], JavaScript) == [c];
  }

  /** ASCII lower-casing; other characters are left alone. */
  function LowerChar(c: char): (d: char)
    ensures 'A' <= c <= 'Z' ==> 'a' <= d <= 'z' && d as int - c as int == 32
    ensures !('A' <= c <= 'Z') ==> d == c
  {
    if 'A' <= c <= 'Z' then (c as int + 32) as char else c
  }

  /** `str.lower()` restricted to ASCII letters. */
  function Lower(s: string): (r: string)
    ensures |r| == |s| && forall i :: 0 <= i < |s| ==> r[i] == LowerChar(s[i])
  {
    seq(|s|, i requires 0 <= i < |s| => LowerChar(s[i]))
  }

  predicate StartsWith(s: string, prefix: string) {
    |prefix| <= |s| && s[..|prefix|] == prefix
  }

  /** `sub` occurs in `s` starting at index `i`. */
  predicate OccursAt(s: string, sub: string, i: int) {
    0 <= i <= |s| - |sub| && s[i..i + |sub|] == sub
  }

  /** Python's `sub in s`. */
  function Contains(s: string, sub: string): (b: bool)
    ensures b <==> exists i :: OccursAt(s, sub, i)
  {
    if StartsWith(s, sub) then
      assert OccursAt(s, sub, 0);
      true
    else if |s| <= |sub| then
      assert forall i :: OccursAt(s, sub, i) ==> i == 0;
      false
    else
      var r := Contains(s[1..], sub);
      assert forall i :: OccursAt(s[1..], sub, i) <==> OccursAt(s, sub, i + 1) by {
        forall i ensures OccursAt(s[1..], sub, i) <==> OccursAt(s, sub, i + 1) {
          if 0 <= i <= |s[1..]| - |sub| {
            assert s[1..][i..i + |sub|] == s[i + 1..i + 1 + |sub|];
          }
        }
      }
      assert !OccursAt(s, sub, 0);
      assert (exists i :: OccursAt(s, sub, i)) ==> exists i :: OccursAt(s[1..], sub, i) by {
        if exists i :: OccursAt(s, sub, i) {
          var i :| OccursAt(s, sub, i);
          assert OccursAt(s[1..], sub, i - 1);
        }
      }
      r
  }

  /** `s.split("T")[0]`: everything before the first `T`, or the whole string. */
  function DatePart(s: string): (r: string)
    ensures |r| <= |s| && r == s[..|r|]
    ensures 'T' !in r
    ensures |r| < |s| ==> s[|r|] == 'T'
  {
    if s == [] || s[0] == 'T' then [] else [s[0]] + DatePart(s[1..])
  }

  /** The date part ends exactly at the first `T`. */
  lemma {:induction false} DatePartAt(s: string, n: int)
    requires 0 <= n < |s| && s[n] == 'T' && 'T' !in s[..n]
    ensures DatePart(s) == s[..n]
  {
  }

  /** `sep.join(parts)`. */
  function Join(parts: seq<string>, sep: string): (r: string)
    ensures parts == [] ==> r == []
    ensures |parts| == 1 ==> r == parts[0]
  {
    if parts == [] then []
    else if |parts| == 1 then parts[0]
    else parts[0] + sep + Join(parts[1..], sep)
  }

  lemma {:induction false} JoinCons(p: string, parts: seq<string>, sep: string)
    requires parts != []
    ensures Join([p] + parts, sep) == p + sep + Join(parts, sep)
  {
    assert ([p] + parts)[1..] == parts;
  }

  function DigitChar(d: nat): char
    requires d < 10
  {
    "0123456789"[d]
  }

  /** The decimal numeral of a natural number, no leading zeros. */
  function NatToString(n: nat): (s: string)
    ensures s != [] && (|s| > 1 ==> s[0] != '0')
    ensures forall i :: 0 <= i < |s| ==> '0' <= s[i] <= '9'
    decreases n
  {
    if n < 10 then [DigitChar(n)] else NatToString(n / 10) + [DigitChar(n % 10)]
  }

  /** JavaScript's `String(n)` for an integer. */
  function IntToString(n: int): (s: string)
    ensures s != []
  {
    if n < 0 then "-" + NatToString(-n) else NatToString(n)
  }

  /** The value of a string of decimal digits. */
  function DigitsValue(s: string): (n: nat)
    requires forall i :: 0 <= i < |s| ==> '0' <= s[i] <= '9'
  {
    if s == [] then 0 else DigitsValue(s[..|s| - 1]) * 10 + (s[|s| - 1] as int - '0' as int)
  }

  /** Reading the numeral back gives the number. */
  lemma {:induction false} NatToStringValue(n: nat)
    ensures DigitsValue(NatToString(n)) == n
    decreases n
  {
    if n >= 10 {
      var s := NatToString(n);
      NatToStringValue(n / 10);
      assert s[..|s| - 1] == NatToString(n / 10);
    }
  }

  /** Distinct numbers have distinct numerals. */
  lemma {:induction false} NatToStringInjective(m: nat, n: nat)
    requires NatToString(m) == NatToString(n)
    ensures m == n
  {
    NatToStringValue(m);
    NatToStringValue(n);
  }
}
