/**
 * The JavaScript string operations the components rely on: truthiness of an
 * optional string, `startsWith`, `includes`, `toLowerCase` (ASCII letters),
 * `trim`, `replace(/ /g, "_")` and `encodeURIComponent`.
 */
module Text {
  import opened Wrappers

  /** JavaScript truthiness of an optional string: `undefined`, `null` and `""` are falsy. */
  predicate Present(s: Option<string>) {
    s.Some? && s.value != ""
  }

  predicate StartsWith(s: string, prefix: string) {
    |prefix| <= |s| && s[..|prefix|] == prefix
  }

  /** `sub` occurs in `s` at index `i`. */
  predicate OccursAt(s: string, sub: string, i: int) {
    0 <= i && i + |sub| <= |s| && s[i..i + |sub|] == sub
  }

  /** `s.includes(sub)`: `sub` occurs somewhere in `s` (the empty string occurs everywhere). */
  function Includes(s: string, sub: string): (r: bool)
    ensures r <==> exists i :: OccursAt(s, sub, i)
    decreases |s|
  {
    if StartsWith(s, sub) then
      assert OccursAt(s, sub, 0);
      true
    else if s == [] then
      false
    else
      var r := Includes(s[1..], sub);
      assert forall i :: OccursAt(s[1..], sub, i) ==> OccursAt(s, sub, i + 1);
      assert !OccursAt(s, sub, 0);
      assert forall i :: OccursAt(s, sub, i) && i > 0 ==> OccursAt(s[1..], sub, i - 1) by {
        forall i | OccursAt(s, sub, i) && i > 0 ensures OccursAt(s[1..], sub, i - 1) {
          assert s[1..][i - 1..i - 1 + |sub|] == s[i..i + |sub|];
        }
      }
      r
  }

  /** `toLowerCase` on one character; only the ASCII letters are mapped. */
  function LowerChar(c: char): (l: char) {
    if 'A' <= c <= 'Z' then (c as int + 32) as char else c
  }

  function Lower(s: string): (r: string)
    ensures |r| == |s|
  {
    seq(|s|, i requires 0 <= i < |s| => LowerChar(s[i]))
  }

  /**
   * Lower-casing turns each ASCII capital into its small letter, changes
   * nothing else, and doing it twice is doing it once: the query and the item
   * name are compared in one case.
   */
  lemma LowerSpec(s: string)
    ensures forall i :: 0 <= i < |s| && 'A' <= s[i] <= 'Z' ==> Lower(s)[i] == (s[i] as int - 'A' as int + 'a' as int) as char
    ensures forall i :: 0 <= i < |s| ==> !('A' <= Lower(s)[i] <= 'Z')
    ensures forall i :: 0 <= i < |s| && !('A' <= s[i] <= 'Z') ==> Lower(s)[i] == s[i]
    ensures Lower(Lower(s)) == Lower(s)
  {
  }

  /** The characters `String.prototype.trim` removes: ECMAScript WhiteSpace and LineTerminator. */
  predicate IsJsWhitespace(c: char) {
    c == '\t' || c == '\n' || c == '\U{000B}' || c == '\U{000C}' || c == '\r' || c == ' '
    || c == '\U{00A0}' || c == '\U{1680}' || ('\U{2000}' <= c <= '\U{200A}')
    || c == '\U{2028}' || c == '\U{2029}' || c == '\U{202F}' || c == '\U{205F}'
    || c == '\U{3000}' || c == '\U{FEFF}'
  }

  predicate IsBlank(s: string) {
    forall i :: 0 <= i < |s| ==> IsJsWhitespace(s[i])
  }

  /** The end of the run of whitespace in `s` that starts at `i`. */
  function BlankRunEnd(s: string, i: nat): (k: nat)
    requires i <= |s|
    ensures i <= k <= |s|
    ensures forall j :: i <= j < k ==> IsJsWhitespace(s[j])
    ensures k == |s| || !IsJsWhitespace(s[k])
    decreases |s| - i
  {
    if i < |s| && IsJsWhitespace(s[i]) then BlankRunEnd(s, i + 1) else i
  }

  /** The start of the run of whitespace in `s` that ends just before `k`. */
  function BlankRunStart(s: string, k: nat): (m: nat)
    requires k <= |s|
    ensures m <= k
    ensures forall j :: m <= j < k ==> IsJsWhitespace(s[j])
    ensures m == 0 || !IsJsWhitespace(s[m - 1])
  {
    if k > 0 && IsJsWhitespace(s[k - 1]) then BlankRunStart(s, k - 1) else k
  }

  /** `s` without its leading whitespace. */
  function TrimStart(s: string): (r: string)
    ensures |r| <= |s| && r == s[|s| - |r|..]
    ensures IsBlank(s[..|s| - |r|])
    ensures r == [] || !IsJsWhitespace(r[0])
  {
    var k := BlankRunEnd(s, 0);
    assert forall j :: 0 <= j < k ==> s[..k][j] == s[j];
    s[k..]
  }

  /** `s` without its trailing whitespace. */
  function TrimEnd(s: string): (r: string)
    ensures |r| <= |s| && r == s[..|r|]
    ensures IsBlank(s[|r|..])
    ensures r == [] || !IsJsWhitespace(r[|r| - 1])
  {
    var m := BlankRunStart(s, |s|);
    assert forall j :: 0 <= j < |s| - m ==> s[m..][j] == s[m + j];
    s[..m]
  }

  /** `s.trim()`. */
  function Trim(s: string): (r: string)
    ensures |r| <= |s|
    ensures r == [] || (!IsJsWhitespace(r[0]) && !IsJsWhitespace(r[|r| - 1]))
  {
    var t := TrimStart(s);
    var r := TrimEnd(t);
    assert r != [] ==> r[0] == t[0];
    r
  }

  /**
   * `s.trim()` is `s` itself with a blank run cut off at each end: a slice of
   * `s` with only whitespace before and after it.
   */
  lemma TrimSpec(s: string)
    ensures exists a :: (0 <= a && a + |Trim(s)| <= |s| && Trim(s) == s[a..a + |Trim(s)|]
      && IsBlank(s[..a]) && IsBlank(s[a + |Trim(s)|..]))
  {
    var t := TrimStart(s);
    TrimmedIsSlice(s, t, TrimEnd(t));
  }

  /** A prefix of a suffix of `s`, with blank parts cut off on both sides, is a slice of `s`. */
  lemma TrimmedIsSlice(s: string, t: string, r: string)
    requires |t| <= |s| && t == s[|s| - |t|..] && IsBlank(s[..|s| - |t|])
    requires |r| <= |t| && r == t[..|r|] && IsBlank(t[|r|..])
    ensures exists a :: 0 <= a && a + |r| <= |s| && r == s[a..a + |r|] && IsBlank(s[..a]) && IsBlank(s[a + |r|..])
  {
    var a := |s| - |t|;
    assert r == s[a..a + |r|];
    assert s[a + |r|..] == t[|r|..];
  }

  /** `s.trim()` is empty exactly when every character of `s` is whitespace. */
  lemma TrimEmptyIffBlank(s: string)
    ensures Trim(s) == [] <==> IsBlank(s)
  {
    var t := TrimStart(s);
    if Trim(s) == [] {
      assert IsBlank(t[0..]);
      assert s == s[..|s| - |t|] + t;
    } else {
      var e := TrimEnd(t);
      assert t != [];
      assert !IsJsWhitespace(s[|s| - |t|]);
    }
  }

  /** `s.replace(/ /g, "_")`: every ASCII space becomes an underscore. */
  function UnderscoreSpaces(s: string): (r: string)
    ensures |r| == |s|
  {
    seq(|s|, i requires 0 <= i < |s| => if s[i] == ' ' then '_' else s[i])
  }

  lemma UnderscoreSpacesSpec(s: string)
    ensures ' ' !in UnderscoreSpaces(s)
    ensures forall i :: 0 <= i < |s| && s[i] == ' ' ==> UnderscoreSpaces(s)[i] == '_'
    ensures forall i :: 0 <= i < |s| && s[i] != ' ' ==> UnderscoreSpaces(s)[i] == s[i]
  {
  }

  /** The characters `encodeURIComponent` leaves as they are. */
  predicate IsUnreserved(c: char) {
    ('A' <= c <= 'Z') || ('a' <= c <= 'z') || ('0' <= c <= '9')
    || c == '-' || c == '_' || c == '.' || c == '!' || c == '~' || c == '*' || c == '\'' || c == '(' || c == ')'
  }

  /** What can appear in the output of `encodeURIComponent`. */
  predicate IsUriComponentChar(c: char) {
    IsUnreserved(c) || c == '%'
  }

  function HexDigit(n: int): (c: char)
    requires 0 <= n < 16
    ensures IsUnreserved(c)
  {
    if n < 10 then ('0' as int + n) as char else ('A' as int + n - 10) as char
  }

  /** The UTF-8 encoding of a Unicode scalar value. */
  function Utf8(cp: int): (bytes: seq<int>)
    requires 0 <= cp < 0x11_0000
    ensures 1 <= |bytes| <= 4
    ensures forall k :: 0 <= k < |bytes| ==> 0 <= bytes[k] < 256
    ensures |bytes| == 1 <==> cp < 0x80
  {
    if cp < 0x80 then [cp]
    else if cp < 0x800 then [0xC0 + cp / 0x40, 0x80 + cp % 0x40]
    else if cp < 0x1_0000 then [0xE0 + cp / 0x1000, 0x80 + (cp / 0x40) % 0x40, 0x80 + cp % 0x40]
    else [0xF0 + cp / 0x4_0000, 0x80 + (cp / 0x1000) % 0x40, 0x80 + (cp / 0x40) % 0x40, 0x80 + cp % 0x40]
  }

  /** Each byte as `%XY` with upper-case hexadecimal digits. */
  function PercentBytes(bytes: seq<int>): (r: string)
    requires forall k :: 0 <= k < |bytes| ==> 0 <= bytes[k] < 256
    ensures |r| == 3 * |bytes|
    ensures forall i :: 0 <= i < |r| ==> IsUriComponentChar(r[i])
  {
    if bytes == [] then []
    else ['%', HexDigit(bytes[0] / 16), HexDigit(bytes[0] % 16)] + PercentBytes(bytes[1..])
  }

  function EncodeChar(c: char): (r: string)
  {
    if IsUnreserved(c) then [c] else PercentBytes(Utf8(c as int))
  }

  /** `encodeURIComponent(s)`, over Unicode scalar values. */
  function EncodeUriComponent(s: string): (r: string)
  {
    if s == [] then [] else EncodeChar(s[0]) + EncodeUriComponent(s[1..])
  }

  /**
   * The encoding only ever produces unreserved characters and `%`, so it
   * contains no space, `/`, `?` or `#`; and it leaves a string that is already
   * made of unreserved characters unchanged.
   */
  lemma {:induction false} EncodeUriComponentSpec(s: string)
    ensures forall i :: 0 <= i < |EncodeUriComponent(s)| ==> IsUriComponentChar(EncodeUriComponent(s)[i])
    ensures (forall i :: 0 <= i < |s| ==> IsUnreserved(s[i])) ==> EncodeUriComponent(s) == s
    ensures |s| <= |EncodeUriComponent(s)| <= 12 * |s|
  {
    if s != [] {
      EncodeUriComponentSpec(s[1..]);
      var head, tail := EncodeChar(s[0]), EncodeUriComponent(s[1..]);
      forall i | 0 <= i < |head + tail| ensures IsUriComponentChar((head + tail)[i]) {
        if i >= |head| { assert (head + tail)[i] == tail[i - |head|]; }
      }
      if forall i :: 0 <= i < |s| ==> IsUnreserved(s[i]) {
        assert IsUnreserved(s[0]);
        assert forall i :: 0 <= i < |s[1..]| ==> IsUnreserved(s[1..][i]) by {
          forall i | 0 <= i < |s[1..]| ensures IsUnreserved(s[1..][i]) { assert s[1..][i] == s[i + 1]; }
        }
        assert s == [s[0]] + s[1..];
      }
    }
  }
}
