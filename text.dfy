/**
 * String helpers from Go's `strings` package as the core uses them:
 * TrimSpace, ToUpper (ASCII letters) and Join.
 */
module Text {
  import opened Bytes

  /** Bytes that `strings.TrimSpace` removes from a byte string: ASCII white space. */
  predicate IsAsciiSpace(b: byte)
  {
    b == 9 || b == 10 || b == 11 || b == 12 || b == 13 || b == 32
  }

  /** Go's `unicode.IsSpace`: Latin-1 white space and the other White_Space code points. */
  predicate IsSpace(c: char)
  {
    || ('\t' <= c <= '\r') || c == ' ' || c == 0x85 as char || c == 0xA0 as char
    || c == 0x1680 as char || (0x2000 as char <= c <= 0x200A as char)
    || c == 0x2028 as char || c == 0x2029 as char || c == 0x202F as char
    || c == 0x205F as char || c == 0x3000 as char
  }

  /** Length of the longest prefix of `s` made of `space` elements. */
  function LeadingSpace<T>(s: seq<T>, space: T -> bool): (k: nat)
    ensures k <= |s|
  {
    if s == [] || !space(s[0]) then 0 else 1 + LeadingSpace(s[1..], space)
  }

  /** Start of the longest suffix of `s` made of `space` elements. */
  function TrailingSpace<T>(s: seq<T>, space: T -> bool): (k: nat)
    ensures k <= |s|
  {
    if s == [] || !space(s[|s| - 1]) then |s| else TrailingSpace(s[..|s| - 1], space)
  }

  lemma {:induction false} LeadingSpaceSpec<T>(s: seq<T>, space: T -> bool)
    ensures var k := LeadingSpace(s, space);
      (forall i :: 0 <= i < k ==> space(s[i])) && (k < |s| ==> !space(s[k]))
  {
    if s != [] && space(s[0]) {
      LeadingSpaceSpec(s[1..], space);
    }
  }

  lemma {:induction false} TrailingSpaceSpec<T>(s: seq<T>, space: T -> bool)
    ensures var k := TrailingSpace(s, space);
      (forall i :: k <= i < |s| ==> space(s[i])) && (k > 0 ==> !space(s[k - 1]))
  {
    if s != [] && space(s[|s| - 1]) {
      TrailingSpaceSpec(s[..|s| - 1], space);
    }
  }

  /** `strings.TrimSpace`: `s` without its leading and trailing `space` elements. */
  function Trim<T>(s: seq<T>, space: T -> bool): (r: seq<T>)
    ensures |r| <= |s|
  {
    var i := LeadingSpace(s, space);
    s[i..][..TrailingSpace(s[i..], space)]
  }

  /**
   * What is left after trimming: it neither starts nor ends with a space,
   * it is empty exactly when everything was space, and a string with no
   * space at all is left unchanged.
   */
  lemma TrimSpec<T>(s: seq<T>, space: T -> bool)
    ensures var r := Trim(s, space);
      && (r != [] ==> !space(r[0]) && !space(r[|r| - 1]))
      && (r == [] <==> forall i :: 0 <= i < |s| ==> space(s[i]))
      && ((forall i :: 0 <= i < |s| ==> !space(s[i])) ==> r == s)
  {
    var i := LeadingSpace(s, space);
    var t := s[i..];
    var j := TrailingSpace(t, space);
    LeadingSpaceSpec(s, space);
    TrailingSpaceSpec(t, space);
    assert j > 0 ==> !space(t[0]);
    assert forall k :: 0 <= k < |s| && k >= i ==> s[k] == t[k - i];
  }

  predicate IsAsciiLower(b: byte) { 'a' as int <= b <= 'z' as int }

  /** `strings.ToUpper` on one byte of an ASCII string. */
  function UpperByte(b: byte): (u: byte)
    ensures !IsAsciiLower(u)
    ensures !IsAsciiLower(b) ==> u == b
  {
    if IsAsciiLower(b) then b - 32 else b
  }

  /** `strings.ToUpper` on a byte string, byte by byte. */
  function ToUpper(s: seq<byte>): (r: seq<byte>)
    ensures |r| == |s|
    ensures forall i :: 0 <= i < |s| ==> r[i] == UpperByte(s[i])
  {
    seq(|s|, i requires 0 <= i < |s| => UpperByte(s[i]))
  }

  /** `strings.Join(parts, sep)`. */
  function Join(parts: seq<string>, sep: string): (r: string)
  {
    if |parts| == 0 then ""
    else if |parts| == 1 then parts[0]
    else parts[0] + sep + Join(parts[1..], sep)
  }

  /** Joining is the first part, the separator, then the rest joined. */
  lemma JoinCons(parts: seq<string>, sep: string)
    requires |parts| > 1
    ensures Join(parts, sep) == parts[0] + sep + Join(parts[1..], sep)
  {
  }

  /**
   * Joining two non-empty lists of parts is joining each and putting one
   * separator between them: with Join([p]) == p this fixes Join completely.
   */
  lemma {:induction false} JoinAppend(a: seq<string>, b: seq<string>, sep: string)
    requires |a| > 0 && |b| > 0
    ensures Join(a + b, sep) == Join(a, sep) + sep + Join(b, sep)
  {
    JoinCons(a + b, sep);
    if |a| == 1 {
      assert (a + b)[1..] == b;
    } else {
      assert (a + b)[1..] == a[1..] + b;
      JoinAppend(a[1..], b, sep);
      JoinCons(a, sep);
    }
  }
}
