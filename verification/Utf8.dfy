/** UTF-8 byte sequences (RFC 3629, sections 3 and 4) and character boundaries. */
module Utf8 {
  import opened Parts

  predicate Tail(b: Byte) {
    0x80 <= b <= 0xBF
  }

  /** Bytes `i` up to `n` are tail bytes. */
  predicate Tails(s: Text, i: nat, n: nat) {
    n <= |s| && forall k :: i <= k < n ==> Tail(s[k])
  }

  /** Length in bytes of the character that starts `s`, or 0 when none does. */
  function CharLen(s: Text): (n: nat)
    ensures n <= 4 && n <= |s|
  {
    if s == [] then 0
    else
      var b := s[0];
      if b <= 0x7F then 1
      else if 0xC2 <= b <= 0xDF && Tails(s, 1, 2) then 2
      else if 0xE0 <= b <= 0xEF && Tails(s, 1, 3) && (b == 0xE0 ==> s[1] >= 0xA0) && (b == 0xED ==> s[1] <= 0x9F) then 3
      else if 0xF0 <= b <= 0xF4 && Tails(s, 1, 4) && (b == 0xF0 ==> s[1] >= 0x90) && (b == 0xF4 ==> s[1] <= 0x8F) then 4
      else 0
  }

  predicate Valid(s: Text)
    decreases |s|
  {
    s == [] || (CharLen(s) > 0 && Valid(s[CharLen(s)..]))
  }

  /** No character spans the position. */
  predicate Boundary(s: Text, k: nat) {
    k == 0 || k == |s| || (k < |s| && !Tail(s[k]))
  }

  lemma CharStart(s: Text)
    requires Valid(s) && s != []
    ensures !Tail(s[0]) && forall k :: 0 < k < CharLen(s) ==> Tail(s[k])
  {
  }

  lemma SameChar(s: Text, k: nat)
    requires CharLen(s) <= k <= |s| && CharLen(s) > 0
    ensures CharLen(s[..k]) == CharLen(s)
  {
    assert forall i :: 0 <= i < k ==> s[..k][i] == s[i];
  }

  /** Cutting valid text at a boundary leaves two valid texts. */
  lemma {:induction false} BoundarySplits(s: Text, k: nat)
    requires Valid(s) && k <= |s| && Boundary(s, k)
    ensures Valid(s[..k]) && Valid(s[k..])
    decreases |s|
  {
    if k == 0 {
      assert s[..0] == [] && s[0..] == s;
    } else if s != [] {
      CharStart(s);
      var n := CharLen(s);
      assert k >= n;
      var rest := s[n..];
      assert k < |s| ==> rest[k - n] == s[k];
      BoundarySplits(rest, k - n);
      SameChar(s, k);
      assert s[..k][n..] == rest[..k - n];
      assert s[k..] == rest[k - n..];
    }
  }

  /** The end of the first character is a boundary. */
  lemma NextBoundary(s: Text)
    requires Valid(s) && s != []
    ensures 0 < CharLen(s) && Boundary(s, CharLen(s))
  {
    var n := CharLen(s);
    if n < |s| {
      CharStart(s[n..]);
      assert s[n..][0] == s[n];
    }
  }

  // ── the characters behind the bytes ───────────────────────────────────────

  /** A Unicode code point that is no surrogate. */
  type Scalar = c: nat | c <= 0xD7FF || 0xE000 <= c <= 0x10FFFF

  /** The bytes of one character (RFC 3629, section 3): the shortest form that holds it. */
  function EncodeChar(c: Scalar): Text {
    if c <= 0x7F then [c]
    else if c <= 0x7FF then [0xC0 + c / 64, 0x80 + c % 64]
    else if c <= 0xFFFF then [0xE0 + c / 4096, 0x80 + c / 64 % 64, 0x80 + c % 64]
    else [0xF0 + c / 262144, 0x80 + c / 4096 % 64, 0x80 + c / 64 % 64, 0x80 + c % 64]
  }

  function Encode(chars: seq<Scalar>): Text {
    if chars == [] then [] else EncodeChar(chars[0]) + Encode(chars[1..])
  }

  /** An encoded character is recognised, with its length, whatever follows it. */
  lemma EncodedIsChar(c: Scalar, rest: Text)
    ensures CharLen(EncodeChar(c) + rest) == |EncodeChar(c)|
  {
  }

  /** The groups of six bits of a number. */
  lemma Sextets(a: nat, b: nat, c: nat, d: nat)
    requires b < 64 && c < 64 && d < 64
    ensures var n := a * 262144 + b * 4096 + c * 64 + d;
      n / 262144 == a && n / 4096 % 64 == b && n / 64 % 64 == c && n % 64 == d
  {
    var n := a * 262144 + b * 4096 + c * 64 + d;
    assert n / 64 == a * 4096 + b * 64 + c;
    assert n / 4096 == a * 64 + b;
  }

  /** The code point that three or four bytes stand for, by its sextets. */
  lemma LongChar(s: Text, a: nat, b: nat, c: nat, d: nat) returns (n: Scalar)
    requires b < 64 && c < 64 && d < 64
    requires (a == 0 && b < 16 && CharLen(s) == 3 && s[..3] == [0xE0 + b, 0x80 + c, 0x80 + d])
          || (a < 5 && CharLen(s) == 4 && s[..4] == [0xF0 + a, 0x80 + b, 0x80 + c, 0x80 + d])
    ensures s[..CharLen(s)] == EncodeChar(n)
  {
    Sextets(a, b, c, d);
    var code: nat := a * 262144 + b * 4096 + c * 64 + d;
    assert s[0] == s[..CharLen(s)][0] && s[1] == s[..CharLen(s)][1];
    n := code;
  }

  /** What is recognised as a character is the encoding of one. */
  lemma CharIsEncoded(s: Text) returns (c: Scalar)
    requires CharLen(s) > 0
    ensures s[..CharLen(s)] == EncodeChar(c)
  {
    var b: seq<int> := s;
    if CharLen(s) == 1 {
      c := b[0];
    } else if CharLen(s) == 2 {
      c := (b[0] - 0xC0) * 64 + (b[1] - 0x80);
    } else if CharLen(s) == 3 {
      c := LongChar(s, 0, b[0] - 0xE0, b[1] - 0x80, b[2] - 0x80);
    } else {
      c := LongChar(s, b[0] - 0xF0, b[1] - 0x80, b[2] - 0x80, b[3] - 0x80);
    }
  }

  lemma {:induction false} EncodedIsValid(chars: seq<Scalar>)
    ensures Valid(Encode(chars))
  {
    if chars == [] {
    } else {
      var first, rest := EncodeChar(chars[0]), Encode(chars[1..]);
      EncodedIsChar(chars[0], rest);
      EncodedIsValid(chars[1..]);
      assert (first + rest)[|first|..] == rest;
    }
  }

  lemma EncodeCons(s: Text, n: nat, c: Scalar, rest: seq<Scalar>)
    requires n <= |s| && s[..n] == EncodeChar(c) && s[n..] == Encode(rest)
    ensures s == Encode([c] + rest)
  {
    assert ([c] + rest)[1..] == rest && s == s[..n] + s[n..];
  }

  lemma {:induction false} ValidIsEncoded(s: Text) returns (chars: seq<Scalar>)
    requires Valid(s)
    ensures s == Encode(chars)
    decreases |s|
  {
    if s == [] {
      chars := [];
    } else {
      var c := CharIsEncoded(s);
      var rest := ValidIsEncoded(s[CharLen(s)..]);
      EncodeCons(s, CharLen(s), c, rest);
      chars := [c] + rest;
    }
  }

  /** A text is valid if and only if it is some characters in UTF-8. */
  lemma ValidIff(s: Text)
    ensures Valid(s) <==> exists chars :: s == Encode(chars)
  {
    if Valid(s) {
      var chars := ValidIsEncoded(s);
    }
    if chars :| s == Encode(chars) {
      EncodedIsValid(chars);
    }
  }
}
