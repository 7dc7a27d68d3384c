/**
  UTF-8 encoding of code-point strings, as Python's str.encode('utf-8') does it.
  A Dafny char is a Unicode scalar value, so a string never holds a lone surrogate
  and every string has an encoding.
 */
module Utf8 {

  newtype byte = x: int | 0 <= x < 256

  /** Number of bytes UTF-8 spends on the code point c. */
  function Width(c: char): nat
  {
    var n := c as int;
    if n < 0x80 then 1 else if n < 0x800 then 2 else if n < 0x10000 then 3 else 4
  }

  /** A continuation byte, 10xxxxxx. */
  predicate IsContinuation(b: byte)
  {
    0x80 <= b < 0xC0
  }

  /** The UTF-8 bytes of one code point. */
  function EncodeChar(c: char): (r: seq<byte>)
    ensures |r| == Width(c)
    ensures (c as int) < 0x80 ==> r == [c as int as byte]
    ensures !IsContinuation(r[0])
    ensures forall k :: 1 <= k < |r| ==> IsContinuation(r[k])
  {
    var n := c as int;
    if n < 0x80 then [n as byte]
    else if n < 0x800 then [(0xC0 + n / 64) as byte, (0x80 + n % 64) as byte]
    else if n < 0x10000 then
      [(0xE0 + n / 4096) as byte, (0x80 + (n / 64) % 64) as byte, (0x80 + n % 64) as byte]
    else
      [(0xF0 + n / 262144) as byte, (0x80 + (n / 4096) % 64) as byte,
       (0x80 + (n / 64) % 64) as byte, (0x80 + n % 64) as byte]
  }

  /** The concatenation of a sequence of byte strings. */
  function Concat(parts: seq<seq<byte>>): seq<byte>
  {
    if parts == [] then [] else parts[0] + Concat(parts[1..])
  }

  lemma {:induction false} ConcatAppend(p: seq<seq<byte>>, q: seq<seq<byte>>)
    ensures Concat(p + q) == Concat(p) + Concat(q)
  {
    if p == [] {
      assert p + q == q;
    } else {
      assert (p + q)[1..] == p[1..] + q;
      ConcatAppend(p[1..], q);
    }
  }

  /** The encodings of the characters of s, one per character. */
  function CharEncodings(s: string): (r: seq<seq<byte>>)
    ensures |r| == |s|
    ensures forall i :: 0 <= i < |s| ==> r[i] == EncodeChar(s[i])
  {
    seq(|s|, i requires 0 <= i < |s| => EncodeChar(s[i]))
  }

  /** The UTF-8 encoding of a whole string: the encodings of its characters, in order. */
  function Encode(s: string): seq<byte>
  {
    Concat(CharEncodings(s))
  }

  /** The encoding of a non-empty string starts with the encoding of its first character. */
  lemma {:induction false} EncodeCons(s: string)
    requires s != []
    ensures Encode(s) == EncodeChar(s[0]) + Encode(s[1..])
  {
    assert CharEncodings(s)[1..] == CharEncodings(s[1..]);
  }

  /** An encoding is at least as long as the text, one byte or more per character. */
  lemma {:induction false} EncodeLength(s: string)
    ensures |Encode(s)| >= |s|
  {
    if s != [] {
      EncodeCons(s);
      EncodeLength(s[1..]);
    }
  }

  /** Encoding distributes over concatenation. */
  lemma {:induction false} EncodeConcat(a: string, b: string)
    ensures Encode(a + b) == Encode(a) + Encode(b)
  {
    assert CharEncodings(a + b) == CharEncodings(a) + CharEncodings(b);
    ConcatAppend(CharEncodings(a), CharEncodings(b));
  }

  /**
    The byte offsets of two character offsets i <= j: they are ordered, strictly when
    i < j, bounded by the length of the whole encoding, and the bytes between them are
    exactly the encoding of the characters between i and j.
   */
  lemma {:induction false} EncodeSlice(s: string, i: nat, j: nat)
    requires i <= j <= |s|
    ensures |Encode(s[..i])| <= |Encode(s[..j])| <= |Encode(s)|
    ensures i < j ==> |Encode(s[..i])| < |Encode(s[..j])|
    ensures Encode(s)[|Encode(s[..i])|..|Encode(s[..j])|] == Encode(s[i..j])
  {
    var pre, mid, post := s[..i], s[i..j], s[j..];
    assert s[..j] == pre + mid;
    assert s == (pre + mid) + post;
    EncodeConcat(pre, mid);
    EncodeConcat(pre + mid, post);
    EncodeLength(mid);
    var a, b, c := Encode(pre), Encode(mid), Encode(post);
    assert Encode(s) == (a + b) + c;
    assert ((a + b) + c)[|a|..|a| + |b|] == b;
  }

  /**
    A byte offset computed from a character offset falls on a character boundary:
    the byte there starts a character rather than continuing one.
   */
  lemma {:induction false} CharBoundary(s: string, i: nat)
    requires i < |s|
    ensures |Encode(s[..i])| < |Encode(s)|
    ensures !IsContinuation(Encode(s)[|Encode(s[..i])|])
  {
    EncodeSlice(s, i, i + 1);
    assert s[i..i + 1] == [s[i]];
    EncodeCons([s[i]]);
    assert [s[i]][1..] == [];
  }
}
