/**
  Percent-encoding as urllib.parse.quote(s, safe="") performs it: the string is
  encoded as UTF-8 and every byte outside the unreserved set of section 2.3 of
  RFC 3986 (A-Z a-z 0-9 - . _ ~) becomes '%' and two upper-case hexadecimal
  digits (section 2.1 of RFC 3986). This is the encoding section 3.6 of RFC 5849
  prescribes for OAuth 1.0a.
 */
module PercentEncoding {
  import opened Wrappers
  import Utf8

  /** The characters quote() with safe="" leaves bare. */
  predicate IsUnreserved(ch: char)
  {
    ('A' <= ch <= 'Z') || ('a' <= ch <= 'z') || ('0' <= ch <= '9')
    || ch == '-' || ch == '.' || ch == '_' || ch == '~'
  }

  predicate IsUpperHex(ch: char)
  {
    ('0' <= ch <= '9') || ('A' <= ch <= 'F')
  }

  /** Every character quote() can produce. */
  predicate IsQuotedChar(ch: char)
  {
    IsUnreserved(ch) || ch == '%'
  }

  function HexDigit(d: nat): (ch: char)
    requires d < 16
    ensures IsUpperHex(ch)
  {
    "0123456789ABCDEF"[d]
  }

  /** The value of an upper-case hexadecimal digit. */
  function HexValue(ch: char): (d: nat)
    requires IsUpperHex(ch)
    ensures d < 16
  {
    if ch <= '9' then (ch as int) - ('0' as int) else (ch as int) - ('A' as int) + 10
  }

  lemma {:induction false} HexRoundTrip(d: nat)
    requires d < 16
    ensures HexValue(HexDigit(d)) == d
  {
  }

  /** The byte of an unreserved character. */
  predicate IsUnreservedByte(b: Utf8.byte)
  {
    b < 128 && IsUnreserved((b as int) as char)
  }

  function QuoteByte(b: Utf8.byte): (r: string)
    ensures forall k :: 0 <= k < |r| ==> IsQuotedChar(r[k])
  {
    if IsUnreservedByte(b) then [(b as int) as char]
    else ['%', HexDigit((b as int) / 16), HexDigit((b as int) % 16)]
  }

  /** The concatenation of a sequence of strings. */
  function Flatten(parts: seq<string>): string
  {
    if parts == [] then "" else parts[0] + Flatten(parts[1..])
  }

  /** The encoded form of each byte, one per byte. */
  function ByteQuotes(bs: seq<Utf8.byte>): (r: seq<string>)
    ensures |r| == |bs|
    ensures forall i :: 0 <= i < |bs| ==> r[i] == QuoteByte(bs[i])
  {
    seq(|bs|, i requires 0 <= i < |bs| => QuoteByte(bs[i]))
  }

  /** The encoded forms of the bytes, in order. */
  function QuoteBytes(bs: seq<Utf8.byte>): string
  {
    Flatten(ByteQuotes(bs))
  }

  /** Encoding a non-empty byte string starts with its first byte's encoded form. */
  lemma {:induction false} QuoteBytesCons(bs: seq<Utf8.byte>)
    requires bs != []
    ensures QuoteBytes(bs) == QuoteByte(bs[0]) + QuoteBytes(bs[1..])
  {
    assert ByteQuotes(bs)[1..] == ByteQuotes(bs[1..]);
  }

  /** quote(s, safe=""). */
  function Quote(s: string): string
  {
    QuoteBytes(Utf8.Encode(s))
  }

  /** Only unreserved characters, '%' and upper-case hexadecimal digits come out of the encoding. */
  lemma {:induction false} QuoteBytesChars(bs: seq<Utf8.byte>)
    ensures forall k :: 0 <= k < |QuoteBytes(bs)| ==> IsQuotedChar(QuoteBytes(bs)[k])
  {
    if bs != [] {
      QuoteBytesCons(bs);
      QuoteBytesChars(bs[1..]);
    }
  }

  lemma {:induction false} QuoteChars(s: string)
    ensures forall k :: 0 <= k < |Quote(s)| ==> IsQuotedChar(Quote(s)[k])
  {
    QuoteBytesChars(Utf8.Encode(s));
  }

  /** Percent-decoding to bytes; None for text that quote() cannot have produced. */
  function Unquote(s: string): Option<seq<Utf8.byte>>
    decreases |s|
  {
    if s == [] then Some([])
    else if IsUnreserved(s[0]) then
      match Unquote(s[1..])
      case Some(rest) => Some([(s[0] as int) as Utf8.byte] + rest)
      case None => None
    else if s[0] == '%' && |s| >= 3 && IsUpperHex(s[1]) && IsUpperHex(s[2]) then
      match Unquote(s[3..])
      case Some(rest) => Some([(HexValue(s[1]) * 16 + HexValue(s[2])) as Utf8.byte] + rest)
      case None => None
    else None
  }

  lemma {:induction false} UnquoteQuoteBytes(bs: seq<Utf8.byte>)
    ensures Unquote(QuoteBytes(bs)) == Some(bs)
  {
    if bs != [] {
      var b := bs[0];
      var head := QuoteByte(b);
      var tail := QuoteBytes(bs[1..]);
      UnquoteQuoteBytes(bs[1..]);
      QuoteBytesCons(bs);
      if IsUnreservedByte(b) {
        assert (head + tail)[1..] == tail;
      } else {
        var hi, lo := (b as int) / 16, (b as int) % 16;
        HexRoundTrip(hi);
        HexRoundTrip(lo);
        assert (head + tail)[3..] == tail;
        assert head + tail == ['%', HexDigit(hi), HexDigit(lo)] + tail;
      }
      assert [bs[0]] + bs[1..] == bs;
    }
  }

  /** Decoding undoes quote(): the encoded text determines the original bytes. */
  lemma {:induction false} UnquoteQuote(s: string)
    ensures Unquote(Quote(s)) == Some(Utf8.Encode(s))
  {
    UnquoteQuoteBytes(Utf8.Encode(s));
  }

  /** quote() is injective, so distinct keys or values stay distinct after encoding. */
  lemma {:induction false} QuoteInjective(a: string, b: string)
    requires Quote(a) == Quote(b)
    ensures Utf8.Encode(a) == Utf8.Encode(b)
  {
    UnquoteQuote(a);
    UnquoteQuote(b);
  }

  lemma {:induction false} FlattenAppend(p: seq<string>, q: seq<string>)
    ensures Flatten(p + q) == Flatten(p) + Flatten(q)
  {
    if p == [] {
      assert p + q == q;
    } else {
      assert (p + q)[1..] == p[1..] + q;
      FlattenAppend(p[1..], q);
    }
  }

  lemma {:induction false} QuoteBytesConcat(a: seq<Utf8.byte>, b: seq<Utf8.byte>)
    ensures QuoteBytes(a + b) == QuoteBytes(a) + QuoteBytes(b)
  {
    assert ByteQuotes(a + b) == ByteQuotes(a) + ByteQuotes(b);
    FlattenAppend(ByteQuotes(a), ByteQuotes(b));
  }

  /** Text made of unreserved characters only is left as it is. */
  lemma {:induction false} QuoteUnreserved(s: string)
    requires forall k :: 0 <= k < |s| ==> IsUnreserved(s[k])
    ensures Quote(s) == s
  {
    if s != [] {
      QuoteUnreserved(s[1..]);
      assert Utf8.EncodeChar(s[0]) == [(s[0] as int) as Utf8.byte];
      Utf8.EncodeCons(s);
      QuoteBytesConcat([(s[0] as int) as Utf8.byte], Utf8.Encode(s[1..]));
      QuoteBytesCons([(s[0] as int) as Utf8.byte]);
      assert ByteQuotes([]) == [];
      assert s == [s[0]] + s[1..];
    }
  }
}
