/**
 * `url_escape`: the anchor id of a header. Spaces become `_`, letters are
 * lowercased, and the text is percent-encoded the way `urllib.parse.quote`
 * does with its default `safe='/'`: UTF-8 bytes, the unreserved characters
 * of section 2.3 of RFC 3986 and `/` kept, every other byte written `%XX`
 * with upper-case hexadecimal digits (section 2.1 of RFC 3986).
 */
module UrlEscaping {
  import opened Wrappers

  type Byte = b: int | 0 <= b < 0x100

  /** `s.replace(' ', '_')`. */
  function Underscored(s: string): string {
    seq(|s|, i requires 0 <= i < |s| => if s[i] == ' ' then '_' else s[i])
  }

  /** `c.lower()` for ASCII letters; other characters are kept. */
  function LowerChar(c: char): char {
    if 'A' <= c <= 'Z' then (c as int + 32) as char else c
  }

  /** `s.lower()`, restricted to ASCII letters. */
  function Lower(s: string): string {
    seq(|s|, i requires 0 <= i < |s| => LowerChar(s[i]))
  }

  /** The UTF-8 encoding of one scalar value. */
  function CharUtf8(c: char): (r: seq<Byte>)
    ensures 1 <= |r| <= 4
    ensures (c as int < 0x80) == (|r| == 1)
    ensures c as int < 0x80 ==> r == [c as int]
    ensures c as int >= 0x80 ==> forall k :: 0 <= k < |r| ==> r[k] >= 0x80
  {
    var n := c as int;
    if n < 0x80 then [n]
    else if n < 0x800 then [0xC0 + n / 0x40, 0x80 + n % 0x40]
    else if n < 0x1_0000 then [0xE0 + n / 0x1000, 0x80 + n / 0x40 % 0x40, 0x80 + n % 0x40]
    else [0xF0 + n / 0x4_0000, 0x80 + n / 0x1000 % 0x40, 0x80 + n / 0x40 % 0x40, 0x80 + n % 0x40]
  }

  /** `s.encode('utf-8')`. */
  function Utf8(s: string): seq<Byte> {
    if s == [] then [] else CharUtf8(s[0]) + Utf8(s[1..])
  }

  /** The bytes `quote` leaves alone: ASCII letters, digits, `_.-~`, and `/`. */
  predicate SafeByte(b: Byte) {
    || ('a' as int <= b <= 'z' as int)
    || ('A' as int <= b <= 'Z' as int)
    || ('0' as int <= b <= '9' as int)
    || b == '_' as int || b == '.' as int || b == '-' as int || b == '~' as int
    || b == '/' as int
  }

  predicate SafeChar(c: char) {
    c as int < 0x100 && SafeByte(c as int)
  }

  predicate IsHexUpper(c: char) {
    '0' <= c <= '9' || 'A' <= c <= 'F'
  }

  function HexDigit(d: int): (c: char)
    requires 0 <= d < 16
    ensures IsHexUpper(c)
  {
    "0123456789ABCDEF"[d]
  }

  /** One byte as `quote` writes it. */
  function QuoteByte(b: Byte): string {
    if SafeByte(b) then [b as char] else ['%', HexDigit(b / 16), HexDigit(b % 16)]
  }

  /** `quote` on the bytes of a string. */
  function Quote(bs: seq<Byte>): string {
    if bs == [] then "" else QuoteByte(bs[0]) + Quote(bs[1..])
  }

  /** `url_escape(s)`. */
  function UrlEscape(s: string): string {
    Quote(Utf8(Lower(Underscored(s))))
  }

  /** The value of a hexadecimal digit of either case. */
  function HexValue(c: char): Option<int> {
    if '0' <= c <= '9' then Some(c as int - '0' as int)
    else if 'A' <= c <= 'F' then Some(c as int - 'A' as int + 10)
    else if 'a' <= c <= 'f' then Some(c as int - 'a' as int + 10)
    else None
  }

  /**
   * Percent-decoding into bytes: `%XX` is one byte, an ASCII character
   * stands for itself; a broken escape or a non-ASCII character fails.
   */
  function Unquote(s: string): Option<seq<Byte>>
    decreases |s|
  {
    if s == "" then Some([])
    else if s[0] == '%' then
      if |s| < 3 then None
      else
        match (HexValue(s[1]), HexValue(s[2]), Unquote(s[3..]))
        case (Some(h), Some(l), Some(rest)) => Some([h * 16 + l] + rest)
        case _ => None
    else if s[0] as int < 0x80 then
      match Unquote(s[1..])
      case Some(rest) => Some([s[0] as int] + rest)
      case None => None
    else None
  }

  lemma HexRoundTrip(d: int)
    requires 0 <= d < 16
    ensures HexValue(HexDigit(d)) == Some(d)
  {
  }

  /** Percent-decoding undoes `quote`: no byte is lost or changed. */
  lemma {:induction false} UnquoteQuote(bs: seq<Byte>)
    ensures Unquote(Quote(bs)) == Some(bs)
  {
    if bs != [] {
      UnquoteQuote(bs[1..]);
      UnquoteQuoteByte(bs[0], Quote(bs[1..]));
      assert [bs[0]] + bs[1..] == bs;
    }
  }

  /** Decoding what `quote` wrote for one byte gives that byte back, whatever follows. */
  lemma UnquoteQuoteByte(b: Byte, s: string)
    requires Unquote(s).Some?
    ensures Unquote(QuoteByte(b) + s) == Some([b] + Unquote(s).value)
  {
    if SafeByte(b) {
      UnquoteAscii(b as char, s);
    } else {
      var hi, lo := HexDigit(b / 16), HexDigit(b % 16);
      HexRoundTrip(b / 16);
      HexRoundTrip(b % 16);
      UnquoteEscape(hi, lo, s);
      SplitByte(b);
    }
  }

  /** An ASCII character other than `%` decodes to itself. */
  lemma UnquoteAscii(c: char, s: string)
    requires c != '%' && c as int < 0x80 && Unquote(s).Some?
    ensures Unquote([c] + s) == Some([c as int] + Unquote(s).value)
  {
    assert ([c] + s)[1..] == s;
  }

  /** `%` and two hexadecimal digits decode to the byte they spell. */
  lemma UnquoteEscape(hi: char, lo: char, s: string)
    requires HexValue(hi).Some? && HexValue(lo).Some? && Unquote(s).Some?
    ensures Unquote(['%', hi, lo] + s) == Some([HexValue(hi).value * 16 + HexValue(lo).value] + Unquote(s).value)
  {
    assert (['%', hi, lo] + s)[3..] == s;
  }

  lemma SplitByte(b: Byte)
    ensures (b / 16) * 16 + b % 16 == b
  {
  }

  /** What `quote` writes is only kept characters, `%` and upper-case hexadecimal digits. */
  lemma {:induction false} QuoteAlphabet(bs: seq<Byte>)
    ensures forall i :: 0 <= i < |Quote(bs)| ==>
      SafeChar(Quote(bs)[i]) || Quote(bs)[i] == '%' || IsHexUpper(Quote(bs)[i])
  {
    if bs != [] {
      QuoteAlphabet(bs[1..]);
      var s := Quote(bs);
      var h := QuoteByte(bs[0]);
      assert s == h + Quote(bs[1..]);
      forall i | 0 <= i < |s| ensures SafeChar(s[i]) || s[i] == '%' || IsHexUpper(s[i]) {
        if i >= |h| {
          assert s[i] == Quote(bs[1..])[i - |h|];
        }
      }
    }
  }

  /** `url_escape` never writes a space or a double quote, so its result is a safe attribute value. */
  lemma UrlEscapeNoSpaceOrQuote(s: string)
    ensures ' ' !in UrlEscape(s) && '"' !in UrlEscape(s)
  {
    QuoteAlphabet(Utf8(Lower(Underscored(s))));
  }

  lemma {:induction false} Utf8Append(a: string, b: string)
    ensures Utf8(a + b) == Utf8(a) + Utf8(b)
  {
    if a != [] {
      assert (a + b)[1..] == a[1..] + b;
      Utf8Append(a[1..], b);
    } else {
      assert a + b == b;
    }
  }

  lemma {:induction false} QuoteAppend(a: seq<Byte>, b: seq<Byte>)
    ensures Quote(a + b) == Quote(a) + Quote(b)
  {
    if a != [] {
      assert (a + b)[1..] == a[1..] + b;
      QuoteAppend(a[1..], b);
    } else {
      assert a + b == b;
    }
  }

  /** `url_escape` works character by character: escaping a concatenation concatenates the escapes. */
  lemma UrlEscapeAppend(a: string, b: string)
    ensures UrlEscape(a + b) == UrlEscape(a) + UrlEscape(b)
  {
    assert Underscored(a + b) == Underscored(a) + Underscored(b);
    assert Lower(Underscored(a + b)) == Lower(Underscored(a)) + Lower(Underscored(b));
    Utf8Append(Lower(Underscored(a)), Lower(Underscored(b)));
    QuoteAppend(Utf8(Lower(Underscored(a))), Utf8(Lower(Underscored(b))));
  }

  /**
   * One ASCII character: a space becomes `_`, a capital letter its small
   * letter, a kept character itself, any other character `%XX`.
   */
  lemma UrlEscapeAsciiChar(c: char)
    requires c as int < 0x80
    ensures c == ' ' ==> UrlEscape([c]) == "_"
    ensures 'A' <= c <= 'Z' ==> UrlEscape([c]) == [(c as int + 32) as char]
    ensures c != ' ' && !('A' <= c <= 'Z') && SafeChar(c) ==> UrlEscape([c]) == [c]
    ensures c != ' ' && !SafeChar(c) ==>
      UrlEscape([c]) == ['%', HexDigit(c as int / 16), HexDigit(c as int % 16)]
  {
    var l := Lower(Underscored([c]));
    assert l == [LowerChar(if c == ' ' then '_' else c)];
    assert Utf8(l) == CharUtf8(l[0]) + Utf8([]);
    assert Quote(Utf8(l)) == QuoteByte(Utf8(l)[0]) + Quote([]);
  }

  /** A character outside ASCII becomes only `%XX` triples, one per byte of its UTF-8 encoding. */
  lemma UrlEscapeNonAsciiChar(c: char)
    requires c as int >= 0x80
    ensures |UrlEscape([c])| == 3 * |CharUtf8(c)|
    ensures forall k :: 0 <= k < |CharUtf8(c)| ==> UrlEscape([c])[3 * k] == '%'
  {
    var l := Lower(Underscored([c]));
    assert l == [c];
    assert Utf8(l) == CharUtf8(c) + Utf8([]);
    assert Utf8(l) == CharUtf8(c);
    QuoteUnsafe(CharUtf8(c));
  }

  lemma {:induction false} QuoteUnsafe(bs: seq<Byte>)
    requires forall k :: 0 <= k < |bs| ==> bs[k] >= 0x80
    ensures |Quote(bs)| == 3 * |bs|
    ensures forall k :: 0 <= k < |bs| ==> Quote(bs)[3 * k] == '%'
  {
    if bs != [] {
      QuoteUnsafe(bs[1..]);
      assert Quote(bs) == QuoteByte(bs[0]) + Quote(bs[1..]);
      forall k | 0 <= k < |bs| ensures Quote(bs)[3 * k] == '%' {
        if k > 0 {
          assert Quote(bs)[3 * k] == Quote(bs[1..])[3 * (k - 1)];
        }
      }
    }
  }

  /** Decoding an anchor id gives back the UTF-8 bytes of the lowercased, underscored text. */
  lemma UrlEscapeDecodes(s: string)
    ensures Unquote(UrlEscape(s)) == Some(Utf8(Lower(Underscored(s))))
  {
    UnquoteQuote(Utf8(Lower(Underscored(s))));
  }
}
