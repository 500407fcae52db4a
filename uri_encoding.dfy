/** `encodeURIComponent`: every character outside the unreserved set of
    ECMAScript (A-Z a-z 0-9 - _ . ! ~ * ' ( )) becomes the percent-escaped
    bytes of its UTF-8 encoding, `%XX` with upper-case hexadecimal digits.
    Characters are Unicode scalar values, so the lone-surrogate error of the
    JavaScript function cannot arise. */
module UriEncoding {

  /** The characters `encodeURIComponent` leaves as they are. */
  predicate Unreserved(c: char) {
    ('A' <= c <= 'Z') || ('a' <= c <= 'z') || ('0' <= c <= '9')
    || c == '-' || c == '_' || c == '.' || c == '!' || c == '~' || c == '*'
    || c == '\'' || c == '(' || c == ')'
  }

  /** A character that may appear in an encoded string. */
  predicate EncodedChar(c: char) {
    Unreserved(c) || c == '%'
  }

  function HexDigit(n: nat): (c: char)
    requires n < 16
    ensures Unreserved(c)
  {
    if n < 10 then (n + '0' as int) as char else (n - 10 + 'A' as int) as char
  }

  /** The UTF-8 bytes of a Unicode scalar value. */
  function Utf8(c: char): (bytes: seq<nat>)
    ensures 1 <= |bytes| <= 4
    ensures forall i :: 0 <= i < |bytes| ==> bytes[i] < 256
    ensures |bytes| == 1 <==> c as int < 0x80
    ensures |bytes| == 1 ==> bytes[0] == c as int
  {
    var n := c as int;
    if n < 0x80 then [n]
    else if n < 0x800 then [0xC0 + n / 64, 0x80 + n % 64]
    else if n < 0x10000 then [0xE0 + n / 4096, 0x80 + n / 64 % 64, 0x80 + n % 64]
    else [0xF0 + n / 262144, 0x80 + n / 4096 % 64, 0x80 + n / 64 % 64, 0x80 + n % 64]
  }

  /** `%XX` for each byte. */
  function PercentBytes(bytes: seq<nat>): (s: string)
    requires forall i :: 0 <= i < |bytes| ==> bytes[i] < 256
    ensures |s| == 3 * |bytes|
    ensures forall i :: 0 <= i < |s| ==> EncodedChar(s[i])
    ensures |bytes| > 0 ==> s[0] == '%'
  {
    if bytes == [] then []
    else ['%', HexDigit(bytes[0] / 16), HexDigit(bytes[0] % 16)] + PercentBytes(bytes[1..])
  }

  /** The encoding of one character: the character itself when unreserved. */
  function EncodeChar(c: char): (s: string)
    ensures 1 <= |s| <= 12
    ensures forall i :: 0 <= i < |s| ==> EncodedChar(s[i])
    ensures Unreserved(c) <==> s == [c]
    ensures !Unreserved(c) ==> s[0] == '%'
  {
    if Unreserved(c) then [c] else PercentBytes(Utf8(c))
  }

  /** `encodeURIComponent(s)`: every character becomes one to twelve
      characters, so the encoding is empty only for the empty text. */
  function Encode(s: string): (r: string)
    ensures |s| <= |r| <= 12 * |s|
  {
    if s == [] then [] else EncodeChar(s[0]) + Encode(s[1..])
  }

  /** The encoding only holds unreserved characters and `%`: no `&`, `=`,
      `#`, `/`, `?` or space that could end a query parameter. */
  lemma {:induction false} EncodeIsSafe(s: string)
    ensures forall i :: 0 <= i < |Encode(s)| ==> EncodedChar(Encode(s)[i])
    decreases |s|
  {
    if s != [] {
      EncodeIsSafe(s[1..]);
      var e, r := EncodeChar(s[0]), Encode(s[1..]);
      forall i | 0 <= i < |e + r|
        ensures EncodedChar((e + r)[i])
      {
        if i >= |e| {
          assert (e + r)[i] == r[i - |e|];
        }
      }
    }
  }

  /** Encoding distributes over concatenation. */
  lemma {:induction false} EncodeConcat(a: string, b: string)
    ensures Encode(a + b) == Encode(a) + Encode(b)
    decreases |a|
  {
    if a != [] {
      assert (a + b)[0] == a[0] && (a + b)[1..] == a[1..] + b;
      EncodeConcat(a[1..], b);
      assert Encode(a + b) == EncodeChar(a[0]) + (Encode(a[1..]) + Encode(b));
    } else {
      assert a + b == b;
    }
  }

  /** A string of unreserved characters encodes as itself. */
  lemma {:induction false} EncodeUnreserved(s: string)
    requires forall i :: 0 <= i < |s| ==> Unreserved(s[i])
    ensures Encode(s) == s
    decreases |s|
  {
    if s != [] {
      EncodeUnreserved(s[1..]);
      assert s == [s[0]] + s[1..];
    }
  }

  /** A character that is neither unreserved nor `%` never appears in an
      encoding; an unreserved character appears only where the input has it
      or as a hexadecimal digit of an escape. */
  lemma {:induction false} EncodeOmits(s: string, c: char)
    requires !EncodedChar(c)
    ensures c !in Encode(s)
  {
    EncodeIsSafe(s);
  }

  /** An upper-case letter from G to Z is not a hexadecimal digit, so it
      appears in the encoding only where it appears in the input. */
  lemma {:induction false} EncodeKeepsAbsentLetter(s: string, c: char)
    requires 'G' <= c <= 'Z' && c !in s
    ensures c !in Encode(s)
    decreases |s|
  {
    if s != [] {
      EncodeKeepsAbsentLetter(s[1..], c);
      var e := EncodeChar(s[0]);
      if !Unreserved(s[0]) {
        PercentAvoids(Utf8(s[0]), c);
      }
      assert c !in e;
    }
  }

  lemma {:induction false} PercentAvoids(bytes: seq<nat>, c: char)
    requires forall i :: 0 <= i < |bytes| ==> bytes[i] < 256
    requires 'G' <= c <= 'Z'
    ensures c !in PercentBytes(bytes)
    decreases |bytes|
  {
    if bytes != [] {
      PercentAvoids(bytes[1..], c);
    }
  }
}
