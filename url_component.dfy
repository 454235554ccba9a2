/** Percent-encoding of the characters a bare query-string component cannot carry,
    and the decoding a server applies to a query-string component
    (`%XY` is the character with hexadecimal code XY, `+` is a space). */
module UrlComponent {
  import opened Wrappers
  import Strings

  /** `%` starts an escape, `&` ends a parameter, `#` starts the fragment, `+` reads as a space. */
  predicate Reserved(c: char) { c == '%' || c == '&' || c == '#' || c == '+' }

  /** No character of `s` needs escaping. */
  predicate Plain(s: string) { forall i :: 0 <= i < |s| ==> !Reserved(s[i]) }

  function HexDigit(d: nat): (c: char)
    requires d < 16
    ensures '0' <= c <= '9' || 'A' <= c <= 'F'
  {
    if d < 10 then ('0' as int + d) as char else ('A' as int + d - 10) as char
  }

  function HexValue(c: char): (r: Option<nat>)
    ensures r.Some? ==> r.value < 16
  {
    if '0' <= c <= '9' then Some(c as int - '0' as int)
    else if 'A' <= c <= 'F' then Some(c as int - 'A' as int + 10)
    else if 'a' <= c <= 'f' then Some(c as int - 'a' as int + 10)
    else None
  }

  lemma HexRoundTrip(d: nat)
    requires d < 16
    ensures HexValue(HexDigit(d)) == Some(d)
  {
  }

  function EncodeChar(c: char): (e: string)
    ensures Reserved(c) ==> |e| == 3 && e[0] == '%'
    ensures !Reserved(c) ==> e == [c]
  {
    if Reserved(c) then ['%', HexDigit(c as int / 16), HexDigit(c as int % 16)] else [c]
  }

  /** Escapes every reserved character of `s` and leaves the others as they are. */
  function Encode(s: string): (r: string)
    ensures '&' !in r && '#' !in r && '+' !in r
    ensures Plain(s) ==> r == s
  {
    if s == [] then [] else EncodeChar(s[0]) + Encode(s[1..])
  }

  /** How a server reads a query-string component. */
  function Decode(s: string): string
  {
    if s == [] then []
    else if s[0] == '%' && |s| >= 3 && HexValue(s[1]).Some? && HexValue(s[2]).Some? then
      [(16 * HexValue(s[1]).value + HexValue(s[2]).value) as char] + Decode(s[3..])
    else if s[0] == '+' then [' '] + Decode(s[1..])
    else [s[0]] + Decode(s[1..])
  }

  lemma DecodeEncodeChar(c: char, t: string)
    ensures Decode(EncodeChar(c) + t) == [c] + Decode(t)
  {
    var s := EncodeChar(c) + t;
    if Reserved(c) {
      HexRoundTrip(c as int / 16);
      HexRoundTrip(c as int % 16);
      assert s[3..] == t;
    } else {
      assert s[1..] == t;
    }
  }

  /** Decoding undoes encoding, whatever follows the encoded text. */
  lemma {:induction false} DecodeEncodeThen(a: string, t: string)
    ensures Decode(Encode(a) + t) == a + Decode(t)
  {
    if a != [] {
      var c, r := a[0], a[1..];
      assert Encode(a) == EncodeChar(c) + Encode(r);
      Strings.Assoc(EncodeChar(c), Encode(r), t);
      DecodeEncodeChar(c, Encode(r) + t);
      DecodeEncodeThen(r, t);
      Strings.Assoc([c], r, Decode(t));
      assert a == [c] + r;
    } else {
      assert Encode(a) + t == t;
    }
  }

  lemma DecodeEncode(a: string)
    ensures Decode(Encode(a)) == a
  {
    DecodeEncodeThen(a, []);
    assert Encode(a) + [] == Encode(a);
  }

  /** Text without `%` or `+` decodes to itself, whatever follows it. */
  lemma {:induction false} DecodeLiteralThen(p: string, t: string)
    requires '%' !in p && '+' !in p
    ensures Decode(p + t) == p + Decode(t)
  {
    if p == [] {
      assert p + t == t;
    } else {
      assert (p + t)[0] == p[0] && (p + t)[1..] == p[1..] + t;
      DecodeLiteralThen(p[1..], t);
      assert p == [p[0]] + p[1..];
    }
  }

  /** A `+` decodes to a space. */
  lemma DecodePlusThen(t: string)
    ensures Decode(['+'] + t) == [' '] + Decode(t)
  {
    assert (['+'] + t)[1..] == t;
  }

  /** A `+`, a plain word and an encoded value decode to a space, the word and the value. */
  lemma DecodeJoinTail(word: string, b: string)
    requires '%' !in word && '+' !in word
    ensures Decode(['+'] + (word + Encode(b))) == [' '] + (word + b)
  {
    DecodePlusThen(word + Encode(b));
    DecodeLiteralThen(word, Encode(b));
    DecodeEncode(b);
  }

  /** Two encoded values joined by `+` and a plain word decode to the values joined by a space
      and the word. */
  lemma DecodeEncodedJoin(a: string, word: string, b: string)
    requires '%' !in word && '+' !in word
    ensures Decode(Encode(a) + "+" + word + Encode(b)) == a + " " + word + b
  {
    Strings.Regroup(Encode(a), "+", word, Encode(b));
    DecodeEncodeThen(a, ['+'] + (word + Encode(b)));
    DecodeJoinTail(word, b);
    Strings.Regroup(a, " ", word, b);
  }
}
