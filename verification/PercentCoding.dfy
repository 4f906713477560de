/** Percent-encoding of text as UTF-8 octets (section 2.1 of RFC 3986), as the browser's
    encodeURIComponent and decodeURIComponent do it, and the variant used for query strings.
    A character is a Unicode scalar value, so lone surrogates cannot occur. */
module PercentCoding {
  import opened Options

  // ---------------------------------------------------------------- octets

  function HexDigit(n: nat): char
    requires n < 16
  {
    if n < 10 then ('0' as int + n) as char else ('A' as int + n - 10) as char
  }

  function HexValue(c: char): Option<nat> {
    if '0' <= c <= '9' then Some(c as int - '0' as int)
    else if 'A' <= c <= 'F' then Some(c as int - 'A' as int + 10)
    else if 'a' <= c <= 'f' then Some(c as int - 'a' as int + 10)
    else None
  }

  lemma HexRoundTrip(n: nat)
    requires n < 16
    ensures HexValue(HexDigit(n)) == Some(n)
  {
  }

  type Octet = n: nat | n < 256

  function Escape(b: Octet): string {
    ['%', HexDigit(b / 16), HexDigit(b % 16)]
  }

  function Utf8(c: char): (r: seq<Octet>)
    ensures 1 <= |r| <= 4
  {
    var n := c as int;
    if n < 0x80 then [n]
    else if n < 0x800 then [0xC0 + n / 64, 0x80 + n % 64]
    else if n < 0x10000 then [0xE0 + n / 4096, 0x80 + n / 64 % 64, 0x80 + n % 64]
    else [0xF0 + n / 262144, 0x80 + n / 4096 % 64, 0x80 + n / 64 % 64, 0x80 + n % 64]
  }

  function EscapeAll(bs: seq<Octet>): string {
    if bs == [] then [] else Escape(bs[0]) + EscapeAll(bs[1..])
  }

  // ---------------------------------------------------------------- decoding

  /** The octet escaped at the front of `s`. */
  function ReadOctet(s: string): Option<Octet> {
    if |s| >= 3 && s[0] == '%' && HexValue(s[1]).Some? && HexValue(s[2]).Some? then
      Some(HexValue(s[1]).value * 16 + HexValue(s[2]).value)
    else None
  }

  /** The six payload bits of a continuation octet escaped at position `3 * i`. */
  function ReadContinuation(s: string, i: nat): Option<nat> {
    if |s| < 3 * i then None
    else
      var b := ReadOctet(s[3 * i..]);
      if b.Some? && 0x80 <= b.value < 0xC0 then Some(b.value - 0x80) else None
  }

  function Scalar(n: nat, least: nat): Option<char> {
    if least <= n < 0xD800 || (least <= n && 0xE000 <= n < 0x110000) then Some(n as char) else None
  }

  /** The character escaped at the front of `s`, and how many octets it takes. Overlong forms,
      surrogates and stray continuation octets are refused. */
  function ReadEscaped(s: string): (r: Option<(char, nat)>)
    ensures r.Some? ==> 1 <= r.value.1 && 3 * r.value.1 <= |s|
  {
    var b := ReadOctet(s);
    if b.None? then None
    else if b.value < 0x80 then Some((b.value as char, 1))
    else if b.value < 0xC0 then None
    else
      var c1 := ReadContinuation(s, 1);
      if c1.None? then None
      else if b.value < 0xE0 then Sized(Scalar((b.value - 0xC0) * 64 + c1.value, 0x80), 2)
      else
        var c2 := ReadContinuation(s, 2);
        if c2.None? then None
        else if b.value < 0xF0 then Sized(Scalar((b.value - 0xE0) * 4096 + c1.value * 64 + c2.value, 0x800), 3)
        else if b.value >= 0xF8 then None
        else
          var c3 := ReadContinuation(s, 3);
          if c3.None? then None
          else Sized(Scalar((b.value - 0xF0) * 262144 + c1.value * 4096 + c2.value * 64 + c3.value, 0x10000), 4)
  }

  function Sized(c: Option<char>, n: nat): Option<(char, nat)> {
    if c.Some? then Some((c.value, n)) else None
  }

  /** decodeURIComponent, with None where it throws. */
  function Decode(s: string): Option<string>
    decreases |s|
  {
    if s == [] then Some([])
    else if s[0] != '%' then
      var rest := Decode(s[1..]);
      if rest.Some? then Some([s[0]] + rest.value) else None
    else
      var c := ReadEscaped(s);
      if c.None? then None
      else
        var rest := Decode(s[3 * c.value.1..]);
        if rest.Some? then Some([c.value.0] + rest.value) else None
  }

  lemma ReadEscape(b: Octet, t: string)
    ensures ReadOctet(Escape(b) + t) == Some(b)
    ensures (Escape(b) + t)[3..] == t
  {
    HexRoundTrip(b / 16);
    HexRoundTrip(b % 16);
  }

  lemma {:induction false} ReadEscapeAll(bs: seq<Octet>, t: string, i: nat)
    requires i < |bs|
    ensures |EscapeAll(bs)| == 3 * |bs|
    ensures ReadOctet((EscapeAll(bs) + t)[3 * i..]) == Some(bs[i])
    ensures (EscapeAll(bs) + t)[3 * |bs|..] == t
    decreases |bs|
  {
    var rest := bs[1..];
    assert EscapeAll(bs) + t == Escape(bs[0]) + (EscapeAll(rest) + t);
    ReadEscape(bs[0], EscapeAll(rest) + t);
    if rest != [] {
      ReadEscapeAll(rest, t, if i > 0 then i - 1 else 0);
      if i > 0 {
        assert (EscapeAll(bs) + t)[3 * i..] == (EscapeAll(rest) + t)[3 * (i - 1)..];
      }
      assert (EscapeAll(bs) + t)[3 * |bs|..] == (EscapeAll(rest) + t)[3 * |rest|..];
    }
  }

  lemma SixBitGroups(n: nat)
    ensures n == n / 64 * 64 + n % 64
    ensures n / 64 == n / 4096 * 64 + n / 64 % 64
    ensures n / 4096 == n / 262144 * 64 + n / 4096 % 64
  {
    assert n / 64 / 64 == n / 4096;
    assert n / 4096 / 64 == n / 262144;
  }

  lemma TwoOctets(s: string, n: nat)
    requires 0x80 <= n < 0x800
    requires ReadOctet(s) == Some(0xC0 + n / 64) && ReadContinuation(s, 1) == Some(n % 64)
    requires |s| >= 6
    ensures ReadEscaped(s) == Some((n as char, 2))
  {
    SixBitGroups(n);
  }

  lemma ThreeOctets(s: string, n: nat)
    requires 0x800 <= n < 0xD800 || 0xE000 <= n < 0x10000
    requires ReadOctet(s) == Some(0xE0 + n / 4096)
    requires ReadContinuation(s, 1) == Some(n / 64 % 64) && ReadContinuation(s, 2) == Some(n % 64)
    requires |s| >= 9
    ensures ReadEscaped(s) == Some((n as char, 3))
  {
    SixBitGroups(n);
  }

  lemma FourOctets(s: string, n: nat)
    requires 0x10000 <= n < 0x110000
    requires ReadOctet(s) == Some(0xF0 + n / 262144)
    requires ReadContinuation(s, 1) == Some(n / 4096 % 64) && ReadContinuation(s, 2) == Some(n / 64 % 64)
    requires ReadContinuation(s, 3) == Some(n % 64)
    requires |s| >= 12
    ensures ReadEscaped(s) == Some((n as char, 4))
  {
    SixBitGroups(n);
  }

  lemma ReadRest(bs: seq<Octet>, t: string, i: nat)
    requires 0 < i < |bs| && 0x80 <= bs[i] < 0xC0
    ensures ReadContinuation(EscapeAll(bs) + t, i) == Some(bs[i] - 0x80)
  {
    ReadEscapeAll(bs, t, i);
  }

  lemma WideCharDecodes(c: char, t: string)
    requires c as int >= 0x10000
    ensures ReadEscaped(EscapeAll(Utf8(c)) + t) == Some((c, 4))
  {
    var bs := Utf8(c);
    ReadEscapeAll(bs, t, 0);
    assert (EscapeAll(bs) + t)[0..] == EscapeAll(bs) + t;
    ReadRest(bs, t, 1);
    ReadRest(bs, t, 2);
    ReadRest(bs, t, 3);
    FourOctets(EscapeAll(bs) + t, c as int);
  }

  lemma NarrowCharDecodes(c: char, t: string)
    requires 0x80 <= c as int < 0x10000
    ensures ReadEscaped(EscapeAll(Utf8(c)) + t) == Some((c, |Utf8(c)|))
  {
    var n, bs := c as int, Utf8(c);
    ReadEscapeAll(bs, t, 0);
    assert (EscapeAll(bs) + t)[0..] == EscapeAll(bs) + t;
    ReadRest(bs, t, 1);
    if n < 0x800 {
      TwoOctets(EscapeAll(bs) + t, n);
    } else {
      ReadRest(bs, t, 2);
      ThreeOctets(EscapeAll(bs) + t, n);
    }
  }

  /** Decoding the octets of a character gives the character back. */
  lemma EscapedCharDecodes(c: char, t: string)
    ensures ReadEscaped(EscapeAll(Utf8(c)) + t) == Some((c, |Utf8(c)|))
    ensures (EscapeAll(Utf8(c)) + t)[3 * |Utf8(c)|..] == t
  {
    ReadEscapeAll(Utf8(c), t, 0);
    if c as int < 0x80 {
      assert (EscapeAll(Utf8(c)) + t)[0..] == EscapeAll(Utf8(c)) + t;
    } else if c as int < 0x10000 {
      NarrowCharDecodes(c, t);
    } else {
      WideCharDecodes(c, t);
    }
  }

  // ---------------------------------------------------------------- what decodes, and to what

  /** A digit counts in either case. */
  lemma HexValueIff(c: char, n: nat)
    requires n < 16
    ensures HexValue(c) == Some(n) <==> c == "0123456789ABCDEF"[n] || c == "0123456789abcdef"[n]
  {
  }

  /** An octet is read from a percent sign and two hexadecimal digits, and from nothing else. */
  lemma ReadOctetIff(s: string, b: Octet)
    ensures ReadOctet(s) == Some(b) <==>
            |s| >= 3 && s[0] == '%' && HexValue(s[1]) == Some(b / 16) && HexValue(s[2]) == Some(b % 16)
  {
  }

  /** The octets are escaped one after the other at the front of `s`. */
  ghost predicate Spelled(s: string, bs: seq<Octet>) {
    3 * |bs| <= |s| && forall i :: 0 <= i < |bs| ==> ReadOctet(s[3 * i..]) == Some(bs[i])
  }

  lemma TwoOctetsOf(b: Octet, c1: nat)
    requires 0xC0 <= b < 0xE0 && c1 < 64 && (b - 0xC0) * 64 + c1 >= 0x80
    ensures
      var n := (b - 0xC0) * 64 + c1;
      n < 0x800 && Utf8(n as char) == [b, 0x80 + c1]
  {
  }

  lemma ThreeOctetsOf(b: Octet, c1: nat, c2: nat)
    requires 0xE0 <= b < 0xF0 && c1 < 64 && c2 < 64
    ensures
      var n := (b - 0xE0) * 4096 + c1 * 64 + c2;
      n < 0x10000 && (Scalar(n, 0x800).Some? ==> Utf8(n as char) == [b, 0x80 + c1, 0x80 + c2])
  {
    var n := (b - 0xE0) * 4096 + c1 * 64 + c2;
    assert n / 64 == (b - 0xE0) * 64 + c1 && n % 64 == c2;
    assert n / 64 / 64 == b - 0xE0 && n / 64 % 64 == c1 && n / 4096 == b - 0xE0;
  }

  lemma FourOctetsOf(b: Octet, c1: nat, c2: nat, c3: nat)
    requires 0xF0 <= b < 0xF8 && c1 < 64 && c2 < 64 && c3 < 64
    ensures
      var n := (b - 0xF0) * 262144 + c1 * 4096 + c2 * 64 + c3;
      Scalar(n, 0x10000).Some? ==> Utf8(n as char) == [b, 0x80 + c1, 0x80 + c2, 0x80 + c3]
  {
    var n := (b - 0xF0) * 262144 + c1 * 4096 + c2 * 64 + c3;
    assert n / 64 == (b - 0xF0) * 4096 + c1 * 64 + c2 && n % 64 == c3;
    assert n / 4096 == (b - 0xF0) * 64 + c1 && n / 64 % 64 == c2;
    assert n / 262144 == b - 0xF0 && n / 4096 % 64 == c1;
  }

  lemma SpelledOnce(s: string, b: Octet)
    requires ReadOctet(s) == Some(b)
    ensures Spelled(s, [b])
  {
    assert s[0..] == s;
  }

  lemma SpelledMore(s: string, bs: seq<Octet>, b: Octet)
    requires Spelled(s, bs) && ReadOctet(s[3 * |bs|..]) == Some(b)
    ensures Spelled(s, bs + [b])
  {
  }

  lemma ContinuationOctet(s: string, i: nat)
    requires ReadContinuation(s, i).Some?
    ensures ReadContinuation(s, i).value < 64 && 3 * i <= |s|
    ensures ReadOctet(s[3 * i..]) == Some(0x80 + ReadContinuation(s, i).value)
  {
  }

  lemma SpelledTwo(s: string, b: Octet, c1: nat)
    requires ReadOctet(s) == Some(b) && ReadContinuation(s, 1) == Some(c1)
    ensures c1 < 64 && Spelled(s, [b, 0x80 + c1])
  {
    ContinuationOctet(s, 1);
    SpelledOnce(s, b);
    hide ReadOctet, ReadContinuation, Spelled;
    SpelledMore(s, [b], 0x80 + c1);
    assert [b] + [0x80 + c1] == [b, 0x80 + c1];
  }

  lemma SpelledThree(s: string, b: Octet, c1: nat, c2: nat)
    requires ReadOctet(s) == Some(b) && ReadContinuation(s, 1) == Some(c1) && ReadContinuation(s, 2) == Some(c2)
    ensures c1 < 64 && c2 < 64 && Spelled(s, [b, 0x80 + c1, 0x80 + c2])
  {
    ContinuationOctet(s, 2);
    SpelledTwo(s, b, c1);
    hide ReadOctet, ReadContinuation, Spelled;
    SpelledMore(s, [b, 0x80 + c1], 0x80 + c2);
    assert [b, 0x80 + c1] + [0x80 + c2] == [b, 0x80 + c1, 0x80 + c2];
  }

  lemma SpelledFour(s: string, b: Octet, c1: nat, c2: nat, c3: nat)
    requires ReadOctet(s) == Some(b) && ReadContinuation(s, 1) == Some(c1)
    requires ReadContinuation(s, 2) == Some(c2) && ReadContinuation(s, 3) == Some(c3)
    ensures c1 < 64 && c2 < 64 && c3 < 64 && Spelled(s, [b, 0x80 + c1, 0x80 + c2, 0x80 + c3])
  {
    ContinuationOctet(s, 3);
    SpelledThree(s, b, c1, c2);
    hide ReadOctet, ReadContinuation, Spelled;
    SpelledMore(s, [b, 0x80 + c1, 0x80 + c2], 0x80 + c3);
    assert [b, 0x80 + c1, 0x80 + c2] + [0x80 + c3] == [b, 0x80 + c1, 0x80 + c2, 0x80 + c3];
  }

  lemma OneOctetOf(b: Octet)
    requires b < 0x80
    ensures Utf8(b as char) == [b]
  {
  }

  /** What is read is spelled: only the octets of a character are read as the character. */
  lemma ReadIsSpelled(s: string)
    requires ReadEscaped(s).Some?
    ensures
      var (c, n) := ReadEscaped(s).value;
      Spelled(s, Utf8(c)) && n == |Utf8(c)|
  {
    hide ReadOctet, ReadContinuation, Spelled, Utf8;
    var b := ReadOctet(s).value;
    if b < 0x80 {
      SpelledOnce(s, b);
      OneOctetOf(b);
    } else {
      var c1 := ReadContinuation(s, 1).value;
      if b < 0xE0 {
        SpelledTwo(s, b, c1);
        TwoOctetsOf(b, c1);
      } else {
        var c2 := ReadContinuation(s, 2).value;
        if b < 0xF0 {
          SpelledThree(s, b, c1, c2);
          ThreeOctetsOf(b, c1, c2);
        } else {
          var c3 := ReadContinuation(s, 3).value;
          SpelledFour(s, b, c1, c2, c3);
          FourOctetsOf(b, c1, c2, c3);
        }
      }
    }
  }

  lemma SpelledRest(s: string, bs: seq<Octet>, i: nat)
    requires Spelled(s, bs) && 0 < i < |bs| && 0x80 <= bs[i] < 0xC0
    ensures ReadContinuation(s, i) == Some(bs[i] - 0x80)
  {
  }

  lemma NarrowIsRead(s: string, c: char)
    requires Spelled(s, Utf8(c)) && 0x80 <= c as int < 0x10000
    ensures ReadEscaped(s) == Some((c, |Utf8(c)|))
  {
    var n, bs := c as int, Utf8(c);
    assert s[3 * 0..] == s && ReadOctet(s[3 * 0..]) == Some(bs[0]);
    SixBitGroups(n);
    SpelledRest(s, bs, 1);
    hide ReadOctet, ReadContinuation, ReadEscaped;
    if n < 0x800 {
      TwoOctets(s, n);
    } else {
      SpelledRest(s, bs, 2);
      ThreeOctets(s, n);
    }
  }

  lemma WideIsRead(s: string, c: char)
    requires Spelled(s, Utf8(c)) && c as int >= 0x10000
    ensures ReadEscaped(s) == Some((c, |Utf8(c)|))
  {
    var n, bs := c as int, Utf8(c);
    assert s[3 * 0..] == s && ReadOctet(s[3 * 0..]) == Some(bs[0]);
    SixBitGroups(n);
    hide ReadOctet, ReadContinuation, ReadEscaped;
    SpelledRest(s, bs, 1);
    SpelledRest(s, bs, 2);
    SpelledRest(s, bs, 3);
    FourOctets(s, n);
  }

  /** What is spelled is read, whatever the case of its digits. */
  lemma SpelledIsRead(s: string, c: char)
    requires Spelled(s, Utf8(c))
    ensures ReadEscaped(s) == Some((c, |Utf8(c)|))
  {
    if c as int < 0x80 {
      assert s[3 * 0..] == s && ReadOctet(s[3 * 0..]) == Some(Utf8(c)[0]);
    } else {
      hide Spelled, Utf8, ReadEscaped;
      if c as int < 0x10000 {
        NarrowIsRead(s, c);
      } else {
        WideIsRead(s, c);
      }
    }
  }

  /** A text decodes exactly when it is made of plain characters and of characters spelled as octets,
      and then to those. */
  lemma DecodeIff(s: string, t: string)
    ensures s == [] ==> (Decode(s) == Some(t) <==> t == [])
    ensures s != [] && s[0] != '%' ==>
              (Decode(s) == Some(t) <==> t != [] && t[0] == s[0] && Decode(s[1..]) == Some(t[1..]))
    ensures s != [] && s[0] == '%' ==>
              (Decode(s) == Some(t) <==>
                 t != [] && Spelled(s, Utf8(t[0])) && Decode(s[3 * |Utf8(t[0])|..]) == Some(t[1..]))
  {
    if s != [] && s[0] != '%' {
      if t != [] {
        assert t == [t[0]] + t[1..];
      }
    } else if s != [] {
      hide Utf8, Spelled, ReadEscaped;
      if ReadEscaped(s).Some? {
        ReadIsSpelled(s);
      }
      if t != [] {
        assert t == [t[0]] + t[1..];
        if Spelled(s, Utf8(t[0])) {
          SpelledIsRead(s, t[0]);
        }
      }
    }
  }

  lemma DecodeEscaped(c: char, t: string)
    ensures Decode(EscapeAll(Utf8(c)) + t) == if Decode(t).Some? then Some([c] + Decode(t).value) else None
  {
    EscapedCharDecodes(c, t);
    var s := EscapeAll(Utf8(c)) + t;
    assert s[0] == '%';
  }

  // ---------------------------------------------------------------- encodeURIComponent

  predicate Alphanumeric(c: char) {
    'A' <= c <= 'Z' || 'a' <= c <= 'z' || '0' <= c <= '9'
  }

  predicate Unreserved(c: char) {
    Alphanumeric(c) || c in "-_.!~*'()"
  }

  function Encode(s: string): string {
    if s == [] then []
    else (if Unreserved(s[0]) then [s[0]] else EscapeAll(Utf8(s[0]))) + Encode(s[1..])
  }

  // ---------------------------------------------------------------- encodeURIComponent2

  predicate SameHex(c: char, d: char) {
    c == d || (HexValue(c).Some? && HexValue(c) == HexValue(d))
  }

  /** Replaces every escape of two given hex digits, in either case. */
  function Unescape(s: string, hi: char, lo: char, sub: char): string
    decreases |s|
  {
    if s == [] then []
    else if |s| >= 3 && s[0] == '%' && SameHex(s[1], hi) && SameHex(s[2], lo) then [sub] + Unescape(s[3..], hi, lo, sub)
    else [s[0]] + Unescape(s[1..], hi, lo, sub)
  }

  predicate Mark(c: char) {
    c in "!'()*"
  }

  function EscapeMarks(s: string): string {
    if s == [] then []
    else (if Mark(s[0]) then Escape(s[0] as int) else [s[0]]) + EscapeMarks(s[1..])
  }

  /** The query-string variant with spaces percent-encoded: five reserved characters are put
      back, five unreserved ones are escaped. */
  function EncodeQuery(s: string): string {
    EscapeMarks(Unescape(Unescape(Unescape(Unescape(Unescape(Encode(s),
      '4', '0', '@'), '3', 'A', ':'), '2', '4', '$'), '2', 'C', ','), '3', 'B', ';'))
  }

  // ------------------------------------------- the passes seen character by character

  predicate Kept(c: char) {
    Alphanumeric(c) || c in "-_.~@:$,;"
  }

  function QueryChar(c: char): string {
    if Kept(c) then [c] else EscapeAll(Utf8(c))
  }

  function QueryText(s: string): string {
    if s == [] then [] else QueryChar(s[0]) + QueryText(s[1..])
  }

  /** Encoded text as a sequence of plain characters and escapes. */
  datatype Atom = Raw(c: char) | Esc(hi: char, lo: char)

  predicate Proper(a: Atom) {
    match a
    case Raw(c) => c != '%'
    case Esc(hi, lo) => HexValue(hi).Some? && HexValue(lo).Some?
  }

  predicate AllProper(atoms: seq<Atom>) {
    forall a :: a in atoms ==> Proper(a)
  }

  function AtomText(a: Atom): string {
    match a
    case Raw(c) => [c]
    case Esc(hi, lo) => ['%', hi, lo]
  }

  function Text(atoms: seq<Atom>): string {
    if atoms == [] then [] else AtomText(atoms[0]) + Text(atoms[1..])
  }

  function Unescaped(a: Atom, hi: char, lo: char, sub: char): Atom {
    if a.Esc? && SameHex(a.hi, hi) && SameHex(a.lo, lo) then Raw(sub) else a
  }

  function UnescapedAll(atoms: seq<Atom>, hi: char, lo: char, sub: char): (r: seq<Atom>)
    ensures |r| == |atoms|
    ensures forall i :: 0 <= i < |r| ==> r[i] == Unescaped(atoms[i], hi, lo, sub)
  {
    if atoms == [] then [] else [Unescaped(atoms[0], hi, lo, sub)] + UnescapedAll(atoms[1..], hi, lo, sub)
  }

  lemma UnescapeAtom(a: Atom, t: string, hi: char, lo: char, sub: char)
    requires Proper(a)
    ensures Unescape(AtomText(a) + t, hi, lo, sub) == AtomText(Unescaped(a, hi, lo, sub)) + Unescape(t, hi, lo, sub)
  {
    match a {
      case Raw(c) =>
        assert ([c] + t)[1..] == t;
      case Esc(h, l) =>
        var s := ['%', h, l] + t;
        assert s[3..] == t && s[1..] == [h, l] + t && ([h, l] + t)[1..] == [l] + t && ([l] + t)[1..] == t;
        assert Unescape([l] + t, hi, lo, sub) == [l] + Unescape(t, hi, lo, sub);
        assert Unescape([h, l] + t, hi, lo, sub) == [h] + Unescape([l] + t, hi, lo, sub);
    }
  }

  lemma {:induction false} UnescapeAtoms(atoms: seq<Atom>, hi: char, lo: char, sub: char)
    requires AllProper(atoms) && sub != '%'
    ensures Unescape(Text(atoms), hi, lo, sub) == Text(UnescapedAll(atoms, hi, lo, sub))
    ensures AllProper(UnescapedAll(atoms, hi, lo, sub))
  {
    if atoms != [] {
      UnescapeAtoms(atoms[1..], hi, lo, sub);
      UnescapeAtom(atoms[0], Text(atoms[1..]), hi, lo, sub);
      assert UnescapedAll(atoms, hi, lo, sub)[1..] == UnescapedAll(atoms[1..], hi, lo, sub);
    }
  }

  function Escaped(a: Atom): Atom {
    if a.Raw? && Mark(a.c) then Esc(HexDigit(a.c as int / 16), HexDigit(a.c as int % 16)) else a
  }

  function EscapedAll(atoms: seq<Atom>): (r: seq<Atom>)
    ensures |r| == |atoms|
    ensures forall i :: 0 <= i < |r| ==> r[i] == Escaped(atoms[i])
  {
    if atoms == [] then [] else [Escaped(atoms[0])] + EscapedAll(atoms[1..])
  }

  lemma EscapeMarksAtom(a: Atom, t: string)
    requires Proper(a)
    ensures EscapeMarks(AtomText(a) + t) == AtomText(Escaped(a)) + EscapeMarks(t)
  {
    match a {
      case Raw(c) =>
        assert ([c] + t)[1..] == t;
      case Esc(h, l) =>
        var s := ['%', h, l] + t;
        assert s[1..] == [h, l] + t && ([h, l] + t)[1..] == [l] + t && ([l] + t)[1..] == t;
        assert EscapeMarks([l] + t) == [l] + EscapeMarks(t);
        assert EscapeMarks([h, l] + t) == [h] + EscapeMarks([l] + t);
    }
  }

  lemma {:induction false} EscapeMarksAtoms(atoms: seq<Atom>)
    requires AllProper(atoms)
    ensures EscapeMarks(Text(atoms)) == Text(EscapedAll(atoms))
  {
    if atoms != [] {
      EscapeMarksAtoms(atoms[1..]);
      EscapeMarksAtom(atoms[0], Text(atoms[1..]));
      assert EscapedAll(atoms)[1..] == EscapedAll(atoms[1..]);
    }
  }

  /** What all the passes make of one atom. */
  function Final(a: Atom): Atom {
    Escaped(Unescaped(Unescaped(Unescaped(Unescaped(Unescaped(a,
      '4', '0', '@'), '3', 'A', ':'), '2', '4', '$'), '2', 'C', ','), '3', 'B', ';'))
  }

  function FinalAll(atoms: seq<Atom>): (r: seq<Atom>)
    ensures |r| == |atoms|
    ensures forall i :: 0 <= i < |r| ==> r[i] == Final(atoms[i])
  {
    if atoms == [] then [] else [Final(atoms[0])] + FinalAll(atoms[1..])
  }

  lemma PassesAtoms(atoms: seq<Atom>)
    requires AllProper(atoms)
    ensures EscapeMarks(Unescape(Unescape(Unescape(Unescape(Unescape(Text(atoms),
              '4', '0', '@'), '3', 'A', ':'), '2', '4', '$'), '2', 'C', ','), '3', 'B', ';')) == Text(FinalAll(atoms))
  {
    var a1 := UnescapedAll(atoms, '4', '0', '@');
    var a2 := UnescapedAll(a1, '3', 'A', ':');
    var a3 := UnescapedAll(a2, '2', '4', '$');
    var a4 := UnescapedAll(a3, '2', 'C', ',');
    var a5 := UnescapedAll(a4, '3', 'B', ';');
    UnescapeAtoms(atoms, '4', '0', '@');
    UnescapeAtoms(a1, '3', 'A', ':');
    UnescapeAtoms(a2, '2', '4', '$');
    UnescapeAtoms(a3, '2', 'C', ',');
    UnescapeAtoms(a4, '3', 'B', ';');
    EscapeMarksAtoms(a5);
    assert EscapedAll(a5) == FinalAll(atoms);
  }

  function EscAtoms(bs: seq<Octet>): seq<Atom> {
    if bs == [] then [] else [Esc(HexDigit(bs[0] / 16), HexDigit(bs[0] % 16))] + EscAtoms(bs[1..])
  }

  function CharAtoms(c: char): seq<Atom> {
    if Unreserved(c) then [Raw(c)] else EscAtoms(Utf8(c))
  }

  function Atoms(s: string): seq<Atom> {
    if s == [] then [] else CharAtoms(s[0]) + Atoms(s[1..])
  }

  lemma {:induction false} TextConcat(a: seq<Atom>, b: seq<Atom>)
    ensures Text(a + b) == Text(a) + Text(b)
  {
    if a == [] {
      assert a + b == b;
    } else {
      assert (a + b)[1..] == a[1..] + b;
      TextConcat(a[1..], b);
    }
  }

  lemma {:induction false} EscAtomsText(bs: seq<Octet>)
    ensures Text(EscAtoms(bs)) == EscapeAll(bs) && AllProper(EscAtoms(bs))
  {
    if bs != [] {
      EscAtomsText(bs[1..]);
      var a := Esc(HexDigit(bs[0] / 16), HexDigit(bs[0] % 16));
      assert ([a] + EscAtoms(bs[1..]))[1..] == EscAtoms(bs[1..]);
    }
  }

  lemma {:induction false} AtomsText(s: string)
    ensures Text(Atoms(s)) == Encode(s) && AllProper(Atoms(s))
  {
    if s != [] {
      AtomsText(s[1..]);
      TextConcat(CharAtoms(s[0]), Atoms(s[1..]));
      EscAtomsText(Utf8(s[0]));
      if Unreserved(s[0]) {
        assert Text([Raw(s[0])]) == [s[0]] + [];
      }
    }
  }

  lemma {:induction false} HighOctetsUntouched(bs: seq<Octet>)
    requires forall i :: 0 <= i < |bs| ==> bs[i] >= 0x80
    ensures FinalAll(EscAtoms(bs)) == EscAtoms(bs)
  {
    if bs != [] {
      HighOctetsUntouched(bs[1..]);
      HexRoundTrip(bs[0] / 16);
      var a := Esc(HexDigit(bs[0] / 16), HexDigit(bs[0] % 16));
      assert bs[0] / 16 >= 8;
      assert Final(a) == a;
      assert ([a] + EscAtoms(bs[1..]))[1..] == EscAtoms(bs[1..]);
    }
  }

  lemma EscapeMatches(n: nat, m: nat)
    requires n < 256 && m < 256
    ensures SameHex(HexDigit(n / 16), HexDigit(m / 16)) && SameHex(HexDigit(n % 16), HexDigit(m % 16)) <==> n == m
  {
    HexRoundTrip(n / 16);
    HexRoundTrip(n % 16);
    HexRoundTrip(m / 16);
    HexRoundTrip(m % 16);
  }

  /** Five escaped ASCII characters are put back, the others stay escaped. */
  lemma EscapedFinal(n: nat)
    requires n < 128
    ensures
      var esc := Esc(HexDigit(n / 16), HexDigit(n % 16));
      Final(esc) == if n as char in "@:$,;" then Raw(n as char) else esc
  {
    EscapeMatches(n, 0x40);
    EscapeMatches(n, 0x3A);
    EscapeMatches(n, 0x24);
    EscapeMatches(n, 0x2C);
    EscapeMatches(n, 0x3B);
  }

  /** What the passes make of one ASCII character. */
  lemma AsciiFinal(c: char)
    requires c as int < 128
    ensures Text(FinalAll(CharAtoms(c))) == QueryChar(c)
  {
    var n := c as int;
    var esc := Esc(HexDigit(n / 16), HexDigit(n % 16));
    var a := if Unreserved(c) then Raw(c) else esc;
    assert Utf8(c) == [n] && [n][1..] == [] && EscAtoms([n]) == [esc] + [];
    assert EscapeAll([n]) == Escape(n) + [] == AtomText(esc);
    assert CharAtoms(c) == [a] && FinalAll([a]) == [Final(a)];
    assert Text([Final(a)]) == AtomText(Final(a)) + [];
    EscapedFinal(n);
    assert Final(a) == if Kept(c) then Raw(c) else esc;
  }

  lemma CharFinal(c: char)
    ensures Text(FinalAll(CharAtoms(c))) == QueryChar(c)
  {
    if c as int < 128 {
      AsciiFinal(c);
    } else {
      HighOctetsUntouched(Utf8(c));
      EscAtomsText(Utf8(c));
    }
  }

  lemma FinalConcat(a: seq<Atom>, b: seq<Atom>)
    ensures FinalAll(a + b) == FinalAll(a) + FinalAll(b)
  {
  }

  lemma {:induction false} FinalAtoms(s: string)
    ensures Text(FinalAll(Atoms(s))) == QueryText(s)
  {
    if s != [] {
      FinalAtoms(s[1..]);
      CharFinal(s[0]);
      FinalConcat(CharAtoms(s[0]), Atoms(s[1..]));
      TextConcat(FinalAll(CharAtoms(s[0])), FinalAll(Atoms(s[1..])));
    }
  }

  /** The seven passes over the whole text do to each character what they do to it alone. */
  lemma EncodeQueryByCharacter(s: string)
    ensures EncodeQuery(s) == QueryText(s)
  {
    AtomsText(s);
    PassesAtoms(Atoms(s));
    FinalAtoms(s);
  }

  // ---------------------------------------------------------------- the round trip

  /** Letters, digits and nine marks stand for themselves; every other character is escaped. */
  lemma StandsForItselfIff(c: char)
    ensures EncodeQuery([c]) == [c] <==>
            'a' <= c <= 'z' || 'A' <= c <= 'Z' || '0' <= c <= '9' || c in {'-', '_', '.', '~', '@', ':', '$', ',', ';'}
    ensures EncodeQuery([c]) != [c] ==> EncodeQuery([c]) == EscapeAll(Utf8(c))
  {
    EncodeQueryByCharacter([c]);
    assert [c][1..] == [] && QueryText([c]) == QueryChar(c) + [] == QueryChar(c);
    ReadEscapeAll(Utf8(c), "", 0);
  }

  lemma {:induction false} QueryTextConcat(a: string, b: string)
    ensures QueryText(a + b) == QueryText(a) + QueryText(b)
  {
    if a == [] {
      assert a + b == b;
    } else {
      assert (a + b)[0] == a[0] && (a + b)[1..] == a[1..] + b;
      QueryTextConcat(a[1..], b);
    }
  }

  /** Text is encoded piece by piece. */
  lemma EncodeQueryConcat(a: string, b: string)
    ensures EncodeQuery(a + b) == EncodeQuery(a) + EncodeQuery(b)
  {
    EncodeQueryByCharacter(a + b);
    EncodeQueryByCharacter(a);
    EncodeQueryByCharacter(b);
    QueryTextConcat(a, b);
  }

  /** Decoding what was encoded gives the text back. */
  lemma {:induction false} QueryTextDecodes(s: string)
    ensures Decode(QueryText(s)) == Some(s)
  {
    if s != [] {
      var c, t := s[0], QueryText(s[1..]);
      QueryTextDecodes(s[1..]);
      if Kept(c) {
        assert ([c] + t)[1..] == t;
      } else {
        DecodeEscaped(c, t);
      }
      assert s == [c] + s[1..];
    }
  }

  lemma QueryRoundTrip(s: string)
    ensures Decode(EncodeQuery(s)) == Some(s)
  {
    EncodeQueryByCharacter(s);
    QueryTextDecodes(s);
  }

  predicate Safe(c: char) {
    Kept(c) || c == '%'
  }

  lemma {:induction false} EscapesAreSafe(bs: seq<Octet>)
    ensures forall c :: c in EscapeAll(bs) ==> Safe(c)
  {
    if bs != [] {
      EscapesAreSafe(bs[1..]);
      assert forall c :: c in Escape(bs[0]) ==> Safe(c);
    }
  }

  /** Nothing with a meaning of its own in a query string survives the encoding. */
  lemma {:induction false} QueryTextIsSafe(s: string)
    ensures forall c :: c in QueryText(s) ==> Safe(c)
    ensures QueryText(s) == [] <==> s == []
  {
    if s != [] {
      QueryTextIsSafe(s[1..]);
      EscapesAreSafe(Utf8(s[0]));
    }
  }

  lemma EncodeQueryIsSafe(s: string)
    ensures forall c :: c in EncodeQuery(s) ==> Safe(c)
    ensures EncodeQuery(s) == [] <==> s == []
  {
    EncodeQueryByCharacter(s);
    QueryTextIsSafe(s);
  }
}
