/**
 Canonical unpadded base64url for opaque protocol values: section 5 of RFC 4648 without padding,
 and only the canonical form of section 3.5.
 */
module Opaque {
  import opened Order
  import opened References

  /** Six bits as two-bit digits, highest first. */
  datatype Sextet = Sextet(hi: TwoBits, mid: TwoBits, lo: TwoBits)

  type Code = x: int | 0 <= x < 64

  function CodeOf(x: Sextet): Code {
    16 * x.hi + 4 * x.mid + x.lo
  }

  /** The digit of `n` at a place of this unit. */
  function Digit(n: int, unit: int): TwoBits {
    if n >= 3 * unit then 3 else if n >= 2 * unit then 2 else if n >= unit then 1 else 0
  }

  function WithCode(n: Code): Sextet {
    var hi := Digit(n, 16);
    var mid := Digit(n - 16 * hi, 4);
    Sextet(hi, mid, Digit(n - 16 * hi - 4 * mid, 1))
  }

  function Letter(n: Code): char {
    if n < 26 then 'A' + n as char
    else if n < 52 then 'a' + (n - 26) as char
    else if n < 62 then '0' + (n - 52) as char
    else if n == 62 then '-' else '_'
  }

  predicate InAlphabet(c: char) {
    'A' <= c <= 'Z' || 'a' <= c <= 'z' || '0' <= c <= '9' || c == '-' || c == '_'
  }

  function Place(c: char): Code
    requires InAlphabet(c)
  {
    if 'A' <= c <= 'Z' then c as int - 'A' as int
    else if 'a' <= c <= 'z' then c as int - 'a' as int + 26
    else if '0' <= c <= '9' then c as int - '0' as int + 52
    else if c == '-' then 62 else 63
  }

  function CharOf(x: Sextet): char {
    Letter(CodeOf(x))
  }

  function SextetOf(c: char): Sextet
    requires InAlphabet(c)
  {
    WithCode(Place(c))
  }

  lemma LetterExact(n: Code, c: char)
    ensures InAlphabet(Letter(n)) && Place(Letter(n)) == n && Letter(n) != '='
    ensures InAlphabet(c) ==> Letter(Place(c)) == c
  {
  }

  lemma CodeExact(x: Sextet, n: Code)
    ensures WithCode(CodeOf(x)) == x && CodeOf(WithCode(n)) == n
  {
  }

  lemma AlphabetExact(x: Sextet, c: char)
    ensures InAlphabet(CharOf(x)) && SextetOf(CharOf(x)) == x && CharOf(x) != '='
    ensures InAlphabet(c) ==> CharOf(SextetOf(c)) == c
  {
    hide CodeOf, WithCode, Letter, Place, InAlphabet;
    LetterExact(CodeOf(x), c);
    CodeExact(x, 0);
    if InAlphabet(c) {
      CodeExact(x, Place(c));
    }
  }

  // ---- bits -----------------------------------------------------------------------

  function Sextets(b: seq<Byte>): seq<Sextet> {
    if |b| == 0 then []
    else if |b| == 1 then [Sextet(b[0].d3, b[0].d2, b[0].d1), Sextet(b[0].d0, 0, 0)]
    else if |b| == 2 then
      [Sextet(b[0].d3, b[0].d2, b[0].d1), Sextet(b[0].d0, b[1].d3, b[1].d2), Sextet(b[1].d1, b[1].d0, 0)]
    else
      [Sextet(b[0].d3, b[0].d2, b[0].d1), Sextet(b[0].d0, b[1].d3, b[1].d2), Sextet(b[1].d1, b[1].d0, b[2].d3),
       Sextet(b[2].d2, b[2].d1, b[2].d0)] + Sextets(b[3..])
  }

  /** The bytes of whole octets; leftover bits of the last sextet are dropped. */
  function Octets(x: seq<Sextet>): seq<Byte> {
    if |x| < 2 then []
    else if |x| == 2 then [Byte(x[0].hi, x[0].mid, x[0].lo, x[1].hi)]
    else if |x| == 3 then [Byte(x[0].hi, x[0].mid, x[0].lo, x[1].hi), Byte(x[1].mid, x[1].lo, x[2].hi, x[2].mid)]
    else
      [Byte(x[0].hi, x[0].mid, x[0].lo, x[1].hi), Byte(x[1].mid, x[1].lo, x[2].hi, x[2].mid),
       Byte(x[2].lo, x[3].hi, x[3].mid, x[3].lo)] + Octets(x[4..])
  }

  /** No lone sextet at the end, and no leftover bits set. */
  predicate CanonicalBits(x: seq<Sextet>) {
    if |x| == 0 then true
    else if |x| == 1 then false
    else if |x| == 2 then x[1].mid == 0 && x[1].lo == 0
    else if |x| == 3 then x[2].lo == 0
    else CanonicalBits(x[4..])
  }

  lemma {:induction false} OctetsInvert(b: seq<Byte>)
    ensures Octets(Sextets(b)) == b && CanonicalBits(Sextets(b))
    ensures |Sextets(b)| % 4 != 1
  {
    if |b| >= 3 {
      OctetsInvert(b[3..]);
      assert Sextets(b)[4..] == Sextets(b[3..]);
      assert b == [b[0], b[1], b[2]] + b[3..];
    }
  }

  lemma {:induction false} SextetsInvert(x: seq<Sextet>)
    requires CanonicalBits(x)
    ensures Sextets(Octets(x)) == x
  {
    if |x| >= 4 {
      SextetsInvert(x[4..]);
      assert Octets(x)[3..] == Octets(x[4..]);
      assert x == [x[0], x[1], x[2], x[3]] + x[4..];
    }
  }

  // ---- text -----------------------------------------------------------------------

  function Chars(x: seq<Sextet>): string {
    seq(|x|, i requires 0 <= i < |x| => CharOf(x[i]))
  }

  predicate AllInAlphabet(s: string) {
    forall i | 0 <= i < |s| :: InAlphabet(s[i])
  }

  function Values(s: string): seq<Sextet>
    requires AllInAlphabet(s)
  {
    seq(|s|, i requires 0 <= i < |s| && InAlphabet(s[i]) => SextetOf(s[i]))
  }

  /** How many `=` complete a quantum. */
  function PadCount(n: nat): nat {
    (4 - n % 4) % 4
  }

  function Pad(n: nat): string {
    seq(n, _ => '=')
  }

  /** `urlsafe_b64encode`. */
  function Padded(b: seq<Byte>): string {
    Chars(Sextets(b)) + Pad(PadCount(|Sextets(b)|))
  }

  /** `rstrip(b"=")`. */
  function Strip(s: string): string {
    if s != "" && s[|s| - 1] == '=' then Strip(s[..|s| - 1]) else s
  }

  function Encode(b: seq<Byte>): string {
    Strip(Padded(b))
  }

  /** Strict `b64decode` of text followed by its padding: at most two `=` may complete it. */
  function StrictDecode(s: string, pads: nat): Option<seq<Byte>>
    requires AllInAlphabet(s)
  {
    if (|s| + pads) % 4 != 0 || pads > 2 then None else Some(Octets(Values(s)))
  }

  function Decode(s: string): Option<seq<Byte>> {
    if s == "" || !AllInAlphabet(s) then None
    else
      var decoded := StrictDecode(s, PadCount(|s|));
      if decoded.None? || Encode(decoded.value) != s then None else decoded
  }

  lemma {:induction false} StripPad(s: string, n: nat)
    requires s == "" || s[|s| - 1] != '='
    ensures Strip(s + Pad(n)) == s
  {
    if n == 0 {
      assert s + Pad(0) == s;
    } else {
      assert (s + Pad(n))[..|s + Pad(n)| - 1] == s + Pad(n - 1);
      StripPad(s, n - 1);
    }
  }

  lemma CharsEnd(x: seq<Sextet>)
    ensures Chars(x) == "" || Chars(x)[|Chars(x)| - 1] != '='
  {
    hide CharOf, SextetOf, InAlphabet;
    if x != [] {
      AlphabetExact(x[|x| - 1], 'A');
      assert Chars(x)[|x| - 1] == CharOf(x[|x| - 1]);
    }
  }

  lemma EncodeIsChars(b: seq<Byte>)
    ensures Encode(b) == Chars(Sextets(b))
  {
    hide Sextets, Chars, Strip, Pad, PadCount;
    CharsEnd(Sextets(b));
    StripPad(Chars(Sextets(b)), PadCount(|Sextets(b)|));
  }

  lemma ValuesInvert(x: seq<Sextet>)
    ensures AllInAlphabet(Chars(x)) && Values(Chars(x)) == x
  {
    hide CharOf, SextetOf, InAlphabet;
    forall i | 0 <= i < |x| ensures InAlphabet(CharOf(x[i])) && SextetOf(CharOf(x[i])) == x[i] {
      AlphabetExact(x[i], 'A');
    }
  }

  lemma CharsInvert(s: string)
    requires AllInAlphabet(s)
    ensures Chars(Values(s)) == s
  {
    hide CharOf, SextetOf, InAlphabet;
    forall i | 0 <= i < |s| ensures CharOf(SextetOf(s[i])) == s[i] {
      AlphabetExact(Sextet(0, 0, 0), s[i]);
    }
  }

  lemma DecodeIs(s: string, b: seq<Byte>)
    requires s != "" && AllInAlphabet(s) && |s| % 4 != 1 && Octets(Values(s)) == b && Encode(b) == s
    ensures Decode(s) == Some(b)
  {
    hide AllInAlphabet, Octets, Values, Encode;
    assert (|s| + PadCount(|s|)) % 4 == 0 && PadCount(|s|) <= 2;
  }

  lemma {:induction false} SextetsEmpty(b: seq<Byte>)
    ensures Sextets(b) == [] <==> b == []
  {
  }

  /** Decoding inverts encoding for every nonempty byte string. */
  lemma RoundTrip(b: seq<Byte>)
    ensures Decode(Encode(b)) == if b == [] then None else Some(b)
  {
    hide Sextets, Octets, Chars, Values, Encode, AllInAlphabet;
    var x := Sextets(b);
    EncodeIsChars(b);
    OctetsInvert(b);
    ValuesInvert(x);
    CharsLength(x);
    SextetsEmpty(b);
    if b != [] {
      DecodeIs(Chars(x), b);
    }
  }

  lemma CharsLength(x: seq<Sextet>)
    ensures |Chars(x)| == |x|
  {
  }

  /** The canonical form: a nonempty text over the alphabet, no lone character, no leftover bits. */
  predicate Canonical(s: string) {
    s != "" && AllInAlphabet(s) && CanonicalBits(Values(s))
  }

  lemma {:induction false} CanonicalLength(x: seq<Sextet>)
    requires CanonicalBits(x)
    ensures |x| % 4 != 1
  {
    if |x| >= 4 {
      CanonicalLength(x[4..]);
    }
  }

  /** Exactly the canonical texts are accepted, each is the encoding of what it decodes to, and so
      decoding is injective and its domain is the encoder's nonempty outputs. */
  lemma AcceptsExactly(s: string)
    ensures Decode(s).Some? <==> Canonical(s)
    ensures Decode(s).Some? <==> exists b :: b != [] && Encode(b) == s
    ensures Decode(s).Some? ==> Decode(s).value != [] && Encode(Decode(s).value) == s
  {
    if b :| b != [] && Encode(b) == s {
      RoundTrip(b);
    }
    if Decode(s).Some? {
      var b := Decode(s).value;
      EncodeIsChars(b);
      OctetsInvert(b);
      ValuesInvert(Sextets(b));
      assert b != [] by {
        assert Sextets([]) == [];
      }
    }
    if Canonical(s) {
      CanonicalAccepted(s);
    }
    hide Encode, Octets, Sextets, Canonical;
  }

  lemma CanonicalAccepted(s: string)
    requires Canonical(s)
    ensures Decode(s).Some?
  {
    hide Values, Octets, Sextets, Chars, AllInAlphabet, Encode, CanonicalBits, Decode;
    var x := Values(s);
    CanonicalLength(x);
    SextetsInvert(x);
    CharsInvert(s);
    EncodeIsChars(Octets(x));
    CharsLength(x);
    DecodeIs(s, Octets(x));
  }
}
