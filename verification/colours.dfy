/** The `Colour` custom type of the test suite and its integer codec
    (tests/test_custom_types.py): a colour held as an integer, built from an
    integer, a `#`-prefixed hex string or another colour, compared across
    those representations and rendered back as `#rrggbb`. */
module Colours {
  import opened Wrappers
  import opened HexText

  /** A colour; `value` is what the source's `int` property returns. */
  datatype Colour = Colour(value: int)

  /** The Python values the constructor and `__eq__` are handed: a colour, a
      string, an integer, or anything else. */
  datatype Value = ColourVal(colour: Colour) | StrVal(str: string) | IntVal(i: int) | OtherVal

  /** `InvalidType` is the constructor's `AssertionError`; `InvalidLiteral`
      is the `ValueError` raised by `int(_, 16)` on a malformed string. */
  datatype ColourError = InvalidType | InvalidLiteral

  /** 2^24: one past the largest `#rrggbb` colour. */
  const ColourLimit: int := 0x100_0000

  /** `Colour(value)`: copies a colour, stores an integer unchanged, parses
      a string as base 16 after stripping every leading `#`, and rejects
      every other kind of value. */
  function NewColour(v: Value): (r: Result<Colour, ColourError>)
    ensures v.ColourVal? ==> r == Success(v.colour)
    ensures v.IntVal? ==> r == Success(Colour(v.i))
    ensures v.OtherVal? ==> r == Failure(InvalidType)
    ensures v.StrVal? ==> (r.Success? <==> IsHexLiteral(LStripHash(v.str)))
    ensures v.StrVal? && r.Success? ==> ParseHex(LStripHash(v.str)) == Some(r.value.value)
    ensures v.StrVal? && r.Failure? ==> r.error == InvalidLiteral
  {
    match v
    case ColourVal(c) => Success(Colour(c.value))
    case StrVal(s) =>
      (match ParseHex(LStripHash(s))
       case Some(n) => Success(Colour(n))
       case None => Failure(InvalidLiteral))
    case IntVal(i) => Success(Colour(i))
    case OtherVal => Failure(InvalidType)
  }

  /** The `hex` property: `#` followed by `"{0:06x}"` of the value. */
  function Hex(c: Colour): (s: string)
    ensures |s| >= 7 && s[0] == '#' && s[1] != '#'
    ensures 0 <= c.value < ColourLimit ==> |s| == 7
    ensures 0 <= c.value ==> forall i :: 1 <= i < |s| ==> IsHexDigit(s[i]) && !('A' <= s[i] <= 'F')
  {
    assert Pow16(6) == ColourLimit;
    "#" + Format06x(c.value)
  }

  /** `Colour(c.hex)` is `c` again, for every integer value. */
  lemma HexRoundTrip(c: Colour)
    ensures NewColour(StrVal(Hex(c))) == Success(c)
  {
    HexShape(c);
    StripOneHash(Format06x(c.value));
    Format06xRoundTrip(c.value);
    NewColourFromStr(Hex(c), c.value);
  }

  /** `hex` is `#` before the `"{0:06x}"` rendering.
      Only unfolds the definition; kept separate so that proofs using it stay within the solver's resource budget. */
  lemma HexShape(c: Colour)
    ensures Hex(c) == "#" + Format06x(c.value)
  {}

  /** A string whose stripped form parses to `n` builds the colour `n`. */
  lemma NewColourFromStr(s: string, n: int)
    requires ParseHex(LStripHash(s)) == Some(n)
    ensures NewColour(StrVal(s)) == Success(Colour(n))
  {}

  /** Parsing what `"{0:06x}"` renders gives back the number, for every
      integer, negative ones included. */
  lemma Format06xRoundTrip(n: int)
    ensures ParseHex(Format06x(n)) == Some(n)
  {
    if n >= 0 {
      FormatNonNegative(n);
      UnsignedRoundTrip(n);
    } else {
      FormatNegative(n);
      NegativeRoundTrip(n);
    }
  }

  lemma UnsignedRoundTrip(n: int)
    requires n >= 0
    ensures ParseHex(PaddedHex(n, 6)) == Some(n)
  {
    ParseUnsigned(PaddedHex(n, 6));
  }

  lemma NegativeRoundTrip(n: int)
    requires n < 0
    ensures ParseHex("-" + PaddedHex(-n, 5)) == Some(n)
  {
    ParseNegative(PaddedHex(-n, 5));
  }

  /** `__eq__`: an integer or string operand is first turned into a colour
      (which may raise), a colour operand is compared by value, and any other
      operand gives `NotImplemented`, modelled as `None`. */
  function Equals(c: Colour, other: Value): (r: Result<Option<bool>, ColourError>)
    ensures other.ColourVal? ==> r == Success(Some(c == other.colour))
    ensures other.IntVal? ==> r == Success(Some(c.value == other.i))
    ensures other.OtherVal? ==> r == Success(None)
    ensures other.StrVal? ==> (r.Success? <==> NewColour(other).Success?)
    ensures other.StrVal? && r.Success? ==> r.value == Some(c == NewColour(other).value)
    ensures other.StrVal? && r.Failure? ==> r.error == InvalidLiteral
  {
    if other.IntVal? || other.StrVal? then
      match NewColour(other)
      case Failure(e) => Failure(e)
      case Success(o) => Success(Some(c.value == o.value))
    else if other.ColourVal? then Success(Some(c.value == other.colour.value))
    else Success(None)
  }

  /** Comparing colours is an equivalence: reflexive, symmetric and transitive. */
  lemma EqualsIsEquivalence(a: Colour, b: Colour, c: Colour)
    ensures Equals(a, ColourVal(a)) == Success(Some(true))
    ensures Equals(a, ColourVal(b)) == Equals(b, ColourVal(a))
    ensures Equals(a, ColourVal(b)) == Success(Some(true)) && Equals(b, ColourVal(c)) == Success(Some(true))
            ==> Equals(a, ColourVal(c)) == Success(Some(true))
  {}

  /** A colour equals its own `hex` string. */
  lemma EqualsOwnHex(c: Colour)
    ensures Equals(c, StrVal(Hex(c))) == Success(Some(true))
  {
    HexRoundTrip(c);
  }

  /** `ColourIntCodec(_, value)`: the codec creator pyswagger calls with the
      schema object first; that argument is ignored and the colour is built
      from the second one. */
  function IntCodecNew<S>(schema: S, v: Value): (r: Result<Colour, ColourError>)
    ensures v.IntVal? ==> r.Success? && r.value.value == v.i
    ensures v.ColourVal? ==> r == Success(v.colour)
    ensures v.OtherVal? ==> r == Failure(InvalidType)
    ensures v.StrVal? ==> r == NewColour(v)
    ensures v.StrVal? ==> (r.Success? <==> IsHexLiteral(LStripHash(v.str)))
    ensures v.StrVal? && r.Success? ==> ParseHex(LStripHash(v.str)) == Some(r.value.value)
  {
    NewColour(v)
  }

  /** `ColourIntCodec.to_json`: the colour's integer. */
  function ToJson(c: Colour): (j: int)
    ensures NewColour(IntVal(j)) == Success(c)
  {
    c.value
  }

  /** Decoding what `to_json` wrote gives a colour equal to the original,
      whatever schema object the decoder is handed. */
  lemma IntCodecRoundTrip<S>(schema: S, other: S, c: Colour)
    ensures IntCodecNew(schema, IntVal(ToJson(c))) == Success(c)
    ensures Equals(IntCodecNew(schema, IntVal(ToJson(c))).value, ColourVal(c)) == Success(Some(true))
    ensures forall v :: IntCodecNew(schema, v) == IntCodecNew(other, v)
  {}
}
