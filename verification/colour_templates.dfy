/** The value generators the test suite registers for its colour type:
    `HexColourStrTemplate.hypothesize` and `ColourObjTemplate.hypothesize`
    (tests/test_custom_types.py). A generator is modelled as a function of
    the choice sequence the property-based-testing engine draws from: each
    choice is a natural number, and a choice sequence too short for the
    generator yields no value. Soundness (every value it can give has the
    promised shape) is each sampler's contract; completeness (every value of
    that shape can be given) is a lemma. */
module ColourTemplates {
  import opened Wrappers
  import opened HexText
  import opened Colours

  /** A string the non-enum hex generator can produce: `#` and six
      characters of `string.hexdigits`. */
  predicate IsHexColourStr(s: string) {
    |s| == 7 && s[0] == '#' && forall i :: 1 <= i < 7 ==> IsHexDigit(s[i])
  }

  /** The values a hex-colour template may produce: a member of the schema's
      enum when it has one, otherwise a hex colour string. */
  predicate MayProduce(enum: Option<seq<Value>>, v: Value) {
    match enum
    case Some(members) => v in members
    case None => v.StrVal? && IsHexColourStr(v.str)
  }

  /** `text(alphabet=set(string.hexdigits), min_size=n, max_size=n)` on the
      first `n` choices: each choice picks one of the 22 characters of the
      alphabet (their order is immaterial: only the set is used). */
  function DrawHexText(choices: seq<nat>, n: nat): (s: string)
    requires |choices| >= n
    ensures |s| == n
    ensures forall i :: 0 <= i < n ==> IsHexDigit(s[i])
  {
    seq(n, i requires 0 <= i < n => HexDigitAt(choices[i] % 22))
  }

  /** `HexColourStrTemplate.hypothesize`: `sampled_from(enum)` when the schema
      has an enum, else six hex digits with a leading `#`. */
  function SampleHexColour(enum: Option<seq<Value>>, choices: seq<nat>): (r: Option<Value>)
    ensures r.Some? ==> MayProduce(enum, r.value)
    ensures enum.None? ==> (r.Some? <==> |choices| >= 6)
    ensures enum.Some? ==> (r.Some? <==> |choices| >= 1 && |enum.value| > 0)
  {
    match enum
    case Some(members) =>
      if |choices| == 0 || |members| == 0 then None
      else Some(members[choices[0] % |members|])
    case None =>
      if |choices| < 6 then None
      else Some(StrVal("#" + DrawHexText(choices, 6)))
  }

  /** Every value the template may produce is drawn by some choice sequence. */
  lemma SampleHexColourComplete(enum: Option<seq<Value>>, v: Value)
    requires MayProduce(enum, v)
    ensures exists choices :: SampleHexColour(enum, choices) == Some(v)
  {
    var choices;
    if enum.Some? {
      choices := EnumChoices(enum.value, v);
    } else {
      choices := HexStrChoices(v.str);
    }
  }

  /** A choice sequence from which `sampled_from(members)` draws `v`. */
  lemma EnumChoices(members: seq<Value>, v: Value) returns (choices: seq<nat>)
    requires v in members
    ensures SampleHexColour(Some(members), choices) == Some(v)
  {
    var i :| 0 <= i < |members| && members[i] == v;
    choices := [i];
  }

  /** A choice sequence from which the hex template draws exactly `s`. */
  lemma HexStrChoices(s: string) returns (choices: seq<nat>)
    requires IsHexColourStr(s)
    ensures SampleHexColour(None, choices) == Some(StrVal(s))
  {
    choices := seq(6, k requires 0 <= k < 6 => HexDigitIndex(s[k + 1]));
    var drawn := DrawHexText(choices, 6);
    forall k | 0 <= k < 6
      ensures drawn[k] == s[k + 1]
    {
      assert choices[k] % 22 == choices[k];
    }
    assert "#" + drawn == s;
  }

  /** Every non-enum hex colour string decodes, by stripping the `#` and
      parsing base 16, to an integer in [0, 2^24). */
  lemma HexColourDecodes(s: string)
    requires IsHexColourStr(s)
    ensures NewColour(StrVal(s)).Success?
    ensures 0 <= NewColour(StrVal(s)).value.value < ColourLimit
  {
    var digits := s[1..];
    assert AllHex(digits) by {
      forall i | 0 <= i < |digits|
        ensures IsHexDigit(digits[i])
      {
        assert digits[i] == s[i + 1];
      }
    }
    assert LStripHash(s) == digits by {
      assert IsHexDigit(s[1]);
      assert LStripHash(s) == LStripHash(digits);
    }
    ParseUnsigned(digits);
    assert Pow16(6) == ColourLimit;
  }

  /** `ColourObjTemplate.hypothesize`: the hex template's values passed
      through the `Colour` constructor. */
  function SampleColourObj(enum: Option<seq<Value>>, choices: seq<nat>): (r: Option<Result<Colour, ColourError>>)
    ensures enum.None? ==> (r.Some? <==> |choices| >= 6)
    ensures enum.None? && r.Some? ==> r.value.Success? && 0 <= r.value.value.value < ColourLimit
  {
    match SampleHexColour(enum, choices)
    case None => None
    case Some(v) =>
      if enum.None? then
        HexColourDecodes(v.str);
        Some(NewColour(v))
      else Some(NewColour(v))
  }

  /** Every colour of [0, 2^24) is produced by the colour-object template. */
  lemma SampleColourObjComplete(c: Colour)
    requires 0 <= c.value < ColourLimit
    ensures exists choices :: SampleColourObj(None, choices) == Some(Success(c))
  {
    HexIsHexColourStr(c);
    var choices := HexStrChoices(Hex(c));
    ColourObjFromHex(choices, Hex(c));
    HexRoundTrip(c);
  }

  /** The `hex` of a colour of [0, 2^24) is a string the hex template produces. */
  lemma HexIsHexColourStr(c: Colour)
    requires 0 <= c.value < ColourLimit
    ensures IsHexColourStr(Hex(c))
  {}

  /** The colour-object template builds its colour from the hex template's string.
      Only unfolds the definition; kept separate so that proofs using it stay within the solver's resource budget. */
  lemma ColourObjFromHex(choices: seq<nat>, s: string)
    requires SampleHexColour(None, choices) == Some(StrVal(s))
    ensures SampleColourObj(None, choices) == Some(NewColour(StrVal(s)))
  {}

  /** What the hex-through-integer-codec test compares: a generated hex
      string is encoded by `ColourIntCodec` and its `to_json`, travels as an
      integer in [0, 2^24) (the same integer `int(raw.lstrip('#'), 16)` gives),
      is decoded by `ColourIntCodec` again, and the colour it yields equals the
      string it started from. */
  lemma GeneratedHexSurvivesIntCodec<S>(schema: S, s: string)
    requires IsHexColourStr(s)
    ensures IntCodecNew(schema, StrVal(s)).Success?
    ensures var wire := ToJson(IntCodecNew(schema, StrVal(s)).value);
            0 <= wire < ColourLimit &&
            Equals(IntCodecNew(schema, IntVal(wire)).value, StrVal(s)) == Success(Some(true))
  {
    HexColourDecodes(s);
  }
}
