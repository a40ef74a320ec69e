# swagger-conformance: codec lookup and the Colour custom type, in Dafny

This project models two small parts of swagger-conformance. That library
generates random requests for an OpenAPI/Swagger interface contract and checks
that the responses conform to it.

1. **The codec's primitive-factory lookup** (`swaggerconformance/codec.py`).
   `SwaggerCodec` wraps a pyswagger primitive factory. The factory maps a
   `(type, format)` key to a `(creator, validator)` pair, and the format may be
   absent. `_SwaggerPrimitiveDefaults.get` first tries the exact key. If that
   gives the empty pair, it retries with `(type, None)`, and it goes no further.
   The codec's constructor registers format-less `integer` and `number`
   entries. `register` installs a creator with no validator.
2. **The colour custom type of the test suite** (`tests/test_custom_types.py`).
   `Colour` can be built from an integer, from a `#`-prefixed hex string or from
   another colour. It compares equal across those representations and renders
   as `#rrggbb`. `ColourIntCodec` is the creator registered with the codec for
   `('integer', 'intcolour')`. `HexColourStrTemplate` and `ColourObjTemplate`
   are the value generators the tests register.

Modules:
- `Wrappers` holds `Option` (Python's `None`) and `Result` (an operation that
  may raise).
- `HexText` models the Python built-ins Colour relies on: `str.lstrip('#')`,
  `int(s, 16)`, `"{0:06x}".format(n)` and `string.hexdigits`.
- `Colours` holds the `Colour` datatype, its constructor, `__eq__`, `hex`, and
  `ColourIntCodec`.
- `ColourTemplates` models the two generators. A generator is a function of
  the choice sequence that the property-based-testing engine draws from. Each
  sampler's contract says every value it gives has the promised shape, and a
  lemma says every value of that shape can be drawn.
- `Codec` holds the factory as an immutable map, `Get`, `NewCodec` and
  `Register`.
- `Scenarios` shows the codec and the colour type used together, as the
  custom-codec test does.

## Model

| member | source | states |
|---|---|---|
| `Codec.Get` | swaggerconformance/codec.py:24-34 | A non-empty exact `(type, format)` entry wins, even when a `(type, None)` default exists. If the exact key misses, the result is the type default when there is one, and otherwise the empty pair. A non-empty result always comes from one of those two keys, with no other fallback. |
| `Codec.UnknownTypeMisses` | swaggerconformance/codec.py:25-34 | A type with no entry under any format resolves to the empty pair, so an unknown type stays an error. |
| `Codec.GetWithoutFormat` | swaggerconformance/codec.py:30-32 | When the format is already `None`, the retry asks the same question, so `get(t, None)` is the plain lookup of `(t, None)`. |
| `Codec.NewCodec` | swaggerconformance/codec.py:40-48 | A fresh codec resolves `integer` and `number` to the built-in int and float pairs for `None` and for every format the base factory does not handle. Formats the base factory handles keep their own entries. Every other type resolves exactly as in the base factory. |
| `Codec.Register` | swaggerconformance/codec.py:58-68 | After `register(t, f, c)`, `get(t, f)` gives creator `c` with no validator. With a format, every other key resolves as before. With no format, other types are untouched, formats of `t` that have their own entry keep it, and the rest of `t`'s formats now fall back to `c`. |
| `HexText.HexDigitsAgree` | tests/test_custom_types.py:33 | The digit predicate used by parsing and generation accepts exactly the characters of `string.hexdigits`. |
| `HexText.LStripHash` | tests/test_custom_types.py:55 | `lstrip('#')` returns a suffix of its input. Everything it removed is `#`, and what it returns does not start with `#`. |
| `HexText.ParseHex` | tests/test_custom_types.py:55 | Within the ASCII literals this model covers, `int(_, 16)` succeeds exactly on an optional sign followed by one or more hex digits. |
| `HexText.ParseUnsigned` | tests/test_custom_types.py:55 | An unsigned string of hex digits parses to its base-16 value. |
| `HexText.ParsePlus` | tests/test_custom_types.py:55 | A `+` before hex digits leaves their value unchanged, as `int('+ff', 16) == 255`. |
| `HexText.ParseNegative` | tests/test_custom_types.py:55 | A `-` before hex digits negates their value. |
| `HexText.DigitValueIgnoresCase` | tests/test_custom_types.py:33-35 | The upper-case digits `A`..`F` that the hex template may draw have the values 10..15, the same as their lower-case forms. |
| `HexText.DigitsValue` | tests/test_custom_types.py:55 | The value of `k` hex digits is below 16^k. |
| `HexText.PaddedHex` | tests/test_custom_types.py:76 | The zero-padded lower-case digits of `m` are at least `width` long and have value `m`, so parsing them back gives `m`. When `width > 0` and `m` is below 16^width they are exactly `width` long. |
| `HexText.Format06x` | tests/test_custom_types.py:76 | `"{0:06x}"` gives at least six characters and never starts with `#`. A non-negative value gives only lower-case hex digits. A value in [0, 2^24) gives exactly six. |
| `Colours.NewColour` | tests/test_custom_types.py:51-59 | A colour argument is copied and an integer is stored unchanged. A string is accepted exactly when it is a hex literal after all leading `#` are stripped. The colour's integer is then that literal's base-16 value, and otherwise `ValueError` is raised. Any other value raises the invalid-type error. |
| `Colours.Hex` | tests/test_custom_types.py:73-76 | `hex` starts with `#` followed by a non-`#` character. For `0 <= n < 2^24` it is exactly 7 characters, and every character after the `#` is a lower-case hex digit. |
| `Colours.HexRoundTrip` | tests/test_custom_types.py:51-76 | `Colour(c.hex)` rebuilds `c` for every integer value, negative ones and ones at or above 2^24 included. |
| `Colours.Format06xRoundTrip` | tests/test_custom_types.py:74-76 | Parsing the `"{0:06x}"` rendering of any integer as base 16 gives that integer back. |
| `Colours.Equals` | tests/test_custom_types.py:61-66 | An integer operand compares the integers. A colour operand compares the colours. A string operand is coerced first, and raises exactly when the constructor would, with the same `ValueError`. Any other operand gives `NotImplemented`. |
| `Colours.EqualsIsEquivalence` | tests/test_custom_types.py:61-66 | Equality between colours is reflexive, symmetric and transitive. |
| `Colours.EqualsOwnHex` | tests/test_custom_types.py:61-76 | Every colour compares equal to its own `hex` string. |
| `Colours.IntCodecNew` | tests/test_custom_types.py:79-81 | `ColourIntCodec(_, v)` builds from the integer `v` unchanged and copies a colour `v`. A string `v` is handled as the constructor handles it: accepted exactly when it is a hex literal after stripping `#`, with that literal's value. Any other kind of value is rejected, whatever the first argument is. |
| `Colours.ToJson` | tests/test_custom_types.py:83-84 | Building a colour from the integer `to_json` returns gives back the same colour. |
| `Colours.IntCodecRoundTrip` | tests/test_custom_types.py:79-84 | Decoding `to_json`'s output with `ColourIntCodec` yields the original colour, which compares equal to it. The result does not depend on the first argument. |
| `ColourTemplates.DrawHexText` | tests/test_custom_types.py:33-35 | The fixed-size text strategy gives exactly `n` characters, all from `string.hexdigits`. |
| `ColourTemplates.SampleHexColour` | tests/test_custom_types.py:30-39 | With an enum, every generated value is a member of it. Without one, every generated value is `#` followed by six hex digits. Without an enum, a value is drawn whenever six choices are available. |
| `ColourTemplates.SampleHexColourComplete` | tests/test_custom_types.py:30-39 | Conversely, every enum member, and every `#` plus six hex digits when there is no enum, is produced by some choice sequence. |
| `ColourTemplates.HexColourDecodes` | tests/test_custom_types.py:33-37 | Every non-enum generated string decodes, by stripping `#` and parsing base 16, to an integer in `[0, 2^24)`. |
| `ColourTemplates.SampleColourObj` | tests/test_custom_types.py:45-46 | Without an enum, the colour-object template always builds a colour successfully, with its integer in `[0, 2^24)`. |
| `ColourTemplates.SampleColourObjComplete` | tests/test_custom_types.py:42-46 | Every colour with integer in `[0, 2^24)` is produced by the colour-object template. |
| `ColourTemplates.GeneratedHexSurvivesIntCodec` | tests/test_custom_types.py:183-204 | In the hex-through-integer-codec test, `ColourIntCodec` accepts every generated hex string. Its `to_json` integer lies in `[0, 2^24)`, which is also what `int(raw.lstrip('#'), 16)` gives at lines 107-111. Decoding that integer with `ColourIntCodec` again gives a colour that compares equal to the original string, as lines 244-248 assert. |
| `Scenarios.IntColourCodecScenario` | tests/test_custom_types.py:174-181 | On a fresh codec with `ColourIntCodec` registered for `('integer', 'intcolour')`, that key resolves to the new creator and a format-less integer still resolves to the built-in pair. As a separate fact, stated alongside, `IntCodecNew` (the function the `ColourIntCodec` token stands for) turns 255 into a colour whose integer is 255. The lemma does not tie the token to that function. |

## Left out

- Logging configuration (swaggerconformance/codec.py:5, 10-13, 18) is left out because it has no effect on lookups.
- The `swagger_factory` property (swaggerconformance/codec.py:50-56) is only an accessor. In the model the factory is the codec's `factory` field.
- pyswagger internals are not part of this model. The `SwaggerPrimitive` base class is a finite map that yields the empty pair on a miss. `create_int`, `validate_int`, `create_float` and `validate_float` are opaque tokens. pyswagger's own built-in table is the `base` parameter of `NewCodec`.
- Decoding proper is left out: calling the resolved creator and validator happens inside pyswagger. An empty pair from `Get` is where pyswagger reports an unsupported type.
- `Get` being read-only and repeatable is not a separate lemma. It holds by construction: `Get` is a pure function that returns only an entry and no new factory, so asking twice gives the same answer and leaves the registry as it was.
- `HexText.ParseHex` rejects strings that Python's `int(_, 16)` accepts: surrounding whitespace, underscores between digits, a `0x` prefix, and non-ASCII Unicode decimal digits (such as Arabic-Indic digits), which Python maps to ASCII digits first. Signs are modelled.
- Python's `bool` is a subclass of `int`, so `Colour(True)` gives 1. The model has no boolean value.
- When `__eq__` returns `NotImplemented`, Python falls back to the reflected operation or to identity. The model stops at `NotImplemented`, written as `None`.
- Hypothesis randomness, shrinking, settings and health checks are left out. Each generator is only a function from a choice sequence to a value. An empty enum, or too few choices, yields no value.
- `ColourTemplates.SampleColourObj`: with an enum, `ColourObjTemplate` maps each member through `Colour`. The model does the same but promises nothing about the result's shape.
- The HTTP-mocked test bodies (tests/test_custom_types.py:87-250 apart from the lines cited above) and tests/test_swaggerconformance.py are request plumbing with no local logic.
- The value-template factory, the operation templates and the client are not part of this model.
- `Codec.Get` raises nothing when neither `(type, format)` nor `(type, None)` resolves. It returns the empty pair, and any unsupported-type error is raised later by pyswagger, which is not part of this model.
