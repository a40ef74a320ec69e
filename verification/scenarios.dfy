/** The codec and the colour type together, as the custom-codec test case
    uses them (tests/test_custom_types.py, `test_colour_int_codec`). */
module Scenarios {
  import opened Wrappers
  import opened Codec
  import opened Colours

  /** The token standing for the `ColourIntCodec` class as a creator. */
  const IntColourCreator: Creator := CustomCreator("ColourIntCodec")

  /** After registering `ColourIntCodec` for `('integer', 'intcolour')` on a
      fresh codec, that key resolves to it with no validator, a format-less
      integer still resolves to the built-in pair, and the creator turns the
      wire integer 255 into a colour whose integer is 255. */
  lemma IntColourCodecScenario<S>(base: Factory, schema: S)
    ensures var codec := Register(NewCodec(base), "integer", Some("intcolour"), IntColourCreator);
            && Get(codec.factory, "integer", Some("intcolour")) == Entry(Some(IntColourCreator), None)
            && Get(codec.factory, "integer", None) == IntEntry
            && IntCodecNew(schema, IntVal(255)) == Success(Colour(255))
  {}
}
