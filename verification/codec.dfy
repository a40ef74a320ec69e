/** The codec's primitive-factory lookup (swaggerconformance/codec.py).
    pyswagger's `SwaggerPrimitive` is modelled as a finite map from a
    `(type, format)` key, the format possibly absent, to a
    `(creator, validator)` pair; a miss yields the empty pair. Creators and
    validators are opaque tokens: the functions they stand for are not part
    of this model. */
module Codec {
  import opened Wrappers

  /** A `(type, format)` key; `None` is the format-less type default. */
  type Key = (string, Option<string>)

  datatype Creator = CreateInt | CreateFloat | CustomCreator(name: string)

  datatype Validator = ValidateInt | ValidateFloat | CustomValidator(name: string)

  /** The `(creator, validator)` pair a factory stores. */
  datatype Entry = Entry(creator: Option<Creator>, validator: Option<Validator>)

  /** `(None, None)`: what the factory returns for a key it does not hold. */
  const Empty: Entry := Entry(None, None)

  /** The pair registered for integers without a format. */
  const IntEntry: Entry := Entry(Some(CreateInt), Some(ValidateInt))

  /** The pair registered for numbers without a format. */
  const FloatEntry: Entry := Entry(Some(CreateFloat), Some(ValidateFloat))

  /** A pyswagger primitive factory: its registration table. */
  datatype Factory = Factory(table: map<Key, Entry>)

  /** `SwaggerPrimitive.get` of the base class: the exact entry, or the
      empty pair. */
  function Lookup(f: Factory, t: string, fmt: Option<string>): Entry {
    if (t, fmt) in f.table then f.table[(t, fmt)] else Empty
  }

  /** `SwaggerPrimitive.register`: installs or overwrites one entry. */
  function Install(f: Factory, t: string, fmt: Option<string>, e: Entry): Factory {
    Factory(f.table[(t, fmt) := e])
  }

  /** The factory holds a non-empty pair for the key. */
  predicate Hit(f: Factory, k: Key) {
    k in f.table && f.table[k] != Empty
  }

  /** `_SwaggerPrimitiveDefaults.get`: the exact `(type, format)` entry; if
      that is the empty pair, the `(type, None)` entry; if that misses too,
      the empty pair, with no further fallback. */
  function Get(f: Factory, t: string, fmt: Option<string>): (r: Entry)
    ensures Hit(f, (t, fmt)) ==> r == f.table[(t, fmt)]
    ensures !Hit(f, (t, fmt)) && Hit(f, (t, None)) ==> r == f.table[(t, None)]
    ensures !Hit(f, (t, fmt)) && !Hit(f, (t, None)) ==> r == Empty
    ensures r != Empty ==> Hit(f, (t, fmt)) || Hit(f, (t, None))
  {
    var exact := Lookup(f, t, fmt);
    if exact == Empty then Lookup(f, t, None) else exact
  }

  /** A type with no entry under any format resolves to the empty pair:
      an unknown type stays an error. */
  lemma UnknownTypeMisses(f: Factory, t: string, fmt: Option<string>)
    requires forall k :: k in f.table ==> k.0 != t
    ensures Get(f, t, fmt) == Empty
  {
    assert (t, fmt) !in f.table;
    assert (t, None) !in f.table;
  }

  /** With no format the fallback asks the same question again, so the
      result is the plain lookup of `(type, None)`. */
  lemma GetWithoutFormat(f: Factory, t: string)
    ensures Get(f, t, None) == Lookup(f, t, None)
  {}

  /** `SwaggerCodec`: the codec over its primitive factory. */
  datatype SwaggerCodec = SwaggerCodec(factory: Factory)

  /** `SwaggerCodec.__init__` over pyswagger's built-in factory `base`:
      registers `create_int`/`validate_int` for `('integer', None)` and
      `create_float`/`validate_float` for `('number', None)`, so numeric
      types resolve even without a format, while every format `base`
      already handles keeps its own entry. */
  function NewCodec(base: Factory): (c: SwaggerCodec)
    ensures forall fmt :: (fmt == None || !Hit(base, ("integer", fmt))) ==> Get(c.factory, "integer", fmt) == IntEntry
    ensures forall fmt :: (fmt == None || !Hit(base, ("number", fmt))) ==> Get(c.factory, "number", fmt) == FloatEntry
    ensures forall t, fmt :: fmt != None && Hit(base, (t, fmt)) ==> Get(c.factory, t, fmt) == base.table[(t, fmt)]
    ensures forall t, fmt :: t != "integer" && t != "number" ==> Get(c.factory, t, fmt) == Get(base, t, fmt)
  {
    var withInt := Install(base, "integer", None, IntEntry);
    SwaggerCodec(Install(withInt, "number", None, FloatEntry))
  }

  /** `SwaggerCodec.register`: installs `creator` with no validator under
      exactly `(type, format)`. The key itself then resolves to it; with a
      format, no other key's resolution changes; with no format, the new
      entry becomes the fallback of every format of that type that has no
      entry of its own. */
  function Register(c: SwaggerCodec, t: string, fmt: Option<string>, creator: Creator): (c': SwaggerCodec)
    ensures Get(c'.factory, t, fmt) == Entry(Some(creator), None)
    ensures fmt != None ==>
      forall t', fmt' :: (t', fmt') != (t, fmt) ==> Get(c'.factory, t', fmt') == Get(c.factory, t', fmt')
    ensures fmt == None ==>
      forall t', fmt' :: t' != t ==> Get(c'.factory, t', fmt') == Get(c.factory, t', fmt')
    ensures fmt == None ==>
      forall fmt' :: fmt' != None && Hit(c.factory, (t, fmt')) ==> Get(c'.factory, t, fmt') == c.factory.table[(t, fmt')]
    ensures fmt == None ==>
      forall fmt' :: !Hit(c.factory, (t, fmt')) ==> Get(c'.factory, t, fmt') == Entry(Some(creator), None)
  {
    SwaggerCodec(Install(c.factory, t, fmt, Entry(Some(creator), None)))
  }
}
