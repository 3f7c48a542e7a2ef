# kserde in Dafny

A model of the core of `kserde`, a small Rust serialization library. It has
two halves:

- a JSON pipeline:
  - a recursive-descent parser from text to a dynamic `Value` tree;
  - two encoders from `Value` back to indented text;
- a visitor protocol that separates a type's shape from the wire format, with:
  - the `Serialize` impls of the primitives and collections;
  - the `AnyValue` projections of the deserializer side;
  - the generic `Thing` codec;
  - the text generator behind `#[derive(Serialize, Deserialize)]`;
  - the hand-written `Person` codec of the examples.

Modules:

- `Base`: shared text and sequence helpers.
  - `Option`.
  - Opaque floats: `F64` carries the literal it came from.
  - `I64`.
  - `Spaces`.
  - Terminated and joined lists, and splitting them back.
- `Keyed`: a `HashMap` stands as a list of entries with distinct keys.
  - `Insert` replaces the value of a present key and appends a new one.
  - `InsertIsMapUpdate` relates it to a Dafny `map`.
- `Json`: `Value`, the five `as_*` accessors, and the node count used to bound parses.
- `FromStr`: the parser.
  - The specification is written as state-passing functions: `SkipWs`, `ScanString`, `ScanNumber`, and the mutually recursive `PValue`/`PObject`/`PArray`. These thread the position and the global call counter.
  - The `Parser` class has the fields `source`, `pos` and `recursionDepth`. Its loop-based methods are proved equal to those functions.
  - `ParseFacts` and `ParseExamples` state what the functions accept.
- `Encoding`: the one layout both encoders produce.
  - `{}` for an empty object.
  - Otherwise one entry per line, indented four spaces deeper, with entries separated by `,\n`.
  - Arrays on one line, elements separated by `, `.
  - Strings quoted without escaping.
  - The text of `Null` is a parameter: `null` in `to_string.rs`, the quoted `"null"` in `json_serialize.rs`.
- `ToString` and `JsonSerialize`: the two encoders, written as the source writes them.
  - They push an entry and its separator, then pop the last separator.
  - Each is proved to produce exactly `Layout`.
- `SerializeTrait` and `ValueSerialize`: each `Serialize` impl as the single serializer call it makes.
- `DeserializeTrait`: `AnyValue` and its projections.
- `Protocol`: serializer calls recorded as events.
  - `EventCursor` is a deserializer replaying such a stream.
  - Its ghost `failed` flag is the validity the trait documents: once a read answers nothing, the deserializer stays invalid.
- `ThingCodec`: the `Thing` codec.
  - `Serialize` is a trace function.
  - `Deserialize` is a method on the cursor, proved against a reading function.
  - Reading back any trace rebuilds the tree.
- `PersonCodec`: the fixed-shape record codec and its required-field checks.
- `Derive`: the derive generator as text.
  - Its accumulating loops are proved to build exactly the template text.
  - Lemmas split the generated blocks back into one line per field.
- `RoundTrip`: the parser reads back what the encoders write.
  - The text of a tree, wherever it stands in a source, is read as that tree, ends where the text ends and costs one `parse_value` call per node.
  - This holds for "plain" trees only. Their strings and keys hold no quote and no backslash, because the encoders do not escape. They hold no number, because float text is not modelled.
  - A plain tree has no `Null` either: one encoder writes it as the string `"null"`, and the other writes a keyword that the parser reads as `Boolean(true)`. It has no `false`, which the parser also reads as `Boolean(true)`.
  - Its objects have distinct keys, and it fits within the call limit.

Behaviour of the source that the model keeps as written:

- The keywords are not checked. `t…`, `f…` and `n…` consume four, five and four characters and all give `Boolean(true)` (`ParseExamples.KeywordExamples`).
- Commas are optional before any member or element.
- A repeated key keeps the last value.
- Input after the first value is ignored.
- A `\u` escape takes four hex digits, and also accepts a leading `+`, as Rust's `from_str_radix` does.
- The parser counts every `parse_value` call against the limit of 1024, nested or not.
- Strings and keys are encoded without escaping.
- The Option test of the derive generator only looks at the first six characters of the type.

## Model

| member | source | states |
|---|---|---|
| FromStr.SkipWsIsMaximalRun | src/from_str.rs:16-20 | whitespace skipping stops at the first non-whitespace character or the end, and skips only whitespace |
| FromStr.Parser.SkipWhitespace | src/from_str.rs:16-20 | the cursor moves to the end of the whitespace run |
| FromStr.HexQuadAccepts | src/from_str.rs:47-48 | four characters are a hex value exactly when all four are hex digits or a `+` and three hex digits |
| FromStr.CharFromU32 | src/from_str.rs:73-75 | a code point is a char exactly outside the surrogate range and below 0x110000 |
| FromStr.SurrogatesRoundTrip | src/from_str.rs:67-68 | combining a high and a low surrogate is inverse to splitting a supplementary code point |
| FromStr.UnicodeEscape | src/from_str.rs:46-76 | a `\u` escape either reads four hex digits outside the high-surrogate range, or a high surrogate, two skipped characters, and a low surrogate combined into one char |
| FromStr.StringChar | src/from_str.rs:32-90 | a closing quote ends the string; any character other than a backslash is taken as it is |
| FromStr.ScanString | src/from_str.rs:22-95 | a string starts with `"` and spans at least its two quotes |
| FromStr.DigitsIsMaximalRun | src/from_str.rs:170-180 | the digit loop consumes the whole run of ASCII digits and nothing more |
| FromStr.UnsignedInt | src/from_str.rs:166-182 | an integer part needs a digit; a leading `0` consumes only itself, any other digit the whole run |
| FromStr.Fraction | src/from_str.rs:186-203 | the fraction consumes something exactly when a `.` follows |
| FromStr.Exponent | src/from_str.rs:206-244 | without `e`/`E` nothing is consumed; the case with one is stated by `ParseFacts.ExponentNeedsDigit` |
| FromStr.ScanNumber | src/from_str.rs:155-250 | a number consumes at least one character |
| FromStr.PValue | src/from_str.rs:252-303 | a parsed value consumes input and counts at least one call against the limit |
| FromStr.PScalar | src/from_str.rs:268-301 | strings, keywords and numbers never give an object or an array |
| FromStr.PObject | src/from_str.rs:97-129 | an object's members end after the position they start at, with the call counter within the limit |
| FromStr.PArray | src/from_str.rs:131-153 | an array's elements end after the position they start at, with the call counter within the limit |
| FromStr.Parser.constructor | src/from_str.rs:307-311 | a parser starts at position 0 with the counter at 0 |
| FromStr.Parser.Advance | src/from_str.rs:275-294 | skipping keyword letters succeeds exactly when that many characters remain |
| FromStr.Parser.ReadEscape | src/from_str.rs:34-81 | the escape branch of the string loop reads what `Escape` describes |
| FromStr.Parser.ParseString | src/from_str.rs:22-95 | `parse_string` answers exactly what `ScanString` describes and leaves the cursor after the closing quote |
| FromStr.Parser.SkipDigits | src/from_str.rs:170-180 | the digit loop stops where `Digits` says |
| FromStr.Parser.ReadUnsigned | src/from_str.rs:166-182 | the integer part is read as `UnsignedInt` describes |
| FromStr.Parser.ReadFraction | src/from_str.rs:186-203 | the fraction is read as `Fraction` describes |
| FromStr.Parser.ReadExponent | src/from_str.rs:206-239 | the exponent is read as `Exponent` describes |
| FromStr.Parser.ParseNumber | src/from_str.rs:155-250 | `parse_number` fails exactly when `ScanNumber` does and otherwise yields the consumed text |
| FromStr.Parser.ParseValue | src/from_str.rs:252-303 | `parse_value` answers exactly what `PValue` describes, including the final position and call count |
| FromStr.Parser.ParseObject | src/from_str.rs:97-129 | `parse_object` answers exactly what `PObject` describes |
| FromStr.Parser.ParseMember | src/from_str.rs:114-126 | one key, colon and value, as `PMember` describes |
| FromStr.Parser.ParseArray | src/from_str.rs:131-153 | `parse_array` answers exactly what `PArray` describes |
| FromStr.FromStrMethod | src/from_str.rs:306-313 | `from_str` answers exactly `Parse` |
| ParseFacts.NoQuoteNoBody | src/from_str.rs:83 | a string body with no closing quote ahead fails |
| ParseFacts.UnterminatedString | src/from_str.rs:23-26 | a string that does not start with `"`, or is never closed, fails |
| ParseFacts.BodyEndsAtClosingQuote | src/from_str.rs:31-92 | the string loop succeeds exactly when it stops at an unescaped closing quote and then ends right after it; a source that ends first, even right after an escaped quote, gives nothing |
| ParseFacts.VerbatimBody | src/from_str.rs:84-89 | without backslashes the body is the source text up to the quote |
| ParseFacts.VerbatimString | src/from_str.rs:84-94 | a string without backslashes is exactly the characters between its quotes |
| ParseFacts.SimpleEscapes | src/from_str.rs:37-45 | the eight simple escapes decode to their characters; any other letter fails |
| ParseFacts.UnknownEscapeFails | src/from_str.rs:80 | a backslash followed by an unknown character fails |
| ParseFacts.BasicPlaneEscape | src/from_str.rs:75 | a `\u` value outside the surrogate range decodes to that char |
| ParseFacts.LoneLowSurrogateFails | src/from_str.rs:75 | a lone low surrogate fails |
| ParseFacts.HighSurrogateNeedsLow | src/from_str.rs:62-66 | a high surrogate not followed by a low surrogate fails |
| ParseFacts.SurrogatePairDecodes | src/from_str.rs:54-74 | a surrogate pair decodes to the supplementary char it encodes |
| ParseFacts.UnicodeEscapeExamples | src/from_str.rs:46-76 | `\u0041` decodes to `A`, `\uD83D\uDE00` to U+1F600, and `\uDE00` fails |
| ParseFacts.NumberNeedsDigit | src/from_str.rs:155-181 | a number is read only when a digit follows the optional `-` |
| ParseFacts.ExponentNeedsDigit | src/from_str.rs:207-239 | after `e` or `E` the exponent is read exactly when a digit follows the optional sign, and it reaches past that digit |
| ParseFacts.KeywordsAreLenient | src/from_str.rs:272-295 | at `t`, `n` or `f` only the count of remaining characters is checked (four, or five for `f`), and the value is always `Boolean(true)` |
| ParseFacts.InsertFacts | src/from_str.rs:126 | inserting a member keeps keys distinct and bounds the node count |
| ParseFacts.PValueFacts | src/from_str.rs:252-303 | a parsed value has distinct keys and costs at least one counted call per node |
| ParseFacts.PObjectFacts | src/from_str.rs:97-129 | parsed objects keep distinct keys, only add keys, and are bounded by the calls made |
| ParseFacts.PArrayFacts | src/from_str.rs:131-153 | parsed arrays extend what was read before, in order, bounded by the calls made |
| ParseFacts.ObjectEndsAtBrace | src/from_str.rs:106-108 | a parsed object ends right after a `}` |
| ParseFacts.ObjectStep | src/from_str.rs:114-126 | once a member is read, the member loop goes on after it with the member inserted |
| ParseFacts.ObjectClose | src/from_str.rs:106-109 | a closing brace ends the member loop with the members read so far, right after the brace |
| ParseFacts.MissingColonFails | src/from_str.rs:117-121 | a key not followed by a colon, after whitespace, fails the member |
| ParseFacts.MissingColonFailsObject | src/from_str.rs:114-121 | a member whose key is not followed by a colon fails the whole object |
| ParseFacts.RepeatedKeyReplaces | src/from_str.rs:125-126 | a member whose key was read before replaces that key's value in place, and the loop goes on |
| ParseFacts.ArrayEndsAtBracket | src/from_str.rs:139-141 | a parsed array ends right after a `]` |
| ParseFacts.ParsedTreesAreBounded | src/from_str.rs:253-256 | any parsed tree has distinct keys and at most 1024 nodes |
| ParseExamples.KeywordExamples | src/from_str.rs:272-295 | `false`, `null` and `t!?x` all give `Boolean(true)`; `tru` fails |
| ParseExamples.MalformedNumbers | src/from_str.rs:166-239 | `-`, `.5`, `1e`, `1e+` fail |
| ParseExamples.LenientNumbers | src/from_str.rs:167-203 | `01` reads only `0`; `1.` is a number |
| ParseExamples.FullNumber | src/from_str.rs:155-250 | a signed number with fraction and signed exponent is consumed whole |
| ParseExamples.TrailingInputIgnored | src/from_str.rs:306-313 | input after the first value is ignored |
| ParseExamples.MissingColonExample | src/from_str.rs:117-121 | `{"a" true}` fails for want of a colon |
| ParseExamples.RepeatedKeyExample | src/from_str.rs:125-126 | `{"a":true,"a":[]}` reads as the one member `a` with the last value |
| ParseExamples.EscapedQuoteDoesNotClose | src/from_str.rs:83 | a string whose source ends right after an escaped quote fails |
| Keyed.Insert | src/from_str.rs:126 | insert maps the key to the new value, keeps every other key's value, keeps keys distinct, and appends only a new key |
| Keyed.InsertIsMapUpdate | src/thing.rs:24 | inserting into the entry list is a map update |
| Keyed.InsertNext | src/thing.rs:22-25 | inserting the entries of a distinct-key list one by one rebuilds it |
| Keyed.InsertPresent | src/from_str.rs:126 | inserting a key the list holds replaces its value at its place |
| Json.AsString | src/lib.rs:20-25 | `as_string` is some text exactly for a string |
| Json.AsNumber | src/lib.rs:27-32 | `as_number` is some number exactly for a number |
| Json.AsObject | src/lib.rs:34-39 | `as_object` is some map exactly for an object |
| Json.AsArray | src/lib.rs:41-46 | `as_array` is some list exactly for an array |
| Json.AsBoolean | src/lib.rs:48-53 | `as_boolean` is some flag exactly for a boolean |
| Json.AccessorsAreExclusive | src/json/value.rs:15-49 | exactly one accessor answers for each variant except `Null`, for which none does |
| Encoding.NullFreeLayoutsAgree | src/json/json_serialize.rs:107 | the two encoders' layouts differ only through the text of `Null` |
| ToString.Indent | src/to_string.rs:3-5 | `indent` appends exactly `amount` spaces |
| ToString.EncodeValue | src/to_string.rs:7-54 | `encode_value` only appends, and appends exactly the layout of the value |
| ToString.EncodeObject | src/to_string.rs:9-30 | an object appends `{}` when empty, else entries one per line, separated by commas, closed at the outer indentation |
| ToString.EncodeArray | src/to_string.rs:31-42 | an array appends its elements separated by `, ` between brackets |
| JsonSerialize.NatTextRoundTrip | src/json/json_serialize.rs:69-71 | the decimal text of a natural number reads back as that number |
| JsonSerialize.I64TextRoundTrip | src/json/json_serialize.rs:69-71 | the decimal text of an `i64` reads back as that integer |
| JsonSerialize.JsonSerializer.constructor | src/json/json_serialize.rs:11-16 | a serializer starts with an empty buffer at indentation 0 |
| JsonSerialize.JsonSerializer.Indent | src/json/json_serialize.rs:18-20 | `indent` appends the current indentation in spaces |
| JsonSerialize.JsonSerializer.Map | src/json/json_serialize.rs:25-48 | `map` appends the object layout and restores the indentation |
| JsonSerialize.JsonSerializer.Array | src/json/json_serialize.rs:50-63 | `array` appends the array layout |
| JsonSerialize.JsonSerializer.F64 | src/json/json_serialize.rs:65-67 | `f64` appends the number's text |
| JsonSerialize.JsonSerializer.I64 | src/json/json_serialize.rs:69-71 | `i64` appends the integer's decimal text |
| JsonSerialize.JsonSerializer.Bool | src/json/json_serialize.rs:73-79 | `bool` appends `true` or `false` |
| JsonSerialize.JsonSerializer.String | src/json/json_serialize.rs:81-85 | `string` appends its argument between quotes, unescaped |
| JsonSerialize.JsonSerializer.Done | src/json/json_serialize.rs:87-89 | `done` returns the buffer |
| JsonSerialize.SerializeValue | src/json/json_serialize.rs:92-110 | serializing a `Value` appends its layout with `Null` as the quoted `"null"` |
| JsonSerialize.ToJsonString | src/json/json_serialize.rs:112-116 | `to_json_string` is exactly the layout at indentation 0 |
| SerializeTrait.SerializeStr | src/serialize_trait.rs:21-25 | a `&str` makes one `string` call with itself; `ValueSerialize.RebuildInverts` reads these calls back |
| SerializeTrait.SerializeI64 | src/serialize_trait.rs:27-32 | an `i64` makes one `i64` call with itself; no `Value` makes this call (`ValueSerialize.ValueCall`), and `Rebuild` reads it as `Null` |
| SerializeTrait.SerializeF64 | src/serialize_trait.rs:34-39 | an `f64` makes one `f64` call with itself; `ValueSerialize.RebuildInverts` reads these calls back |
| SerializeTrait.SerializeBool | src/serialize_trait.rs:41-46 | a `bool` makes one `bool` call with itself; `ValueSerialize.RebuildInverts` reads these calls back |
| SerializeTrait.SerializeSlice | src/serialize_trait.rs:55-60 | a slice makes one `array` call over its elements, one per element in order |
| SerializeTrait.SliceOrder | src/serialize_trait.rs:55-60 | the array call of a concatenation is the concatenation of the array calls |
| SerializeTrait.SerializeMap | src/serialize_trait.rs:62-74 | a map makes one `object` call with the map's keys, each with its value serialized |
| SerializeTrait.MapMembersAreEntries | src/serialize_trait.rs:62-74 | as a map, the object call's members are the map's entries with their values serialized |
| ValueSerialize.ValueCall | src/json/value.rs:52-64 | `Serialize for Value` makes exactly one call: an object call exactly for an object, keeping its keys in order, an array call exactly for an array, with one value per element, and never an `i64` call; its partner `RebuildInverts` reads the call back as the value |
| ValueSerialize.ValueDelegates | src/json/value.rs:55-56 | an object value serializes as its map does, an array value as its slice does |
| ValueSerialize.RebuildInverts | src/json/value.rs:52-64 | the call a `Null`-free value makes determines the value |
| ValueSerialize.NullCollides | src/json/value.rs:60-61 | `Null` makes the same call as the string `"null"` |
| DeserializeTrait.StringOf | src/deserialize_trait.rs:48-53 | `string` is some text exactly for a string |
| DeserializeTrait.NumberOf | src/deserialize_trait.rs:55-60 | `number` is some number exactly for a number |
| DeserializeTrait.ObjectOf | src/deserialize_trait.rs:62-67 | `object` is some object deserializer exactly for an object |
| DeserializeTrait.BooleanOf | src/deserialize_trait.rs:69-74 | `boolean` is some flag exactly for a bool |
| DeserializeTrait.ProjectionsAreExclusive | src/deserialize_trait.rs:39-45 | exactly one projection answers for each kind except `Null`, for which none does |
| Protocol.EventCursor.String | src/deserialize_trait.rs:3-8 | `string` reads a string event; any read moves on, and a failed one leaves the deserializer invalid for good |
| Protocol.EventCursor.I64 | src/deserialize_trait.rs:3-10 | `i64` reads an integer event; failure is sticky |
| Protocol.EventCursor.BeginObject | src/deserialize_trait.rs:14 | `begin_object` succeeds exactly on an object start |
| Protocol.EventCursor.Any | src/thing.rs:20 | `any` reports the kind of the next value with a scalar's payload |
| Protocol.EventCursor.HasProperty | src/thing.rs:23 | `has_property` gives the next property name, nothing at the end of the object |
| Protocol.EventCursor.HasArrayValue | src/thing.rs:30 | `has_array_value` is true exactly before another element |
| ThingCodec.Deserialize | src/thing.rs:18-41 | `deserialize` returns what `Read` describes and leaves the cursor where `Read` ends; a failure leaves the cursor invalid |
| ThingCodec.ReadTrace | src/thing.rs:43-66 | reading the trace of a tree, wherever it stands in a stream, rebuilds the tree and consumes exactly the trace |
| ThingCodec.Trace | src/thing.rs:43-66 | the event stream `serialize` emits is never empty; its partner `RoundTrip` proves that reading it back gives the same `Thing` for every map-shaped tree |
| ThingCodec.RoundTrip | src/thing.rs:18-66 | deserializing what `serialize` emitted gives back the same `Thing` |
| ThingCodec.ReadMembersNext | src/thing.rs:23-25 | each property inserts its deserialized value under its name |
| ThingCodec.ReadMembersEnd | src/thing.rs:23-26 | the end of the properties closes the object with what was read |
| ThingCodec.ReadElementsNext | src/thing.rs:30-32 | each element is appended in order |
| ThingCodec.ReadElementsEnd | src/thing.rs:30-33 | the end of the elements closes the array with what was read |
| ThingCodec.RepeatedNameKeepsLast | src/thing.rs:23-25 | a repeated property name keeps the last value |
| ThingCodec.MissingValueFails | src/thing.rs:24 | a failed nested read makes the whole result nothing |
| PersonCodec.Deserialize | examples/custom_serialize_deserialize.rs:17-44 | `deserialize` returns what `Read` describes; on success the cursor stands right after the two properties the loop read |
| PersonCodec.Trace | examples/custom_serialize_deserialize.rs:8-15 | the six events `serialize` emits form one object, and the two passes of the reading loop take back exactly the name and the age, ending before `end_object`; its partner `RoundTrip` reads them back wherever they stand in the stream |
| PersonCodec.RoundTrip | examples/custom_serialize_deserialize.rs:8-44 | deserializing what `serialize` emitted gives back the same person |
| PersonCodec.EitherOrder | examples/custom_serialize_deserialize.rs:23-37 | the two properties may come in either order |
| PersonCodec.LastPassSetsOneField | examples/custom_serialize_deserialize.rs:23-37 | one pass of the loop sets at most one field |
| PersonCodec.UnknownPropertyFails | examples/custom_serialize_deserialize.rs:34-42 | an unknown first property leaves a required field unset, so the result is nothing |
| PersonCodec.RepeatedNameFails | examples/custom_serialize_deserialize.rs:28-42 | a repeated `name` overwrites the first and leaves `age` unset |
| PersonCodec.WrongTypeFails | examples/custom_serialize_deserialize.rs:31-33 | an `age` that is not an integer fails |
| Derive.LifetimesAndGenerics | kserde_derive_impl/src/lib.rs:6-15 | the generics text is each quoted lifetime and then each generic type, each followed by a comma |
| Derive.SerializeImpl | kserde_derive_impl/src/lib.rs:3-45 | for every struct with named fields, whatever its field types, the generated `Serialize` impl is exactly the template with one property line per field |
| Derive.FieldLines | kserde_derive_impl/src/lib.rs:67-87 | the declaration, match arm and assignment written for one field, with the `Option` branch |
| Derive.DeserializeImpl | kserde_derive_impl/src/lib.rs:47-119 | the generated `Deserialize` impl is exactly the template with one declaration, one arm and one assignment per field |
| Derive.GenericsSplit | kserde_derive_impl/src/lib.rs:50-59 | the generics text splits back into the quoted lifetimes followed by the generic types, in order |
| Derive.PropertyLinesSplit | kserde_derive_impl/src/lib.rs:17-39 | the serializer body has exactly one `property` line per field, in field order |
| Derive.DeserializeLinesSplit | kserde_derive_impl/src/lib.rs:61-112 | the declarations, arms and assignments each have exactly one line per field, in field order |
| Derive.OptionFieldReadsInner | kserde_derive_impl/src/lib.rs:70-86 | an `Option<T>` field is declared and read like a plain `T` field but passed on without `?`, while a plain field is unwrapped with `?` |
| Derive.PanickingTypes | kserde_derive_impl/src/lib.rs:70-77 | the slice of an `Option`-prefixed type fails for types shorter than eight characters or with a non-ASCII character at index 6 or at the end, and only the deserialize generator is affected |
| Derive.OptionIsAPrefixTest | kserde_derive_impl/src/lib.rs:70-77 | a type merely starting with `Option` is taken for one and its inner type cut by position |
| RoundTrip.ParseLayout | src/from_str.rs:306-312 | `from_str` of the text either encoder writes for a plain tree within the call limit gives that tree back |
| RoundTrip.ReadLayout | src/from_str.rs:252-303 | wherever a plain tree's layout stands in the source, `parse_value` reads the tree, stops right after the layout and counts one call per node |
| RoundTrip.ReadMembers | src/from_str.rs:97-129 | over laid-out entries whose values read back, the member loop rebuilds the member list and stops after the closing brace |
| RoundTrip.ReadElements | src/from_str.rs:131-153 | over laid-out elements that read back, the element loop rebuilds the element list and stops after the closing bracket |
| RoundTrip.ObjectEnd | src/from_str.rs:100-108 | a line break, the indentation and `}` end the member loop with the members read so far |
| RoundTrip.MemberParse | src/from_str.rs:114-126 | at an entry's separator the loop reaches the key, reads it, the colon and the value, and goes on with the member inserted |
| RoundTrip.QuotedAt | src/from_str.rs:22-95 | a quoted text without quote or backslash is read back as itself, ending after its closing quote |
| RoundTrip.SkipSpaces | src/from_str.rs:16-20 | a run of indentation spaces is skipped as a whole |
| RoundTrip.EntryAt | src/to_string.rs:13-18 | in an entry the parser skips the indentation, reads the key, finds the colon and reaches the value after one space |
| RoundTrip.ObjectTail | src/to_string.rs:9-30 | a non-empty object's layout is `{`, a line break, the entries separated by `,\n`, and the closing line |
| RoundTrip.ArrayTail | src/to_string.rs:31-42 | an array's layout is `[`, the elements separated by `, `, and `]` |
| RoundTrip.FirstChar | src/to_string.rs:7-54 | a plain tree's layout starts with `"`, `t`, `{` or `[`, so never with whitespace, a comma or a closing bracket |

## Left out

- Floating point: the value `parse_number` computes (`*10`, division by `position`, `powf`) and the text of an `f64` are not modelled. A number is its literal text, and the encoders take float-to-text as a parameter.
- `Cow` borrowing and lifetimes are not modelled. The source is a sequence of chars, not bytes. A `\u` slice that does not lie on char boundaries makes the source fail, and the model fails on the same inputs: `HexQuad` rejects any non-ASCII character, and `UnicodeEscape` tests whether the character after the two skipped ones is ASCII.
- Rust's `is_whitespace` is a predicate over the Unicode `White_Space` characters.
- `HashMap` iteration order and hashing are not modelled. Objects are entry lists, and the encoders and `Thing::serialize` follow list order.
- JsonSerialize.JsonSerializer.Map: indentation is an unbounded `nat`, so the `u16` overflow of `indentation += 4` at a nesting depth of 16384 is not modelled.
- ToString.EncodeValue: the same unbounded indentation replaces the `u16` `indentation + 4`.
- `JSONDeserializer` and `Thing::from_json` are not part of this model. `Protocol.EventCursor` stands for a deserializer that faithfully replays a recorded stream.
- The trait revisions of the files do not fit together. Each file is modelled against the interface it calls.
- `end_object` of the object deserializer is not modelled.
- The `kreflect` input and `Type::as_string` are not part of this model. Field types are given strings.
- Derive.SerializeImpl: the generated code is modelled as text only; its compilation and behaviour are not. Tuple structs, unit structs and enums reach `todo!()` and are excluded by the precondition.
- Derive.DeserializeImpl: the same holds. The precondition also excludes the panic of the byte slice `[7..len - 1]` (lib.rs:73-76) on an `Option`-prefixed type: one shorter than eight characters such as `Options`, or one whose character at index 6 or whose last character is not ASCII. On the types it admits, the model's character slice equals the byte slice.
- Some inline code is written as helper methods with their own contracts:
  - `EncodeObject` and `EncodeArray` from `encode_value`;
  - `ReadEscape`, `ReadUnsigned`, `ReadFraction`, `ReadExponent`, `ParseMember`, `SkipDigits` and `Advance` from the parser;
  - `FieldLines` and `LifetimesAndGenerics` from the derive generator.
- `src/json/value.rs` repeats the `Value` type and accessors of `src/lib.rs`, and they are modelled once.
- PersonCodec.Deserialize: states that an earlier failure stays recorded, not which of its own reads set the flag.
- The `main` functions, the test suite and the other example programs are not modelled. They are file I/O and printing.
