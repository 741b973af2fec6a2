# io-self in Dafny

io-self is a Rust library for binary formats: a value of a type implementing `ReadSelf` reads itself
from a byte stream, and one implementing `WriteSelf` writes itself to one. The library supplies the
implementations for bytes, markers, pointers, arrays, tuples, padding and alignment, the runtime
helpers that derived code calls, and position-counting stream wrappers. A companion crate,
`io_self_derive`, generates the implementations for user structs and enums from `#[io_self(...)]`
attributes: the byte order, the tag type of an enum, the length prefix of a collection field or of a
whole enum variant (a "frame"), and a custom write function for a field.

The project models this as follows.

- **Attributes** (`Attr`): parsing `endian`, `tag` and `length_prefix` options, field endian
  inheritance, and the choice between the plain trait and the byte-order trait.
- **Byte orders** (`ByteOrder`, `Primitives`, `Conversion`): little- and big-endian integers of 1 to
  16 bytes, signed and unsigned, and the checked conversions the generated code performs.
- **Layouts** (`Schema`): a description `Desc` of what a derived type is made of, and a `Value`
  shape for its values.
- **Generated code** (`Decoder`, `Encoder`): the read and write code the derive emits for a layout,
  written as one interpreter over `Desc`. Reading works on a `Cursor` (the bytes left and the stream
  position); writing produces the bytes, or an error, from a position.
- **Properties** (`Decoded`, `RoundTrip`, `Mirror`): what reading produces conforms to the layout,
  for every layout the read side inverts the write side, reading back what it wrote and leaving the
  rest of the stream untouched, and deriving a type with the other byte order changes no lengths.
- **Runtime helpers** (`Collector`, `Runtime`, `Dispatch`, `Grammar`, `Overflow`, `Positional`):
  classes and loop methods, proved against the pure functions that specify them. `Dispatch` shows
  that the interpreter's collection and array steps are these loops' specifications.
- **Examples** (`Scenarios`, `FramedScenario`, `EndianFinding`): concrete types from the derive's
  test files, with their exact bytes.

The derive crate contains two generators. `io_self_derive/src/lib.rs` declares only `mod attr`
(line 9). So the generator that is compiled is the one inside `lib.rs`, and `read.rs`, `write.rs`
and `util.rs` are not compiled. The model keeps both through a `Generator` parameter:

- `Legacy` is the generator in `lib.rs`.
- `Current` is `read.rs`/`write.rs` as written. These honour a field's own `endian` on the read side
  and its `write_fn`, `length_prefix` and placeholder `write_fn` scheme on the write side.
- `Amended` is `Current` with the field's byte order honoured on the write side as well (see
  ## Findings).

Other modelling choices:

- `usize` is 64 bits wide.
- In `src/grammar.rs` the `WriteSelf` impls of `Padding` and `PadToAlign` name their method
  `write_self`, not `write_to`. The model takes them to be the trait's `write_to`.
- Nested derived types (a struct or enum inside a field) are read and written through their own
  `ReadSelf`/`WriteSelf` impl, so the container's byte order does not reach inside them. This is
  what the blanket impls of `src/derive_util.rs` do.

## Model

| member | source | states |
|---|---|---|
| Io.ReadExact | io_self_derive/src/lib.rs:128-129 | `read_exact` of `n` bytes succeeds exactly when `n` bytes remain; it returns those bytes and moves the cursor past them, and otherwise fails with `UnexpectedEof` |
| Io.ReadExactOfPrefix | src/grammar.rs:37-38 | reading `n` bytes from a stream beginning with those `n` bytes returns them and leaves the rest |
| Io.Source.Read | src/grammar.rs:38 | a stream read takes the next `n` bytes and advances the position by `n`, or fails with nothing consumed |
| Io.Sink.WriteAll | src/grammar.rs:50 | `write_all` appends the bytes and advances the position by their count |
| ByteOrder.SignedRoundTrip | src/derive_util.rs:112-121 | reinterpreting a signed value as unsigned two's-complement and back is the identity on the type's range |
| ByteOrder.UnsignedRoundTrip | src/derive_util.rs:112-121 | reinterpreting an unsigned pattern as signed and back is the identity on the bit patterns |
| ByteOrder.ToUnsigned | src/derive_util.rs:117-120 | the bit pattern of a signed value of kind k: the value itself when non-negative, the value plus 2^(8·Width(k)) when negative, always below that modulus |
| ByteOrder.FromUnsigned | src/derive_util.rs:117-120 | the value of kind k with a given bit pattern: patterns above the signed maximum are negative, and the result is always in k's range |
| ByteOrder.LeBytes | src/derive_util.rs:100-105 | `byteorder`'s `LittleEndian` encoding: `w` bytes, least significant first |
| ByteOrder.LeValue | src/derive_util.rs:93-98 | `LittleEndian` decoding: the first byte is the least significant, and the value is below 256^n for n bytes |
| ByteOrder.BeBytes | src/derive_util.rs:100-105 | `byteorder`'s `BigEndian` encoding: `w` bytes, most significant first |
| ByteOrder.BeValue | src/derive_util.rs:93-98 | `BigEndian` decoding: the last byte is the least significant, and the value is below 256^n for n bytes |
| ByteOrder.LeRoundTrip | src/derive_util.rs:91-106 | the little-endian bytes of a value below 256^n decode back to that value |
| ByteOrder.LeCanonical | src/derive_util.rs:91-106 | encoding the value of any n little-endian bytes gives back those bytes |
| ByteOrder.BeRoundTrip | src/derive_util.rs:91-106 | the big-endian bytes of a value below 256^n decode back to that value |
| ByteOrder.BeCanonical | src/derive_util.rs:91-106 | encoding the value of any n big-endian bytes gives back those bytes |
| ByteOrder.BigIsReversedLittle | src/derive_util.rs:91-106 | big-endian bytes are the little-endian bytes reversed |
| ByteOrder.EncodeInt | src/derive_util.rs:100-105 | an integer of kind k is written as exactly Width(k) bytes |
| ByteOrder.DecodeInt | src/derive_util.rs:93-98 | Width(k) bytes decode to a value in the range of k |
| ByteOrder.IntRoundTrip | src/derive_util.rs:112-121 | for every integer kind and byte order, decoding the encoding of an in-range value gives the value back |
| ByteOrder.IntCanonical | src/derive_util.rs:112-121 | for every kind and order, encoding the decoding of Width(k) bytes gives the bytes back |
| ByteOrder.EndianMirror | src/derive_util.rs:112-121 | a value's big-endian encoding is its little-endian encoding reversed |
| Mirror.WritableMirror | io_self_derive/src/lib.rs:150-180 | a type reached through the generator or a byte-order trait has a write impl under one byte order exactly when it has one under the other |
| Mirror.FieldWritableMirror | io_self_derive/src/lib.rs:206-239 | a field of a container with a byte order derives under one order exactly when it derives under the other |
| Mirror.DeriveWritableMirror | io_self_derive/src/lib.rs:241-296 | a struct or enum derives a write impl with `endian = "little"` exactly when it derives one with `endian = "big"` |
| Mirror.WriteMirror | io_self_derive/src/lib.rs:150-180 | under either byte order a value reached through the generator or a trait writes as many bytes, or fails with the same error |
| Mirror.RepeatMirror | src/lib.rs:215-223 | a run of values writes as many bytes under either order, or fails with the same error |
| Mirror.ListMirror | io_self_derive/src/lib.rs:159-165 | the components of a tuple write as many bytes under either order, or fail alike |
| Mirror.PrefixedMirror | src/derive_util.rs:38-78 | a length-prefixed collection writes as many bytes under either order, or fails alike |
| Mirror.FieldMirror | io_self_derive/src/write.rs:75-104 | one field writes as many bytes under either container order, or fails alike |
| Mirror.FieldsMirror | io_self_derive/src/lib.rs:206-239 | a field list writes as many bytes under either container order, or fails alike |
| Mirror.TaggedMirror | io_self_derive/src/lib.rs:254-269 | an enum's tag and variant write as many bytes under either order, or fail alike |
| Mirror.EnumMirror | io_self_derive/src/lib.rs:271-292 | an enum, framed or not, writes as many bytes under either order, or fails alike |
| Mirror.DeriveMirror | io_self_derive/src/lib.rs:241-296 | a struct or enum derived with either byte order accepts the same values and writes each in as many bytes, or fails with the same error |
| Attr.ToAsciiLower | io_self_derive/src/attr.rs:23-29 | lower-casing keeps the length and lower-cases every ASCII capital and no other character |
| Attr.LowerIdempotent | io_self_derive/src/attr.rs:23-29 | lower-casing twice is lower-casing once |
| Attr.Endianness | io_self_derive/src/attr.rs:23-29 | an absent option means no byte order; an option is little exactly when it lower-cases to `little`, `le` or `l`, and big exactly when it lower-cases to `big`, `be` or `b`; any other option panics |
| Attr.EndiannessIgnoresCase | io_self_derive/src/attr.rs:23-29 | the endian option is case-insensitive |
| Attr.TraitUsage | io_self_derive/src/attr.rs:31-48 | no byte order selects the plain trait; a byte order selects the byte-order trait with that order |
| Attr.InheritEndian | io_self_derive/src/attr.rs:128-132 | a field's own option wins, and a field without one takes the container's |
| Attr.InheritIdempotent | io_self_derive/src/attr.rs:128-132 | inheriting a second time changes nothing |
| Attr.ParseCommutesWithInherit | io_self_derive/src/attr.rs:140-146 | parsing the inherited text gives the inheritance of the parsed byte orders |
| Attr.TypeNameParses | io_self_derive/src/attr.rs:17-21 | every integer type's name parses back to that type |
| Attr.TypeOption | io_self_derive/src/attr.rs:50-53 | `tag`/`length_prefix` yields no type exactly when the option is absent; a present option parses as a type name |
| Attr.ResolveOpts | io_self_derive/src/lib.rs:106-109 | an unknown byte order panics; a struct is accepted exactly when its byte order parses, with no tag and no prefix; an enum is accepted exactly when its byte order, a present `tag` and its `length_prefix` all parse, and then carries that tag type and that prefix type; an enum without `tag` panics |
| Attr.FieldOpts.constructor | io_self_derive/src/attr.rs:85-90 | field options start as written on the field |
| Attr.FieldOpts.WithEndian | io_self_derive/src/attr.rs:128-132 | `with_endian` sets the field's endian to the inherited one and changes nothing else |
| Attr.FieldOpts.FieldEndianness | io_self_derive/src/attr.rs:140-146 | a field's byte order is its (inherited) option parsed like the container's |
| Attr.WithEndianTwice | io_self_derive/src/attr.rs:128-132 | applying `with_endian` twice has the effect of applying it once |
| Conversion.TryFrom | io_self_derive/src/lib.rs:327-334 | the checked conversion succeeds exactly when the value fits the target, the value unchanged; otherwise it fails with kind `Other` |
| Conversion.NonNegativeFitsUsize | io_self_derive/src/lib.rs:123-125 | a non-negative prefix of at most eight bytes always converts to `usize` |
| Primitives.ReadInt | src/derive_util.rs:93-98 | reading an integer succeeds exactly when Width(k) bytes remain, gives the in-range value those bytes encode and advances by Width(k); otherwise it fails with `UnexpectedEof` |
| Primitives.WriteInt | src/derive_util.rs:100-105 | writing an integer gives Width(k) bytes that decode back to it |
| Primitives.SingleByteIgnoresOrder | src/lib.rs:38-50 | `u8`/`i8` bytes are the same whatever byte order is requested |
| Primitives.IntCursorRoundTrip | src/derive_util.rs:112-121 | an integer written in front of any rest reads back, with the cursor just past it |
| Primitives.ByteReadConsumesOne | src/lib.rs:38-50 | a byte read takes exactly one byte |
| Grammar.ConsumeBytes | src/grammar.rs:33-43 | consuming `len` bytes succeeds exactly when `len` bytes remain and drops exactly those (otherwise `UnexpectedEof`); reads are in chunks of at most 512 bytes that add up to `len` |
| Grammar.FillConcat | src/grammar.rs:45-55 | two runs of the same padding byte make one run of the summed length |
| Grammar.WritePadding | src/grammar.rs:45-55 | `len` copies of the byte are appended, in chunks of at most 512 that add up to `len` |
| Grammar.PaddingFor | src/grammar.rs:99-110 | an alignment below 2 needs no padding; otherwise the padding is below the alignment, reaches an aligned position, and no smaller padding does |
| Grammar.PaddingMinimal | src/grammar.rs:104-109 | off an aligned position, `N - position % N` aligns and nothing smaller does |
| Grammar.AlignedNeedsNoPadding | src/grammar.rs:104-106 | an aligned position needs no padding |
| Grammar.PaddingIdempotent | src/grammar.rs:90-94 | after padding, no further padding is needed |
| Schema.ApproachesAgree | io_self_derive/src/write.rs:143-146 | under the current generator the read and write approaches of a field agree exactly when the field has no byte order of its own or the container's; under the others they always agree |
| Schema.ReadApproach | io_self_derive/src/read.rs:54-57 | the trait a field is read with: the container's byte order under the wired generator (`lib.rs:80-97`), the field's own order, else the container's, under the field-aware one |
| Schema.WriteApproach | io_self_derive/src/write.rs:140-145 | the trait a field is written with: the container's byte order (`opts.trait_usage(false)`) under both generators as written, and the field's own, else the container's, when amended |
| Schema.Readable | io_self_derive/src/read.rs:10-47 | the read code generated for a type compiles: integers wider than a byte only through a byte-order trait, no bare collection without a prefix, tuples of 0 or 2 to 14 components, enums whose tag and frame types have impls and whose tags fit the tag type |
| Schema.Writable | io_self_derive/src/write.rs:75-104 | the write code generated for a type compiles: the same impl conditions as reading, enough placeholder names for unnamed variant fields, and every unrolled `write_to` handed a reference (see `Schema.Placed`) |
| Schema.Placed | io_self_derive/src/write.rs:86-102 | an unrolled part is handed to `write_to` by reference: tuple components of `&self.f` are borrows, tuple components of a placeholder or of an array loop's `item` are values, and a loop over a borrow or binding yields references |
| Schema.Invertible | io_self_derive/src/write.rs:140-146 | decoding an encoding can give the value back: every enum has distinct tags, and every field of the field-aware generator has no `write_fn` and the same approach on both sides |
| Schema.FirstVariant | io_self_derive/src/read.rs:93-101 | a tag match selects the first variant with that tag, and finds none exactly when no variant has it |
| Schema.FirstVariantOfDistinct | io_self_derive/src/read.rs:93-101 | with distinct tags, a variant's own tag selects that variant |
| Decoder.Read | io_self_derive/src/lib.rs:40-78 | a read dispatches on how the type is reached: unrolled by the generator, through the approach's trait, or through the type's own `ReadSelf` |
| Decoder.ReadGen | io_self_derive/src/read.rs:23-47 | `read_for_type`: an array reads its N elements and a tuple its components, with the same approach; any other type is read through the approach's trait |
| Decoder.ReadTrait | src/derive_util.rs:13-18 | `<T as ReadSelfEndian<O>>::read_from`: a multi-byte integer reads its bytes in order O (`derive_util.rs:93-98`); any other type uses its own `ReadSelf`, whatever O is |
| Decoder.ReadOwn | src/lib.rs:38-136 | the runtime crate's `ReadSelf` impls (bytes, markers, pointers, arrays, tuples), the padding impls of `grammar.rs`, and the derived impls of structs and enums with their own options |
| Decoder.ReadEnum | io_self_derive/src/lib.rs:106-148 | an unframed enum reads the tagged body from the stream; a framed one reads a count with the container's approach, converts it to `usize`, takes exactly that many bytes and reads the tagged body from them alone, from position 0, leaving the stream after the frame |
| Decoder.ReadList | io_self_derive/src/read.rs:42-45 | tuple components are read left to right, each from where the previous one ended; the first error ends the read |
| Decoder.ReadRepeat | src/lib.rs:87-100 | `n` values of one type are read one after the other; the first error ends the read |
| Decoder.ReadFields | io_self_derive/src/read.rs:50-77 | the fields of a struct or variant are read in declaration order |
| Decoder.ReadField | io_self_derive/src/read.rs:53-57 | a field is read with its approach; under the field-aware generator a length prefix takes priority over the field's shape |
| Decoder.ReadPrefixed | io_self_derive/src/read.rs:11-20 | a prefixed collection reads the count with the field's approach, converts it to `usize` (`Other` when it does not fit), then reads that many elements through the approach's trait |
| Decoder.ReadTagged | io_self_derive/src/read.rs:91-124 | the tag is read with the container's approach, then the fields of the first variant whose literal equals it; no match is `InvalidData` carrying the tag |
| Decoder.FromBytes | src/lib.rs:22-25 | `from_bytes` reads one value from a stream over the bytes that starts at position 0; what follows the value is not inspected |
| Decoder.ReadExactFrom | src/lib.rs:27-35 | `read_exact_from` reads `count` values one after the other; the first error ends the read |
| Decoder.PointerTransparent | src/lib.rs:66-85 | `Box`/`Rc`/`Arc` read exactly as their contents |
| Decoder.MarkersReadNothing | src/lib.rs:52-64 | `PhantomData` and `()` read nothing and consume nothing |
| Decoder.PaddingSkipsBytes | src/grammar.rs:113-119 | `Padding<N>` reads succeed exactly when N bytes remain, which are dropped; `PadToAlign` reads succeed exactly when the padding its position calls for remains, which is dropped, and otherwise fail with `UnexpectedEof` |
| Decoder.UnknownTagRejected | io_self_derive/src/lib.rs:138-145 | an unframed enum whose tag matches no variant fails with `InvalidData` carrying the tag |
| Decoder.FramedUnknownTagRejected | io_self_derive/src/lib.rs:123-137 | a framed enum whose count converts, whose frame is read, and whose frame begins with a tag that matches no variant fails with `InvalidData` carrying the tag |
| Decoder.FramedDecode | io_self_derive/src/lib.rs:123-137 | a framed enum reads the byte count, then exactly that many bytes, and decodes the variant from those bytes as a stream of its own starting at 0; the outer stream ends up right after the frame |
| Decoder.FrameReadsBack | io_self_derive/src/lib.rs:123-129 | the written frame header and frame read back as the frame's length and bytes |
| Decoder.FramedReadSteps | io_self_derive/src/lib.rs:123-137 | a framed read is the prefix read, the conversion to `usize`, `read_exact`, then the variant read inside the frame |
| Decoder.FramedEofInsideFrame | io_self_derive/src/lib.rs:127-133 | a frame shorter than the tag fails with `UnexpectedEof` even when the outer stream has more bytes |
| Decoder.ShortTagIsEof | io_self_derive/src/lib.rs:112 | a stream shorter than the tag fails with `UnexpectedEof` |
| Decoded.ReadConforms | io_self_derive/src/lib.rs:40-78 | whatever a successful read produces conforms to the layout that was read |
| Decoded.ReadEnumConforms | io_self_derive/src/lib.rs:99-148 | a decoded enum value names a declared variant and holds values for its fields |
| Decoded.ReadRepeatConforms | src/lib.rs:87-100 | an array read produces exactly N conforming values |
| Decoded.ReadPrefixedConforms | src/derive_util.rs:23-33 | a prefixed collection read produces as many conforming values as the prefix said |
| Decoded.FromBytesConforms | src/lib.rs:22-25 | `from_bytes` produces a conforming value |
| Decoded.ReadExactFromConforms | src/lib.rs:27-35 | `read_exact_from` produces exactly `count` conforming values |
| Encoder.Write | io_self_derive/src/lib.rs:150-180 | a write dispatches on how the type is reached: unrolled by the generator, through the approach's trait, or through the type's own `WriteSelf` |
| Encoder.WriteGen | io_self_derive/src/write.rs:86-103 | `write_for_type`: an array writes its elements in a loop and a tuple its components, with the same approach; any other type is written through the approach's trait |
| Encoder.WriteTrait | src/derive_util.rs:84-89 | `<T as WriteSelfEndian<O>>::write_to`: a multi-byte integer writes its bytes in order O (`derive_util.rs:100-105`); any other type uses its own `WriteSelf` |
| Encoder.WriteOwn | src/lib.rs:166-223 | the runtime crate's `WriteSelf` impls (bytes, markers, pointers, arrays, tuples), the padding impls of `grammar.rs`, and the derived impls of structs and enums |
| Encoder.WriteEnum | io_self_derive/src/write.rs:25-70 | an unframed enum writes the tagged body at the stream position; a framed one writes it to a fresh buffer from position 0, converts its length to the prefix type (`Other` when it does not fit) and writes that count before the buffer's bytes |
| Encoder.WriteList | io_self_derive/src/write.rs:94-101 | tuple components are written left to right, each at the position the previous one reached; the first error ends the write |
| Encoder.WriteRepeat | src/lib.rs:215-223 | values of one type are written one after the other; the first error ends the write |
| Encoder.WriteFields | io_self_derive/src/write.rs:124-171 | the fields of a struct or variant are written in declaration order |
| Encoder.WriteField | io_self_derive/src/write.rs:140-146 | a field is written by its `write_fn` when it has one, else behind its length prefix when it has one, else by `write_for_type` with the write approach; the wired generator has neither option |
| Encoder.WritePrefixed | io_self_derive/src/write.rs:76-84 | `write_with_prefix` with the approach's writers: the element count converted to the prefix type (`Other` when it does not fit), then every element through the approach's trait |
| Encoder.WriteTagged | io_self_derive/src/write.rs:30-46 | the value's variant's tag literal, written with the container's approach, then that variant's fields |
| RoundTrip.ValueRoundTrip | io_self_derive/src/lib.rs:297-325 | for every invertible, readable, writable layout and conforming value, writing at position `pos` and reading those bytes followed by any rest gives the value back and leaves exactly the rest, at `pos` plus the bytes written |
| RoundTrip.GenRoundTrip | io_self_derive/src/lib.rs:40-78 | the generated read of a field type inverts its generated write |
| RoundTrip.GenArrayRoundTrip | io_self_derive/src/lib.rs:42-59 | arrays written element by element read back element by element |
| RoundTrip.GenTupleRoundTrip | io_self_derive/src/lib.rs:60-63 | tuples written component by component read back |
| RoundTrip.TraitRoundTrip | src/derive_util.rs:84-89 | a type used through the byte-order trait reads back what it wrote |
| RoundTrip.TraitIntRoundTrip | src/derive_util.rs:91-106 | an integer through the byte-order trait reads back in the same order |
| RoundTrip.TraitOwnRoundTrip | src/derive_util.rs:13-18 | a non-integer through the byte-order trait uses its own impl and reads back |
| RoundTrip.OwnRoundTrip | src/lib.rs:38-223 | every type's own `ReadSelf` inverts its own `WriteSelf` |
| RoundTrip.MarkerRoundTrip | src/lib.rs:180-192 | markers and padding write what their reads consume |
| RoundTrip.OwnPointerRoundTrip | src/lib.rs:194-213 | `Box`/`Rc`/`Arc` round-trip as their contents |
| RoundTrip.OwnArrayRoundTrip | src/lib.rs:215-223 | `[T; N]` round-trips |
| RoundTrip.OwnTupleRoundTrip | src/lib.rs:103-136 | tuples of 0 and 2 to 14 components round-trip |
| RoundTrip.OwnStructRoundTrip | io_self_derive/src/lib.rs:101-104 | a derived struct round-trips field by field |
| RoundTrip.UnframedRoundTrip | io_self_derive/src/lib.rs:290-292 | an unframed enum round-trips: the tag, then the variant's fields |
| RoundTrip.FramedRoundTrip | io_self_derive/src/lib.rs:271-289 | a framed enum round-trips: the count and the frame read back, and the frame decodes to the value |
| RoundTrip.TaggedRoundTrip | io_self_derive/src/lib.rs:254-269 | a tag and variant written read back as that variant |
| RoundTrip.ListRoundTrip | io_self_derive/src/lib.rs:60-63 | a heterogeneous list of components round-trips |
| RoundTrip.RepeatRoundTrip | src/lib.rs:87-100 | n values of one type round-trip |
| RoundTrip.FieldsRoundTrip | io_self_derive/src/lib.rs:80-97 | a field list round-trips |
| RoundTrip.FieldRoundTrip | io_self_derive/src/read.rs:50-77 | one field round-trips, with or without a length prefix |
| RoundTrip.FieldPrefixRoundTrip | io_self_derive/src/write.rs:76-84 | a length-prefixed collection field round-trips: count, then the elements |
| RoundTrip.FieldGenRoundTrip | io_self_derive/src/write.rs:102 | an unprefixed field round-trips through the generated code |
| RoundTrip.PrefixRoundTrip | src/derive_util.rs:38-78 | `write_with_prefix` and `read_with_length` are inverse |
| RoundTrip.FromBytesRoundTrip | src/lib.rs:22-25 | `from_bytes` of a value's bytes gives the value |
| Collector.Aborting | src/helper.rs:151-164 | collecting item results: all the values in order, or the error of the first failed item |
| Collector.ReadWithLength | src/derive_util.rs:23-33 | `read_with_length`: `len` parser calls, each from where the previous one ended, collected into their values or the first error |
| Collector.AbortingCollects | src/helper.rs:151-164 | collecting results succeeds exactly when all succeed, with the values in order; otherwise it gives the first error |
| Collector.TraceShape | src/helper.rs:179-191 | the aborting iterator makes at most n parser calls, all but the last succeed, and fewer than n only after a failure |
| Collector.ReadWithLengthAborts | src/derive_util.rs:23-33 | `read_with_length` is the aborting collection of the parser calls; on success it holds exactly `len` values |
| Collector.ReadWithLengthStep | src/derive_util.rs:23-33 | reading n > 0 items is one item, then n - 1 from where it ended |
| Collector.Parsing.constructor | src/derive_util.rs:28-31 | the iterator starts with `len` calls to make, at the stream's cursor |
| Collector.Parsing.Next | src/derive_util.rs:28-31 | `next` calls the parser once while calls remain, advancing the stream on success |
| Collector.AbortingIter.constructor | src/helper.rs:151-164 | the adapter starts without an error |
| Collector.AbortingIter.Next | src/helper.rs:179-191 | after an error, `next` yields nothing and does not advance; otherwise an error is stored and ends the iteration, and a value is yielded |
| Collector.AbortingFromIter | src/helper.rs:151-164 | the loop returns `read_with_length`'s result and makes exactly the trace's calls |
| Runtime.ReadExactFromSource | src/lib.rs:27-35 | `read_exact_from` leaves the stream and returns what `read_with_length` specifies |
| Runtime.ReadArray | src/lib.rs:87-100 | the array read fills the slots in index order and returns a fresh array of what `read_with_length` specifies |
| Runtime.WriteEach | src/lib.rs:215-223 | writing elements one after the other with one writer, each at the position the previous one reached: all their bytes in order, or the first error |
| Runtime.WriteEachCons | src/lib.rs:215-223 | writing elements is the first element, then the rest from where it ended |
| Runtime.WriteItems | src/derive_util.rs:65-71 | the element loop appends exactly the specified bytes or stops with the first error, and on success counts every element |
| Runtime.WriteArray | src/lib.rs:215-223 | array writes produce the elements' bytes in order, each at the position the previous one reached |
| Runtime.PrefixCount | src/derive_util.rs:56-59 | for an honest size hint the emitted count is the number of items |
| Runtime.WithPrefixUnfold | src/derive_util.rs:38-78 | a prefixed write is the prefix, then the elements from where it ended |
| Runtime.WriteWithPrefix | src/derive_util.rs:38-78 | a count that does not fit the prefix type fails with `Other` and writes nothing; otherwise the sink gets exactly the prefix then the elements, or the first error |
| Runtime.ReadIntoAllShape | src/lib.rs:152-160 | reading into a slice keeps its length; on failure some element and all after it are left untouched |
| Runtime.ReadIntoSlice | src/lib.rs:145-160 | `read_into` on a slice updates each element in order as specified, stopping at the first error |
| Dispatch.ReadRepeatIsReadWithLength | src/lib.rs:87-100 | the interpreter's array read is `read_with_length` with the element read as parser |
| Dispatch.ReadExactFromUsesReadWithLength | src/lib.rs:27-35 | the interpreter's `read_exact_from` is `read_with_length` |
| Dispatch.ReadPrefixedUsesReadWithLength | io_self_derive/src/read.rs:11-20 | a prefixed read converts the count to `usize`, then reads that many by `read_with_length` |
| Dispatch.WriteRepeatIsWriteEach | src/lib.rs:215-223 | the interpreter's array write is the element loop's specification |
| Dispatch.WritePrefixedIsWriteWithPrefix | io_self_derive/src/write.rs:76-84 | the interpreter's prefixed write is `write_with_prefix`'s specification, including its `Other` error |
| Dispatch.WriteArrayIsWriteRepeat | src/lib.rs:215-223 | the loop's specification for arrays is the interpreter's array write |
| Overflow.OverflowBuffer.constructor | src/helper.rs:34-39 | a new buffer holds nothing pending |
| Overflow.OverflowBuffer.TakeOverflow | src/helper.rs:41-54 | hands out min(pending, room) bytes in order and leaves the rest pending; everything handed out resets the buffer |
| Overflow.OverflowBuffer.Read | src/helper.rs:79-81 | reading never fails and hands out the pending bytes; nothing pending gives 0 |
| Overflow.OverflowBuffer.Write | src/helper.rs:88-91 | writing appends everything to the pending bytes and reports the full length |
| Overflow.OverflowBuffer.ForBuffer | src/helper.rs:56-72 | a filled destination is reported filled; otherwise a writer starts right after the handed-out bytes |
| Overflow.OverflowingWriter.Finish | src/helper.rs:111-113 | `ok` reports the bytes placed in the destination |
| Overflow.OverflowingWriter.HasSpace | src/helper.rs:115-117 | there is space exactly while the destination is not full |
| Overflow.OverflowingWriter.Write | src/helper.rs:124-136 | a write puts as much as fits into the destination and the rest into the overflow, reports the full length, and loses no byte |
| Positional.CountedConcat | src/positional.rs:31-37 | counts of consecutive histories add up |
| Positional.FailuresCountNothing | src/positional.rs:31-37 | failed calls add nothing to the count |
| Positional.ReadCounter.constructor | src/positional.rs:22-29 | a new counter is at 0 |
| Positional.ReadCounter.Read | src/positional.rs:31-37 | the inner result is passed on, and the count grows by the bytes read only when the read succeeded |
| Positional.ReadCounter.Position | src/positional.rs:39-43 | the position is the bytes successfully read so far and never fails |
| Positional.WriteCounter.constructor | src/positional.rs:51-58 | a new counter is at 0 |
| Positional.WriteCounter.Write | src/positional.rs:60-65 | the inner result is passed on, and the count grows by the bytes written only when the write succeeded |
| Positional.WriteCounter.Flush | src/positional.rs:67-69 | flushing passes on the inner result |
| Positional.WriteCounter.Position | src/positional.rs:72-76 | the position is the bytes successfully written so far and never fails |
| Scenarios.StructWrite | io_self_derive/src/lib.rs:243-245 | a struct writes its fields one after the other |
| Scenarios.PrefixedFooWrites | io_self_derive/tests/08-prefixed-vec.rs:4-11 | the big-endian `Foo { a: 1, b: vec![9, 9], c: 0 }` writes `00 00 00 01`, `00 02 09 09`, then eight `00` |
| Scenarios.PrefixedFooInvertible | io_self_derive/tests/08-prefixed-vec.rs:4-11 | that struct's layout is invertible |
| Scenarios.PrefixedFooReads | io_self_derive/tests/08-prefixed-vec.rs:4-11 | those 16 bytes read back as the same value, with the stream at 16 |
| Scenarios.TupleFieldWritable | io_self_derive/src/write.rs:94-101 | `struct S { t: (u8, u8) }` derives `WriteSelf`: the components are written from `&self.t.0` and `&self.t.1` |
| Scenarios.TupleInVariantRejected | io_self_derive/src/write.rs:152-154 | `enum E { X((u8, u8)) }` does not derive `WriteSelf`, since the placeholder's component `a.0` is not a reference; it does derive `ReadSelf` |
| Scenarios.ArrayOfTuplesRejected | io_self_derive/src/write.rs:87-92 | `struct S { arr: [(u8, u8); 2] }` does not derive `WriteSelf`, since the loop's `item.0` is not a reference |
| FramedScenario.FramedWrite | io_self_derive/src/lib.rs:271-289 | a framed enum writes the frame's byte count, then the frame written from position 0 |
| FramedScenario.FramedBarWrites | io_self_derive/tests/07-length-prefix.rs:4-11 | the little-endian framed `Foo::Bar(7, -1)` writes `0B 00 00 00 01 07 00` and eight `FF` |
| FramedScenario.FramedBarReads | io_self_derive/tests/07-length-prefix.rs:4-11 | those 15 bytes read back as `Bar(7, -1)` |
| FramedScenario.FramedRead | io_self_derive/src/lib.rs:123-137 | a framed read is the variant decoded from the frame, with the stream after the frame |
| FramedScenario.UnknownTagRejected | io_self_derive/src/lib.rs:135 | a one-byte frame holding the undeclared tag 2 fails with `InvalidData(2)` |
| EndianFinding.MixedEndianMisreads | io_self_derive/src/write.rs:145 | as written, the struct with a little-endian `u16` field in a big-endian container writes 1 as `00 01`, which reads back as 256; the layout is not invertible |
| EndianFinding.MixedEndianAmended | io_self_derive/src/read.rs:57 | with the write side amended, the same struct writes `01 00`, is invertible, and reads back as written |

## Left out

- The `flush` of `OverflowBuffer` and of `OverflowingWriter` does nothing and always succeeds. It is not modelled.
- `SmallVec` storage is modelled as a sequence. Its inline capacity `N` affects only allocation.
- Positional.ReadCounter.Read: the count is an unbounded natural; the `u64` counter of the source would wrap or panic after 2^64 bytes, which is not modelled.
- Positional.WriteCounter.Write: the same unbounded count as the read counter.
- Grammar.ConsumeBytes: on failure the model says nothing about how far the stream went, where the source may have consumed some whole chunks before the failing one.
- The `read_fn` field hook is left out: its reader is arbitrary user code. `write_fn` is kept, as an opaque hook whose output is a parameter of the layout.
- The proc-macro plumbing (token streams, spans, `syn` parsing, `darling` errors) is left out, and so is pushing the trait bound onto generic parameters. These concern how code is produced, not what it does.
- Derive-time panics (a union, an enum without a tag, an unknown endian string, a tag that does not parse) are modelled as the `Derived.Panic` outcome or as the `Readable`/`Writable` preconditions, not as aborts. Generated code that would not compile (a missing impl, or a `write_to` handed a value where it takes a reference) is likewise excluded by the `Readable`/`Writable` preconditions; the compiler's error itself is not modelled.
- Runtime.WriteWithPrefix: requires an honest `size_hint`. With a dishonest one the source panics through `assert_eq!`, which is not modelled.
- The `grammar!` macro is left out: it only generates struct declarations.
- `MaybeUninit` array initialisation is modelled as filling an array slot by slot. Dropping a partly built array is not modelled.
- The `Seek` impl of `PositionAware` is left out: it is the standard library's stream position, for which the model's `Cursor.pos` stands.
- The internals of the `byteorder` crate are left out. Its encodings are written out as `LeBytes`/`BeBytes`.
- `Rc`/`Arc` sharing is not modelled. Pointers are transparent values.
- The `PadToAlign` position is a `u64` and the padding is cast with `as usize`. The model uses natural numbers, so the cast is not modelled.
- After a framed enum's variant is read, the source does not check the bytes left in the frame. The model does not check them either.
- Decoder.ReadEnum: the frame buffer is allocated (`vec![0u8; len]`) before it is read. A declared length above `isize::MAX` panics with a capacity overflow, and a huge one may abort on allocation failure. The model reports `UnexpectedEof` for both when the stream is shorter than the declared length. Decoder.FramedDecode and Decoder.FramedReadSteps inherit this.
- Io.Sink.WriteAll: never fails. A real writer's `write_all` can fail (for example `WriteZero` on a full fixed-size buffer), and every generated write passes that error on with `?`. The model's sink always accepts.
- Io.Source.Read: consumes nothing when it fails. The standard library leaves unspecified how much a failing `read_exact` consumes; its default implementation loops over `read`, so a `ReadCounter` counts the bytes of the partial read, and some `Cursor` versions move to the end. The model leaves the stream where it was.
- Collector.Parsing.Next: a parser that fails reports no stream position, so the model leaves the stream where the failing call began. In the source the parser reads the shared stream, and a composite element (a struct whose second field hits the end of input, say) has already consumed its earlier parts when it fails. Collector.AbortingIter.Next and Collector.AbortingFromIter inherit this: after a failure the model's stream is where the failing element started.
- Encoder.WriteFields: a failing later field (a second length-prefixed field whose count does not fit, or a `write_fn` error) makes the write return only the error, with no bytes. The source has by then already written the earlier fields to the sink. Only a framed variant, which is written to a private buffer first, writes nothing. Encoder.WriteField, Encoder.WriteRepeat and Encoder.WriteList have the same abstraction.
- Mirror.DeriveMirror: states that the two byte orders write the same number of bytes, not which bytes. That each integer is byte-reversed is stated for one integer only (ByteOrder.EndianMirror), not position by position over a whole layout.
- The `ReadIntoSelf` impls of `Padding` and `PadToAlign` consume bytes exactly as their reads do. They are covered only through the read.
- The trybuild test harness is left out: it checks that code compiles, not what it does.
- There is no concurrency and no floating point in the core.

## Findings

| source | as written | input that shows it | evidently intended | confidence | as-written member | corrected member |
|---|---|---|---|---|---|---|
| io_self_derive/src/write.rs:145 | a field's write code uses the container's byte order (`opts.trait_usage(false)`), while `read.rs:57` reads it with the field's own (`field_opts.trait_usage(true)`) | `#[io_self(endian = "big")] struct S { #[io_self(endian = "little")] x: u16 }` with `x = 1` writes `00 01`, which reads back as `x = 256` | the write side honours the field's byte order too, so that what is written reads back | not executed | EndianFinding.MixedEndianMisreads | EndianFinding.MixedEndianAmended |
