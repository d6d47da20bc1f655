# Typed URI literals, syndication mappings and the operation cache of WCF Data Services

This project is a Dafny model of three parts of the WCF Data Services server (OData .NET 5.6.3, the build
without `ODATALIB`). The properties stated here are proved about the model.

- **The typed-literal codec** (`LiteralParser.cs`) turns the literal text of keys, ETags, skip tokens and
  expression constants into typed values:
  - a frozen table maps each supported CLR type to a parser descriptor (optional prefix, optional suffix,
    whether the suffix is required, and a parser kind);
  - a formatting stripper removes the type prefix, then the surrounding quotes, then the type suffix
    (trimming whitespace and ignoring case);
  - a hexadecimal decoder reads `binary'…'` and `X'…'` payloads (Base16, section 8 of RFC 4648, either
    letter case);
  - there are three parsing policies:
    - the default one, which tries every literal as a binary literal first and reads a decoded binary
      literal meant for another type as UTF-8 text, exactly once;
    - one that hands spatial types to the well-known-text parser;
    - one for keys written as path segments, which unescapes a leading `$$` and converts without removing
      any markup;
  - selectors choose the policy for each use.
- **The syndication mapping tables** (`EpmTranslate.cs`):
  - the table from syndication item property to target-path string;
  - the reverse dictionary, which the static constructor builds from that table;
  - the translations between text content kinds and their attribute values.
- **The operation cache** (`OperationCache.cs`) is a dictionary of operation wrappers. Its key is the
  operation name, followed by `_` and the binding type's full name when the operation is bound.

Files and modules:

- `common.dfy`, module `Common`: `Option` and `byte`.
- `web_text.dfy`, module `WebText`:
  - whitespace trimming, ordinal case-insensitive comparison;
  - the prefix, quote and hex-digit helpers the stripper calls.
- `hex_binary.dfy`, module `HexBinary`: the binary payload decoder.
  - The imperative loop `TryConvert` (it fills a new `array<byte>`) is proved equal to the recursive
    specification `HexDecode`.
  - `HexText` is the inverse encoder, used for the round trips.
- `primitive_parsers.dfy`, module `PrimitiveParsers`:
  - the type tags, the descriptors and the `Parsers` table;
  - the formatting stripper: `TryRemoveFormatting` and the other methods rewrite the text step by step,
    as the `ref string` of the source is, and are proved against the functions `RemoveMarkup`,
    `RemoveBinaryMarkup` and `RemoveFormatting`;
  - the literal grammar lemmas;
  - the conversion step over opaque converters.
- `literal_parser.dfy`, module `LiteralParser`: the three policies, the selectors and their properties.
- `epm_translate.dfy`, module `EpmTranslate`: the syndication tables.
  - The static constructor is a loop. It proves that `Dictionary.Add` never meets a duplicate key, and
    that it builds exactly the specified map.
- `operation_cache.dfy`, module `Providers`: the class `OperationCache`.
  - Its field `underlyingCache` is a `map<string, OperationWrapper>`.
  - Its invariant says that every key is the key of the wrapper stored under it.

Foreign code is passed in as values:

- `XmlConvert.*` and `XElement.Parse` become `Converters.xmlConvert`. It returns a value, a
  `FormatException` or another exception.
- `Decimal.TryParse` becomes `Converters.decimalTryParse`.
- `Encoding.UTF8.GetString` becomes `Library.utf8GetString`.
- `WellKnownTextParser.TryParseSpatialLiteral` becomes `Library.wellKnownText`.

Converted values are an opaque type `Datum`. The `bool` result and `out object` of each `TryParseLiteral`
become a `ParseResult`. Its error is one of these:

- `FormatMismatch`: the markup was not found;
- `PayloadMalformed`: a converter's `FormatException`, or a bad hex payload;
- `UnsupportedType`: the type is not a key of `Parsers`, so the lookup throws;
- `UncaughtException`: any other converter exception, which the source does not catch;
- `SpatialRejected`: the well-known-text parser refused the text.

Two behaviours of the code are easy to misread:

- **Keys in segments.** No suffix is removed. `KeysAsSegmentsLiteralParser` calls `TryConvert` directly
  (`LiteralParser.cs:291`). As a result, `"123L"` reaches the Int64 converter with its `L`
  (`LiteralParser.SegmentConvertsVerbatim`), where no suffix rule is applied.
- **Out-of-range numbers.** An `OverflowException` from `XmlConvert` is not caught by
  `DelegatingPrimitiveParser.TryConvert`, which catches only `FormatException`, nor by `ConvertDecimal`.
  It is therefore `UncaughtException`, not a malformed payload.

The cache key `name + "_" + FullName` is not injective across names: `Providers.KeyCollision` shows an
unbound operation `a_b` and an operation `a` bound to type `b` sharing a key. For a fixed binding type the
key determines the name (`Providers.KeyDeterminesName`), and for a fixed name it determines the binding
type's full name (`Providers.KeyDeterminesBindingType`).

Some definitions have no contract of their own, because they are the specification functions that the members of the table state properties about:

- `PrimitiveParsers.RemoveMarkup` (WCFDataService/Service/System/Data/Services/Parsing/LiteralParser.cs:396-423) is the base `TryRemoveFormatting` on values. `PrimitiveTryRemoveFormatting`, `PrefixedMarkup`, `QuotedMarkup`, `PlainMarkup`, `SuffixedMarkupComplete`, `SuffixedMarkupSound`, `MissingSuffix`, `DescriptorRoundTrip` and `DescriptorSound` state its behaviour.
- `PrimitiveParsers.RemoveBinaryMarkup` (WCFDataService/Service/System/Data/Services/Parsing/LiteralParser.cs:687-702) is the binary override on values. `BinaryTryRemoveFormatting` and `BinaryMarkup` state its behaviour.
- `PrimitiveParsers.RemoveFormatting` (WCFDataService/Service/System/Data/Services/Parsing/LiteralParser.cs:396-423, 687-702, 793-797) is the virtual dispatch on values. `TryRemoveFormatting`, `FormattingRoundTrip`, `FormattingSound` and `StringOverrideAgrees` state its behaviour.
- `PrimitiveParsers.ValueOfTypeCanContainQuotes` (WCFDataService/Service/System/Data/Services/Parsing/LiteralParser.cs:433-441) holds for XElement and String. `QuotedMarkup` states what it does to stripping.
- `WebText.EndsWithIgnoreCase` (WCFDataService/Service/System/Data/Services/Parsing/LiteralParser.cs:455) is `EndsWith(suffix, OrdinalIgnoreCase)`. `RemoveLiteralSuffix` and `SuffixRoundTrip` state its use.
- `WebText.IsCharHexDigit` is the assumed `WebConvert.IsCharHexDigit`, `[0-9a-fA-F]`. `HexCharToNibble`, `NibbleToHexChar` and `HexDecode` state its use.
- `LiteralParser.ForExpressions`, `LiteralParser.ForETags` and `LiteralParser.ForKeys` (WCFDataService/Service/System/Data/Services/Parsing/LiteralParser.cs:104-135) are the static selectors. `LiteralParser.Selectors` states which policy each returns.

## Model

| member | source | states |
|---|---|---|
| WebText.LeadingWhitespace | WCFDataService/Service/System/Data/Services/Parsing/LiteralParser.cs:454 | counts the whitespace the text starts with: every counted character is space, tab, LF or CR, and the next one is not |
| WebText.TrailingWhitespace | WCFDataService/Service/System/Data/Services/Parsing/LiteralParser.cs:454 | counts the whitespace the text ends with, in the same sense |
| WebText.Trim | WCFDataService/Service/System/Data/Services/Parsing/LiteralParser.cs:454 | `Trim(XmlWhitespaceChars)` returns text that neither starts nor ends with space, tab, LF or CR |
| WebText.TrimSlice | WCFDataService/Service/System/Data/Services/Parsing/LiteralParser.cs:454 | the trimmed text is a slice of the text, and only such whitespace is cut off on either side |
| WebText.TrimPadded | WCFDataService/Service/System/Data/Services/Parsing/LiteralParser.cs:454 | trimming a trimmed core padded with whitespace gives exactly the core back |
| WebText.ToUpperAscii | WCFDataService/Service/System/Data/Services/Parsing/LiteralParser.cs:455 | the case folding of `OrdinalIgnoreCase`: never yields a lower-case letter, and leaves everything but a-z unchanged |
| WebText.TryRemovePrefix | WCFDataService/Service/System/Data/Services/Parsing/LiteralParser.cs:401 | succeeds exactly when the text starts with the prefix, then the text is prefix + result (assumed behaviour of `WebConvert.TryRemovePrefix`) |
| WebText.TryRemoveQuotes | WCFDataService/Service/System/Data/Services/Parsing/LiteralParser.cs:408 | succeeds exactly when the text has two or more characters and starts and ends with `'`, then it is `'` + result + `'` (assumed behaviour of `WebConvert.TryRemoveQuotes`) |
| WebText.QuotesRoundTrip | WCFDataService/Service/System/Data/Services/Parsing/LiteralParser.cs:408 | removing the quotes from a quoted core gives the core |
| HexBinary.HexCharToNibble | WCFDataService/Service/System/Data/Services/Parsing/LiteralParser.cs:708-753 | every hex digit maps to a nibble below 16 |
| HexBinary.SameUpperSameNibble | WCFDataService/Service/System/Data/Services/Parsing/LiteralParser.cs:708-753 | the two letter cases of a digit are both digits, with the same nibble |
| HexBinary.NibbleToHexChar | WCFDataService/Service/System/Data/Services/Parsing/LiteralParser.cs:708-753 | the upper-case digit of a nibble is a hex digit that `HexCharToNibble` maps back to that nibble |
| HexBinary.PairByte | WCFDataService/Service/System/Data/Services/Parsing/LiteralParser.cs:671 | `(byte)((byte)(hi << 4) + lo)` is exactly 16·hi + lo: neither cast truncates |
| HexBinary.PairByteReencodes | WCFDataService/Service/System/Data/Services/Parsing/LiteralParser.cs:671 | the upper-case digits of a decoded byte are the two digits it was decoded from, in upper case |
| HexBinary.HexDecode | WCFDataService/Service/System/Data/Services/Parsing/LiteralParser.cs:647-677 | decoding succeeds exactly on even-length text of hex digits; then it gives \|text\|/2 bytes, byte i being 16·nibble(text[2i]) + nibble(text[2i+1]) |
| HexBinary.TryConvert | WCFDataService/Service/System/Data/Services/Parsing/LiteralParser.cs:647-677 | the loop that fills the byte array and stops at the first non-digit pair computes exactly `HexDecode` |
| HexBinary.HexRoundTrip | WCFDataService/Service/System/Data/Services/Parsing/LiteralParser.cs:647-677 | decoding the hexadecimal text of any bytes gives those bytes |
| HexBinary.HexDecodeInverse | WCFDataService/Service/System/Data/Services/Parsing/LiteralParser.cs:647-677 | any text that decodes to some bytes is their hexadecimal text up to letter case |
| HexBinary.HexDecodeIgnoresCase | WCFDataService/Service/System/Data/Services/Parsing/LiteralParser.cs:708-753 | two texts equal up to letter case decode alike (both fail, or both give the same bytes) |
| PrimitiveParsers.SuffixedParser | WCFDataService/Service/System/Data/Services/Parsing/LiteralParser.cs:347-356 | the suffix constructor yields a descriptor without a prefix |
| PrimitiveParsers.PrefixedParser | WCFDataService/Service/System/Data/Services/Parsing/LiteralParser.cs:362-370 | the prefix constructor yields a descriptor with no suffix and no required suffix |
| PrimitiveParsers.PlainParser | WCFDataService/Service/System/Data/Services/Parsing/LiteralParser.cs:376-381 | the base constructor yields a descriptor without markup |
| PrimitiveParsers.Parsers | WCFDataService/Service/System/Data/Services/Parsing/LiteralParser.cs:69-98 | every entry's expected type is its own key; no entry has both a prefix and a suffix; a required suffix implies a suffix |
| PrimitiveParsers.LiteralGrammar | WCFDataService/Service/System/Data/Services/Parsing/LiteralParser.cs:69-98 | exactly Guid, DateTime, DateTimeOffset and TimeSpan have a prefix; exactly Int64, Single, Decimal and Double have a suffix, required for all but Double; only byte[], String and Decimal have their own parser classes |
| PrimitiveParsers.RemoveLiteralSuffix | WCFDataService/Service/System/Data/Services/Parsing/LiteralParser.cs:449-462 | the text is always trimmed; the suffix is found exactly when the trimmed text is strictly longer and ends with it ignoring case; then exactly \|suffix\| characters are cut, leaving a non-empty prefix of the trimmed text |
| PrimitiveParsers.TryRemoveLiteralSuffix | WCFDataService/Service/System/Data/Services/Parsing/LiteralParser.cs:449-462 | the method rewriting its `ref` text computes `RemoveLiteralSuffix` |
| PrimitiveParsers.PrimitiveTryRemoveFormatting | WCFDataService/Service/System/Data/Services/Parsing/LiteralParser.cs:396-423 | the step-by-step rewrite (prefix, quotes when prefixed or string-like, suffix) succeeds and yields what `RemoveMarkup` gives |
| PrimitiveParsers.BinaryTryRemoveFormatting | WCFDataService/Service/System/Data/Services/Parsing/LiteralParser.cs:687-702 | the binary override (long prefix, else short prefix, then quotes) computes `RemoveBinaryMarkup` |
| PrimitiveParsers.TryRemoveFormatting | WCFDataService/Service/System/Data/Services/Parsing/LiteralParser.cs:396-423 | the virtual call, dispatched to the binary, string or base implementation, computes `RemoveFormatting` |
| PrimitiveParsers.PrefixedMarkup | WCFDataService/Service/System/Data/Services/Parsing/LiteralParser.cs:396-423 | a prefixed descriptor accepts a text with core c exactly when the text is prefix + `'` + c + `'` |
| PrimitiveParsers.QuotedMarkup | WCFDataService/Service/System/Data/Services/Parsing/LiteralParser.cs:433-441 | a descriptor for a type whose values can contain quotes (String, XElement) accepts exactly a quoted core |
| PrimitiveParsers.PlainMarkup | WCFDataService/Service/System/Data/Services/Parsing/LiteralParser.cs:396-423 | a descriptor without markup passes any text on unchanged |
| PrimitiveParsers.SuffixRoundTrip | WCFDataService/Service/System/Data/Services/Parsing/LiteralParser.cs:449-462 | a core followed by the suffix in either case, padded with whitespace, is found and stripped back to the core |
| PrimitiveParsers.SuffixedMarkupComplete | WCFDataService/Service/System/Data/Services/Parsing/LiteralParser.cs:413-420 | a suffixed descriptor accepts any whitespace-padded core + suffix and yields the core |
| PrimitiveParsers.SuffixedMarkupSound | WCFDataService/Service/System/Data/Services/Parsing/LiteralParser.cs:413-420 | what a suffixed descriptor accepts is a core followed by the suffix, or, for an optional suffix, the trimmed text; without the suffix it fails when it is required and yields the trimmed text otherwise |
| PrimitiveParsers.MissingSuffix | WCFDataService/Service/System/Data/Services/Parsing/LiteralParser.cs:413-420 | Int64, Single and Decimal literals without their suffix are rejected; a Double literal is then only trimmed |
| PrimitiveParsers.BinaryMarkup | WCFDataService/Service/System/Data/Services/Parsing/LiteralParser.cs:687-702 | the binary stripper yields c exactly for `binary'c'` and `X'c'` |
| PrimitiveParsers.DescriptorRoundTrip | WCFDataService/Service/System/Data/Services/Parsing/LiteralParser.cs:396-423 | for every well-formed descriptor whose suffix trimming cannot eat into, the literal written for a core is stripped back to that core |
| PrimitiveParsers.DescriptorSound | WCFDataService/Service/System/Data/Services/Parsing/LiteralParser.cs:396-423 | whatever a well-formed descriptor accepts has the descriptor's shape: binary or plain quotes, prefix and quotes, quotes, core and suffix, the trimmed text when the suffix is optional, or the text itself |
| PrimitiveParsers.FormattingRoundTrip | WCFDataService/Service/System/Data/Services/Parsing/LiteralParser.cs:69-98 | for every type, the literal a producer writes for a canonical core is stripped back to that core |
| PrimitiveParsers.FormattingSound | WCFDataService/Service/System/Data/Services/Parsing/LiteralParser.cs:69-98 | every text the stripper accepts has its type's shape: prefix and quotes, quotes, core and suffix, the bare trimmed text (Double only), or the text itself for markup-free types |
| PrimitiveParsers.StringOverrideAgrees | WCFDataService/Service/System/Data/Services/Parsing/LiteralParser.cs:793-797 | the string parser's override strips exactly what the base class would for the String entry |
| PrimitiveParsers.ConvertDecimal | WCFDataService/Service/System/Data/Services/Parsing/LiteralParser.cs:605-622 | a strict conversion's value or non-format exception is kept; after a `FormatException`, a successful lenient parse gives exactly the value `Decimal.TryParse` produced, and a failed one rethrows the `FormatException` |
| PrimitiveParsers.FromConversion | WCFDataService/Service/System/Data/Services/Parsing/LiteralParser.cs:570-583 | a converted value is a success of the entry's type; only a `FormatException` is caught and becomes a malformed payload |
| PrimitiveParsers.TryConvert | WCFDataService/Service/System/Data/Services/Parsing/LiteralParser.cs:570-596 | a success has the entry's type; an error is a malformed payload or an uncaught exception; byte[] succeeds exactly on hex text with its decoded bytes; String returns the text as it is; Decimal converts through `ConvertDecimal` and every other type through its `XmlConvert` routine, with only `FormatException` caught |
| LiteralParser.UnderlyingType | WCFDataService/Service/System/Data/Services/Parsing/LiteralParser.cs:165 | `Nullable<T>` becomes T, every other type stays |
| LiteralParser.TryRemoveFormattingAndConvert | WCFDataService/Service/System/Data/Services/Parsing/LiteralParser.cs:213-228 | a type outside the table is unsupported; inside it, a format mismatch happens exactly when stripping fails; a success has the entry's type |
| LiteralParser.DefaultTryParseLiteral | WCFDataService/Service/System/Data/Services/Parsing/LiteralParser.cs:158-203 | every success has the requested type (Nullable unwrapped) |
| LiteralParser.SpatialTryParseLiteral | WCFDataService/Service/System/Data/Services/Parsing/LiteralParser.cs:242-252 | every success has the requested type, a spatial type getting a shape of that type |
| LiteralParser.KeysAsSegmentsTryParseLiteral | WCFDataService/Service/System/Data/Services/Parsing/LiteralParser.cs:266-292 | every success has the requested type |
| LiteralParser.TryParseLiteral | WCFDataService/Service/System/Data/Services/Parsing/LiteralParser.cs:142 | whichever policy parses, a success has the requested type |
| LiteralParser.UnescapeLeadingDollarSign | WCFDataService/Service/System/Data/Services/Parsing/LiteralParser.cs:300-310 | exactly one leading `$` is removed when the text is longer than one character; otherwise the text is unchanged |
| LiteralParser.Selectors | WCFDataService/Service/System/Data/Services/Parsing/LiteralParser.cs:104-135 | `ForKeys(true)` is the segment policy; `ForKeys(false)` and `ForETags` are the default policy; `ForExpressions` is the spatial-aware one |
| LiteralParser.DefaultBinaryLiteral | WCFDataService/Service/System/Data/Services/Parsing/LiteralParser.cs:167-190 | a binary literal in either form: byte[] and Binary get the decoded bytes; any other type gets the strip-and-convert of their UTF-8 text |
| LiteralParser.DefaultBinaryReencoding | WCFDataService/Service/System/Data/Services/Parsing/LiteralParser.cs:185-189 | `X'` + the hex text of any bytes + `'` gives those bytes to byte[] and Binary, and the conversion of their UTF-8 text to any other type |
| LiteralParser.FallbackIsSingleLevel | WCFDataService/Service/System/Data/Services/Parsing/LiteralParser.cs:188-189 | when the decoded text is itself a binary literal, the Int32 converter receives it verbatim: there is no second binary attempt |
| LiteralParser.BinaryFallbackIdempotent | WCFDataService/Service/System/Data/Services/Parsing/LiteralParser.cs:167-203 | re-sending the UTF-8 bytes of a non-binary literal in binary form gives every non-binary type the same result as the literal itself |
| LiteralParser.DefaultBinaryTargetNeedsBinaryLiteral | WCFDataService/Service/System/Data/Services/Parsing/LiteralParser.cs:192-200 | byte[] and Binary succeed only on `binary'h'` or `X'h'` with h hex text, and yield its decoded bytes |
| LiteralParser.DefaultNonBinaryLiteral | WCFDataService/Service/System/Data/Services/Parsing/LiteralParser.cs:192-203 | text that is not a binary literal with a hex payload fails for byte[] and Binary, and is exactly strip-and-convert for every other type |
| LiteralParser.NoBinaryPrefix | WCFDataService/Service/System/Data/Services/Parsing/LiteralParser.cs:687-694 | text starting with neither `binary` nor `X` is not a binary literal |
| LiteralParser.NullableIsUnwrapped | WCFDataService/Service/System/Data/Services/Parsing/LiteralParser.cs:165 | under every policy, `Nullable<T>` parses exactly as T |
| LiteralParser.SpatialTypeNotInTable | WCFDataService/Service/System/Data/Services/Parsing/LiteralParser.cs:219-220 | the default and segment policies reject a spatial type as not in the table, whatever the text |
| LiteralParser.ExpressionsOtherwiseDefault | WCFDataService/Service/System/Data/Services/Parsing/LiteralParser.cs:242-252 | for non-spatial types, expression constants parse exactly as ETags do |
| LiteralParser.ExpressionsDelegateSpatial | WCFDataService/Service/System/Data/Services/Parsing/LiteralParser.cs:246-249 | a spatial constant succeeds exactly when the well-known-text parser accepts it, with that parser's shape |
| LiteralParser.SegmentString | WCFDataService/Service/System/Data/Services/Parsing/LiteralParser.cs:291 | a string key in a segment is the unescaped text itself, quotes included |
| LiteralParser.SegmentBinary | WCFDataService/Service/System/Data/Services/Parsing/LiteralParser.cs:291 | a byte[] key in a segment succeeds exactly on bare hex text, with its decoded bytes |
| LiteralParser.SegmentLinqBinary | WCFDataService/Service/System/Data/Services/Parsing/LiteralParser.cs:279-291 | a Binary key in a segment is the decoded hex text; otherwise it fails as a type not in the table |
| LiteralParser.SegmentConvertsVerbatim | WCFDataService/Service/System/Data/Services/Parsing/LiteralParser.cs:291 | for every delegating type, the converter receives the unescaped text with no prefix, quote or suffix removed; for Decimal that converter is `ConvertDecimal` |
| LiteralParser.SegmentEscapedDollar | WCFDataService/Service/System/Data/Services/Parsing/LiteralParser.cs:300-310 | a segment starting with `$$` is the string with one `$` removed: `$$literal` is `$literal` |
| LiteralParser.DefaultSuffixedNumber | WCFDataService/Service/System/Data/Services/Parsing/LiteralParser.cs:413-420 | a number followed by its type's suffix in either case (`123L`, `123l`, `1.5D`, `3.14M`) is the conversion of the number alone |
| LiteralParser.DefaultUnsuffixedNumber | WCFDataService/Service/System/Data/Services/Parsing/LiteralParser.cs:413-420 | a number without its type's suffix is converted as it is for Double and is a format mismatch for Int64, Single and Decimal |
| LiteralParser.DefaultMalformedBinary | WCFDataService/Service/System/Data/Services/Parsing/LiteralParser.cs:192-200 | a binary literal whose payload is not even-length hex text is a malformed payload for byte[] and Binary |
| LiteralParser.QuotedGuid | WCFDataService/Service/System/Data/Services/Parsing/LiteralParser.cs:84 | `guid'g'` hands the text g, unchanged, to the Guid converter |
| LiteralParser.UnclosedGuid | WCFDataService/Service/System/Data/Services/Parsing/LiteralParser.cs:396-411 | a guid literal without its closing quote is a format mismatch: no trimming happens before the quotes are checked |
| EpmTranslate.EnumValuesByOrdinal | WCFDataService/Service/System/Data/Services/Epm/EpmTranslate.cs:67 | the enum's values are enumerated once each, the value with underlying value i at position i |
| EpmTranslate.TargetPathsDistinct | WCFDataService/Service/System/Data/Services/Epm/EpmTranslate.cs:41-55 | the table has one entry per enum value, and its entries are pairwise distinct |
| EpmTranslate.PathsBelowStep | WCFDataService/Service/System/Data/Services/Epm/EpmTranslate.cs:62-71 | before each `Add` the next path is not yet a key, and the addition extends the dictionary by exactly that entry |
| EpmTranslate.TargetPathToSyndicationItem | WCFDataService/Service/System/Data/Services/Epm/EpmTranslate.cs:62-71 | the reverse dictionary holds every table entry, and nothing else |
| EpmTranslate.BuildTargetPathToSyndicationItem | WCFDataService/Service/System/Data/Services/Epm/EpmTranslate.cs:62-71 | the static constructor's loop never adds a key twice (so `Dictionary.Add` never throws) and builds exactly the reverse dictionary |
| EpmTranslate.MapSyndicationPropertyToEpmTargetPath | WCFDataService/Service/System/Data/Services/Epm/EpmTranslate.cs:79-83 | the path is empty exactly for CustomProperty, and it is always a key of the reverse dictionary |
| EpmTranslate.MapEpmTargetPathToSyndicationProperty | WCFDataService/Service/System/Data/Services/Epm/EpmTranslate.cs:94-103 | a path the dictionary does not hold maps to CustomProperty |
| EpmTranslate.TargetPathRoundTrip | WCFDataService/Service/System/Data/Services/Epm/EpmTranslate.cs:62-71 | every property translated to its path and back is itself |
| EpmTranslate.TargetPathRoundTripBack | WCFDataService/Service/System/Data/Services/Epm/EpmTranslate.cs:94-103 | every path of the dictionary translated to its property and back is itself |
| EpmTranslate.UnknownTargetPath | WCFDataService/Service/System/Data/Services/Epm/EpmTranslate.cs:94-103 | a path that is no property's path maps to CustomProperty |
| EpmTranslate.MapSyndicationTextContentKindToEpmContentKind | WCFDataService/Service/System/Data/Services/Epm/EpmTranslate.cs:111-123 | every content kind maps to one of `text`, `html` and `xhtml` |
| EpmTranslate.MapEpmContentKindToSyndicationTextContentKind | WCFDataService/Service/System/Data/Services/Epm/EpmTranslate.cs:134-156 | it raises exactly for strings other than `text`, `html` and `xhtml`; the message names the member when there is one, and only the type otherwise |
| EpmTranslate.ContentKindRoundTrip | WCFDataService/Service/System/Data/Services/Epm/EpmTranslate.cs:134-156 | every content kind translated to its string and back is itself |
| EpmTranslate.ContentKindRoundTripBack | WCFDataService/Service/System/Data/Services/Epm/EpmTranslate.cs:111-123 | every accepted string is the string of the kind it yields |
| EpmTranslate.ContentKindIsCaseSensitive | WCFDataService/Service/System/Data/Services/Epm/EpmTranslate.cs:138-148 | the switch is ordinal: `Text` raises |
| Providers.BindingType | WCFDataService/Service/System/Data/Services/Providers/OperationCache.cs:119 | there is a binding type exactly when there is a binding parameter, and it is that parameter's type |
| Providers.GetCacheKey | WCFDataService/Service/System/Data/Services/Providers/OperationCache.cs:98-107 | the key starts with the name; it is the bare name exactly when there is no binding type, and otherwise continues with `_` and the type's full name |
| Providers.GetCacheKeyForOperation | WCFDataService/Service/System/Data/Services/Providers/OperationCache.cs:114-121 | an operation's key starts with its name and is the bare name exactly when it is unbound |
| Providers.GetCacheKeyForWrapper | WCFDataService/Service/System/Data/Services/Providers/OperationCache.cs:128-133 | a wrapper's key starts with its name and is the bare name exactly when it is unbound |
| Providers.KeyOverloadsAgree | WCFDataService/Service/System/Data/Services/Providers/OperationCache.cs:114-133 | an operation and a wrapper with the same name and binding type have the same key, the one of the (name, type) overload |
| Providers.KeyDeterminesName | WCFDataService/Service/System/Data/Services/Providers/OperationCache.cs:35 | with the same binding type, equal keys mean ordinally equal names; lookups are case-sensitive |
| Providers.KeyDeterminesBindingType | WCFDataService/Service/System/Data/Services/Providers/OperationCache.cs:98-107 | with the same name, equal keys mean the same binding type |
| Providers.KeyCollision | WCFDataService/Service/System/Data/Services/Providers/OperationCache.cs:98-107 | unbound `a_b` and `a` bound to type `b` share a key |
| Providers.OperationCache.constructor | WCFDataService/Service/System/Data/Services/Providers/OperationCache.cs:35 | a new cache is empty and satisfies the invariant |
| Providers.OperationCache.TryGetWrapper | WCFDataService/Service/System/Data/Services/Providers/OperationCache.cs:44-48 | finds a wrapper exactly when the key of the name and binding type is present; returns the stored one, whose own key is that key; changes nothing |
| Providers.OperationCache.TryGetWrapperForOperation | WCFDataService/Service/System/Data/Services/Providers/OperationCache.cs:56-60 | the same, for the key of an operation |
| Providers.OperationCache.Add | WCFDataService/Service/System/Data/Services/Providers/OperationCache.cs:66-70 | keeps the invariant; stores the wrapper under its key exactly when the key was absent, leaving every other entry; otherwise the cache is unchanged |
| Providers.OperationCache.ContainsOperation | WCFDataService/Service/System/Data/Services/Providers/OperationCache.cs:77-80 | true exactly when the operation's key is present; changes nothing |
| Providers.OperationCache.ContainsWrapper | WCFDataService/Service/System/Data/Services/Providers/OperationCache.cs:87-90 | true exactly when the wrapper's key is present; changes nothing |
| Providers.AddThenLookUp | WCFDataService/Service/System/Data/Services/Providers/OperationCache.cs:44-90 | after adding a wrapper with a fresh key, it is contained and is what both lookups find; all older entries are kept |
| Providers.AddDuplicate | WCFDataService/Service/System/Data/Services/Providers/OperationCache.cs:66-70 | adding under a taken key changes nothing, and the earlier wrapper is still found |

## Left out

- `XmlConvert.*`, `XElement.Parse` and `Decimal.TryParse` are foreign library conversions, partly floating point. They are opaque functions, and only the `FormatException` / other-exception outcome of each is modelled.
- `Encoding.UTF8.GetString` is an opaque total function from bytes to text. The UTF-8 decoding itself is not modelled.
- `WellKnownTextParser` is an opaque function that accepts or rejects the text for a spatial type.
- `System.Data.Linq.Binary` is an identity wrapper around the bytes.
- WebConvert.cs is not part of this model. `TryRemovePrefix`, `TryRemoveQuotes` and `IsCharHexDigit` are given the simple behaviour their call sites rely on. `TryRemovePrefix` is taken to compare ordinally and case-sensitively, so `x'0A'` and `GUID'…'` are not prefixed literals; `LiteralParser.NoBinaryPrefix`, `LiteralParser.NotBinaryByFirstChar` and every prefixed-literal lemma depend on this. A doubled quote inside a quoted literal is not unescaped.
- XmlConstants.cs is not part of this model. Its literal prefixes and suffixes, its target paths and its content-kind values are written out as constants.
- WebText.ToUpperAscii: `OrdinalIgnoreCase` also folds non-ASCII letters. The model folds only a-z, which agrees on every comparison with the ASCII suffixes L, f, D and M, except for a non-ASCII character whose upper case is one of them.
- HexBinary.HexCharToNibble: requires a hex digit. Its `InvalidOperationException` branch is unreachable, because `TryConvert` checks both characters first.
- The CLR type of a literal is modelled as one of these: a table type, `Nullable<T>` of one, `Binary`, or a spatial type. Every other type fails like a spatial type outside the spatial policy, as a lookup that is not in the table.
- `Debug.Assert` and `DebugUtils.CheckNoExternalCallers` are diagnostics. Among them is the assertion that a segment starting with `$` has a second `$`: that is a caller contract, and the segment policy unescapes as the code does.
- `Operation.EnsureReadOnly` has a side effect on an external object.
- The `ODATALIB` build variants are not modelled. The server build is.
- Static initialisation and thread safety of the frozen tables are not modelled: the tables are constants.
- Providers.OperationCache.Add: `Dictionary.Add` throws `ArgumentException` on a taken key. The model returns `added == false` and leaves the cache unchanged instead of raising.
- The repository's Epm enum and content-kind types are only their values. `ResourceType` is only its `FullName`, and an operation and its wrapper are only their name and binding parameter.
