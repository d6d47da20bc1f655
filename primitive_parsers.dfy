/**
  The per-type literal parsers of LiteralParser.cs: the PrimitiveParser
  descriptors (prefix, suffix, whether the suffix is required), the frozen
  Parsers table from CLR type to descriptor, the formatting stripper
  (TryRemoveFormatting and TryRemoveLiteralSuffix) and the per-type conversion
  (TryConvert).
*/
module PrimitiveParsers {
  import opened Common
  import opened WebText
  import HexBinary

  /** The CLR types that are keys of the Parsers table (the XElement entry belongs to the server build). */
  datatype TypeTag =
    | ByteArray | String | Decimal
    | Boolean | Byte | SByte | Int16 | Int32
    | Guid | DateTime | DateTimeOffset | TimeSpan
    | Int64 | Single | Double
    | XElement

  // The literal markers of XmlConstants.
  const LiteralPrefixBinary: string := "binary"
  const LiteralPrefixShortBinary: string := "X"
  const LiteralPrefixGuid: string := "guid"
  const LiteralPrefixDateTime: string := "datetime"
  const LiteralPrefixDateTimeOffset: string := "datetimeoffset"
  const LiteralPrefixTime: string := "time"
  const LiteralSuffixInt64: string := "L"
  const LiteralSuffixSingle: string := "f"
  const LiteralSuffixDouble: string := "D"
  const LiteralSuffixDecimal: string := "M"

  /** The subclass of PrimitiveParser, which decides the TryConvert and TryRemoveFormatting overrides. */
  datatype ParserKind = BinaryParser | StringParser | DecimalParser | DelegatingParser

  /** A PrimitiveParser: its readonly fields and its subclass. None stands for a null prefix or suffix. */
  datatype PrimitiveParser = PrimitiveParser(
    expectedType: TypeTag,
    prefix: Option<string>,
    suffix: Option<string>,
    suffixRequired: bool,
    kind: ParserKind)

  /**
    What the three constructors of PrimitiveParser guarantee: never both a
    prefix and a suffix, and a suffix is required only by a parser that has one
    (so never by a prefixed parser).
  */
  predicate WellFormed(p: PrimitiveParser) {
    && !(p.prefix.Some? && p.suffix.Some?)
    && (p.suffixRequired ==> p.suffix.Some?)
    && (p.prefix.Some? ==> !p.suffixRequired)
  }

  /** PrimitiveParser(expectedType): no markup beyond what the subclass adds. */
  function PlainParser(expectedType: TypeTag, kind: ParserKind): (p: PrimitiveParser)
    ensures WellFormed(p) && p.prefix.None? && p.suffix.None?
  {
    PrimitiveParser(expectedType, None, None, false, kind)
  }

  /** PrimitiveParser(expectedType, prefix): the suffix is null and not required. */
  function PrefixedParser(expectedType: TypeTag, kind: ParserKind, prefix: string): (p: PrimitiveParser)
    ensures WellFormed(p) && p.prefix == Some(prefix)
  {
    PrimitiveParser(expectedType, Some(prefix), None, false, kind)
  }

  /** PrimitiveParser(expectedType, suffix, suffixRequired): the prefix is null. */
  function SuffixedParser(expectedType: TypeTag, kind: ParserKind, suffix: string, suffixRequired: bool): (p: PrimitiveParser)
    ensures WellFormed(p) && p.suffix == Some(suffix) && p.suffixRequired == suffixRequired
  {
    PrimitiveParser(expectedType, None, Some(suffix), suffixRequired, kind)
  }

  /**
    The Parsers dictionary: one descriptor per CLR type, built once and never
    changed. Each entry's expected type is its own key.
  */
  function Parsers(tag: TypeTag): (p: PrimitiveParser)
    ensures p.expectedType == tag && WellFormed(p)
  {
    match tag
    case ByteArray => PlainParser(ByteArray, BinaryParser)
    case String => PlainParser(String, StringParser)
    case Decimal => SuffixedParser(Decimal, DecimalParser, LiteralSuffixDecimal, true)
    case Boolean => PlainParser(Boolean, DelegatingParser)
    case Byte => PlainParser(Byte, DelegatingParser)
    case SByte => PlainParser(SByte, DelegatingParser)
    case Int16 => PlainParser(Int16, DelegatingParser)
    case Int32 => PlainParser(Int32, DelegatingParser)
    case Guid => PrefixedParser(Guid, DelegatingParser, LiteralPrefixGuid)
    case DateTime => PrefixedParser(DateTime, DelegatingParser, LiteralPrefixDateTime)
    case DateTimeOffset => PrefixedParser(DateTimeOffset, DelegatingParser, LiteralPrefixDateTimeOffset)
    case TimeSpan => PrefixedParser(TimeSpan, DelegatingParser, LiteralPrefixTime)
    case Int64 => SuffixedParser(Int64, DelegatingParser, LiteralSuffixInt64, true)
    case Single => SuffixedParser(Single, DelegatingParser, LiteralSuffixSingle, true)
    case Double => SuffixedParser(Double, DelegatingParser, LiteralSuffixDouble, false)
    case XElement => PlainParser(XElement, DelegatingParser)
  }

  /** Types whose literals are quoted although they have no prefix. */
  predicate ValueOfTypeCanContainQuotes(t: TypeTag) {
    t == XElement || t == String
  }

  /** The tags of each row of the literal grammar. */
  predicate IsPrefixedTag(tag: TypeTag) {
    tag == Guid || tag == DateTime || tag == DateTimeOffset || tag == TimeSpan
  }

  predicate IsRequiredSuffixTag(tag: TypeTag) {
    tag == Int64 || tag == Single || tag == Decimal
  }

  predicate IsPlainTag(tag: TypeTag) {
    tag == Boolean || tag == Byte || tag == SByte || tag == Int16 || tag == Int32
  }

  /** The table follows the literal grammar: which types have a prefix, a suffix, a required suffix, quotes. */
  lemma LiteralGrammar(tag: TypeTag)
    ensures Parsers(tag).prefix.Some? <==> IsPrefixedTag(tag)
    ensures Parsers(tag).suffix.Some? <==> IsRequiredSuffixTag(tag) || tag == Double
    ensures Parsers(tag).suffixRequired <==> IsRequiredSuffixTag(tag)
    ensures Parsers(tag).kind == BinaryParser <==> tag == ByteArray
    ensures Parsers(tag).kind == StringParser <==> tag == String
    ensures Parsers(tag).kind == DecimalParser <==> tag == Decimal
  {
  }

  // ---------------------------------------------------------------------------
  // Formatting removal

  /**
    TryRemoveLiteralSuffix: the text is always trimmed; the suffix is found
    when the trimmed text is strictly longer than it and ends with it ignoring
    case, and then exactly |suffix| characters are cut off.
  */
  function RemoveLiteralSuffix(suffix: string, text: string): (r: (bool, string))
    ensures !r.0 ==> r.1 == Trim(text)
    ensures r.0 <==> |Trim(text)| > |suffix| && EndsWithIgnoreCase(Trim(text), suffix)
    ensures r.0 ==> |r.1| == |Trim(text)| - |suffix| > 0 && r.1 <= Trim(text)
  {
    var trimmed := Trim(text);
    if |trimmed| <= |suffix| || !EndsWithIgnoreCase(trimmed, suffix) then (false, trimmed)
    else (true, trimmed[..|trimmed| - |suffix|])
  }

  /** TryRemoveLiteralSuffix, which rewrites its `ref string` argument in place. */
  method TryRemoveLiteralSuffix(suffix: string, text: string) returns (found: bool, result: string)
    ensures (found, result) == RemoveLiteralSuffix(suffix, text)
  {
    result := Trim(text);
    if |result| <= |suffix| || !EndsWithIgnoreCase(result, suffix) {
      return false, result;
    }
    result := result[..|result| - |suffix|];
    found := true;
  }

  /** PrimitiveParser.TryRemoveFormatting: prefix, then quotes, then suffix. */
  function RemoveMarkup(p: PrimitiveParser, text: string): (r: Option<string>)
  {
    var unprefixed := if p.prefix.Some? then TryRemovePrefix(p.prefix.value, text) else Some(text);
    if unprefixed.None? then None
    else
      var shouldBeQuoted := p.prefix.Some? || ValueOfTypeCanContainQuotes(p.expectedType);
      var unquoted := if shouldBeQuoted then TryRemoveQuotes(unprefixed.value) else unprefixed;
      if unquoted.None? then None
      else if p.suffix.Some? then
        var (found, unsuffixed) := RemoveLiteralSuffix(p.suffix.value, unquoted.value);
        if !found && p.suffixRequired then None else Some(unsuffixed)
      else unquoted
  }

  /** BinaryPrimitiveParser.TryRemoveFormatting: the long or the short binary prefix, then quotes. */
  function RemoveBinaryMarkup(text: string): (r: Option<string>)
  {
    var unprefixed :=
      if TryRemovePrefix(LiteralPrefixBinary, text).Some? then TryRemovePrefix(LiteralPrefixBinary, text)
      else TryRemovePrefix(LiteralPrefixShortBinary, text);
    if unprefixed.None? then None else TryRemoveQuotes(unprefixed.value)
  }

  /** TryRemoveFormatting, dispatched on the subclass (StringPrimitiveParser only removes quotes). */
  function RemoveFormatting(p: PrimitiveParser, text: string): (r: Option<string>)
  {
    match p.kind
    case BinaryParser => RemoveBinaryMarkup(text)
    case StringParser => TryRemoveQuotes(text)
    case _ => RemoveMarkup(p, text)
  }

  /** PrimitiveParser.TryRemoveFormatting, rewriting the text step by step as the `ref string` is. */
  method PrimitiveTryRemoveFormatting(p: PrimitiveParser, text: string) returns (ok: bool, result: string)
    ensures ok <==> RemoveMarkup(p, text).Some?
    ensures ok ==> result == RemoveMarkup(p, text).value
  {
    result := text;
    if p.prefix.Some? {
      var unprefixed := TryRemovePrefix(p.prefix.value, result);
      if unprefixed.None? {
        return false, result;
      }
      result := unprefixed.value;
    }
    var shouldBeQuoted := p.prefix.Some? || ValueOfTypeCanContainQuotes(p.expectedType);
    if shouldBeQuoted {
      var unquoted := TryRemoveQuotes(result);
      if unquoted.None? {
        return false, result;
      }
      result := unquoted.value;
    }
    if p.suffix.Some? {
      var found;
      found, result := TryRemoveLiteralSuffix(p.suffix.value, result);
      if !found && p.suffixRequired {
        return false, result;
      }
    }
    ok := true;
  }

  /** BinaryPrimitiveParser.TryRemoveFormatting, rewriting the text step by step. */
  method BinaryTryRemoveFormatting(text: string) returns (ok: bool, result: string)
    ensures ok <==> RemoveBinaryMarkup(text).Some?
    ensures ok ==> result == RemoveBinaryMarkup(text).value
  {
    result := text;
    var unprefixed := TryRemovePrefix(LiteralPrefixBinary, result);
    if unprefixed.None? {
      unprefixed := TryRemovePrefix(LiteralPrefixShortBinary, result);
      if unprefixed.None? {
        return false, result;
      }
    }
    result := unprefixed.value;
    var unquoted := TryRemoveQuotes(result);
    if unquoted.None? {
      return false, result;
    }
    ok, result := true, unquoted.value;
  }

  /** TryRemoveFormatting, dispatched to the override of the parser's subclass. */
  method TryRemoveFormatting(p: PrimitiveParser, text: string) returns (ok: bool, result: string)
    ensures ok <==> RemoveFormatting(p, text).Some?
    ensures ok ==> result == RemoveFormatting(p, text).value
  {
    match p.kind {
      case BinaryParser =>
        ok, result := BinaryTryRemoveFormatting(text);
      case StringParser =>
        var unquoted := TryRemoveQuotes(text);
        ok, result := unquoted.Some?, if unquoted.Some? then unquoted.value else text;
      case _ =>
        ok, result := PrimitiveTryRemoveFormatting(p, text);
    }
  }

  // ---------------------------------------------------------------------------
  // The literal grammar: what a producer writes, and what the stripper accepts

  lemma PrefixCancels(prefix: string, rest: string)
    ensures TryRemovePrefix(prefix, prefix + rest) == Some(rest)
  {
    assert prefix <= prefix + rest;
    var v := TryRemovePrefix(prefix, prefix + rest).value;
    assert v == (prefix + v)[|prefix|..];
    assert rest == (prefix + rest)[|prefix|..];
  }

  /** A prefixed descriptor accepts exactly its prefix followed by a quoted core. */
  lemma PrefixedMarkup(p: PrimitiveParser, text: string, core: string)
    requires WellFormed(p) && p.prefix.Some?
    ensures RemoveMarkup(p, text) == Some(core) <==> text == p.prefix.value + [Quote] + core + [Quote]
  {
    var q := [Quote] + core + [Quote];
    assert p.prefix.value + [Quote] + core + [Quote] == p.prefix.value + q;
    if text == p.prefix.value + q {
      PrefixCancels(p.prefix.value, q);
      QuotesRoundTrip(core);
    }
    if RemoveMarkup(p, text) == Some(core) {
      var rest := TryRemovePrefix(p.prefix.value, text).value;
      assert rest == q;
    }
  }

  /** A quoted descriptor without prefix or suffix accepts exactly a quoted core. */
  lemma QuotedMarkup(p: PrimitiveParser, text: string, core: string)
    requires p.prefix.None? && p.suffix.None? && ValueOfTypeCanContainQuotes(p.expectedType)
    ensures RemoveMarkup(p, text) == Some(core) <==> text == [Quote] + core + [Quote]
  {
    if text == [Quote] + core + [Quote] {
      QuotesRoundTrip(core);
    }
  }

  /** A descriptor without any markup hands the text on unchanged. */
  lemma PlainMarkup(p: PrimitiveParser, text: string)
    requires p.prefix.None? && p.suffix.None? && !ValueOfTypeCanContainQuotes(p.expectedType)
    ensures RemoveMarkup(p, text) == Some(text)
  {
  }

  /** A suffix that trimming cannot eat into: its last character is not whitespace in either case. */
  predicate IsSolidSuffix(suffix: string) {
    suffix != [] && !IsXmlWhitespace(ToUpperAscii(suffix[|suffix| - 1]))
  }

  /** A suffixed literal, padded with whitespace and written in either case, strips back to its core. */
  lemma SuffixRoundTrip(suffix: string, pre: string, core: string, written: string, post: string)
    requires AllXmlWhitespace(pre) && AllXmlWhitespace(post)
    requires IsSuffixableCore(core) && IsSolidSuffix(suffix) && EqualsIgnoreCase(written, suffix)
    ensures RemoveLiteralSuffix(suffix, pre + core + written + post) == (true, core)
  {
    var lit := core + written;
    assert ToUpperAscii(written[|written| - 1]) == ToUpperAscii(suffix[|suffix| - 1]);
    assert lit[|lit| - 1] == written[|written| - 1];
    assert IsTrimmed(lit);
    assert pre + core + written + post == pre + lit + post;
    TrimPadded(pre, lit, post);
    assert lit[|lit| - |suffix|..] == written;
    assert lit[..|lit| - |suffix|] == core;
  }

  /** A core that survives trimming at the front and is not empty: what a suffixed literal carries. */
  predicate IsSuffixableCore(core: string) {
    core != [] && !IsXmlWhitespace(core[0])
  }

  /** A suffixed descriptor accepts its core followed by the suffix in either case, with whitespace around. */
  lemma SuffixedMarkupComplete(p: PrimitiveParser, pre: string, core: string, written: string, post: string)
    requires WellFormed(p) && p.suffix.Some? && !ValueOfTypeCanContainQuotes(p.expectedType)
    requires AllXmlWhitespace(pre) && AllXmlWhitespace(post)
    requires IsSuffixableCore(core) && IsSolidSuffix(p.suffix.value) && EqualsIgnoreCase(written, p.suffix.value)
    ensures RemoveMarkup(p, pre + core + written + post) == Some(core)
  {
    SuffixRoundTrip(p.suffix.value, pre, core, written, post);
  }

  /**
    What a suffixed descriptor accepts: a non-empty core followed, after
    trimming, by the suffix in either case; when the suffix is optional, also
    the trimmed text as it is. A text whose trimmed form does not end with the
    suffix fails when the suffix is required and is trimmed otherwise.
  */
  lemma SuffixedMarkupSound(p: PrimitiveParser, text: string)
    requires WellFormed(p) && p.suffix.Some? && !ValueOfTypeCanContainQuotes(p.expectedType)
    ensures RemoveMarkup(p, text).Some? ==>
      var core := RemoveMarkup(p, text).value;
      || (core != [] && core <= Trim(text) && EqualsIgnoreCase(Trim(text)[|core|..], p.suffix.value))
      || (!p.suffixRequired && core == Trim(text))
    ensures !EndsWithIgnoreCase(Trim(text), p.suffix.value) ==>
      RemoveMarkup(p, text) == if p.suffixRequired then None else Some(Trim(text))
  {
    var t := Trim(text);
    var (found, core) := RemoveLiteralSuffix(p.suffix.value, text);
    if found {
      assert core + t[|core|..] == t;
      assert t[|core|..] == t[|t| - |p.suffix.value|..];
    }
  }

  /** BinaryPrimitiveParser accepts exactly a quoted core after the long or the short binary prefix. */
  lemma BinaryMarkup(text: string, core: string)
    ensures RemoveBinaryMarkup(text) == Some(core) <==>
      text == LiteralPrefixBinary + [Quote] + core + [Quote] || text == LiteralPrefixShortBinary + [Quote] + core + [Quote]
  {
    var q := [Quote] + core + [Quote];
    assert LiteralPrefixBinary + [Quote] + core + [Quote] == LiteralPrefixBinary + q;
    assert LiteralPrefixShortBinary + [Quote] + core + [Quote] == LiteralPrefixShortBinary + q;
    if text == LiteralPrefixBinary + q {
      PrefixCancels(LiteralPrefixBinary, q);
      QuotesRoundTrip(core);
    } else if text == LiteralPrefixShortBinary + q {
      assert !(LiteralPrefixBinary <= text) by {
        assert text[0] == 'X';
      }
      PrefixCancels(LiteralPrefixShortBinary, q);
      QuotesRoundTrip(core);
    }
    if RemoveBinaryMarkup(text) == Some(core) {
      if TryRemovePrefix(LiteralPrefixBinary, text).Some? {
        assert TryRemovePrefix(LiteralPrefixBinary, text).value == q;
      } else {
        assert TryRemovePrefix(LiteralPrefixShortBinary, text).value == q;
      }
    }
  }

  /** The parser kinds that use the base class's stripper. */
  predicate UsesBaseStripper(kind: ParserKind) {
    kind == DecimalParser || kind == DelegatingParser
  }

  /** The literal a producer writes with descriptor `p` for canonical text `core` (binary in its long form). */
  function DescriptorLiteral(p: PrimitiveParser, core: string): string {
    match p.kind
    case BinaryParser => LiteralPrefixBinary + [Quote] + core + [Quote]
    case StringParser => [Quote] + core + [Quote]
    case _ =>
      if p.prefix.Some? then p.prefix.value + [Quote] + core + [Quote]
      else if ValueOfTypeCanContainQuotes(p.expectedType) then [Quote] + core + [Quote]
      else if p.suffix.Some? then core + p.suffix.value
      else core
  }

  /** The literal a producer writes for canonical text `core` of type `tag`. */
  function Literal(tag: TypeTag, core: string): string {
    DescriptorLiteral(Parsers(tag), core)
  }

  /** The canonical texts `Literal` can be used with: suffixed types need a core that trimming keeps. */
  predicate IsCanonical(tag: TypeTag, core: string) {
    Parsers(tag).suffix.Some? ==> IsSuffixableCore(core)
  }

  lemma SuffixesAreSolid(tag: TypeTag)
    requires Parsers(tag).suffix.Some?
    ensures IsSolidSuffix(Parsers(tag).suffix.value)
  {
  }

  lemma EqualsIgnoreCaseIsReflexive(s: string)
    ensures EqualsIgnoreCase(s, s)
  {
  }

  /** Any well-formed descriptor strips the literal it describes back to its core. */
  lemma DescriptorRoundTrip(p: PrimitiveParser, core: string)
    requires WellFormed(p)
    requires !(ValueOfTypeCanContainQuotes(p.expectedType) && p.suffix.Some?)
    requires p.suffix.Some? ==> IsSolidSuffix(p.suffix.value) && IsSuffixableCore(core)
    ensures RemoveFormatting(p, DescriptorLiteral(p, core)) == Some(core)
  {
    var text := DescriptorLiteral(p, core);
    match p.kind {
      case BinaryParser =>
        BinaryMarkup(text, core);
      case StringParser =>
        QuotesRoundTrip(core);
      case _ =>
        if p.prefix.Some? {
          PrefixedMarkup(p, text, core);
        } else if ValueOfTypeCanContainQuotes(p.expectedType) {
          QuotedMarkup(p, text, core);
        } else if p.suffix.Some? {
          EqualsIgnoreCaseIsReflexive(p.suffix.value);
          SuffixedMarkupComplete(p, [], core, p.suffix.value, []);
          assert [] + core + p.suffix.value + [] == text;
        } else {
          PlainMarkup(p, core);
        }
    }
  }

  /** Stripping the formatting of the literal written for a canonical core gives the core back. */
  lemma FormattingRoundTrip(tag: TypeTag, core: string)
    requires IsCanonical(tag, core)
    ensures RemoveFormatting(Parsers(tag), Literal(tag, core)) == Some(core)
  {
    LiteralGrammar(tag);
    if Parsers(tag).suffix.Some? {
      SuffixesAreSolid(tag);
    }
    DescriptorRoundTrip(Parsers(tag), core);
  }

  /** What a well-formed descriptor accepts, by the markup it has. */
  lemma DescriptorSound(p: PrimitiveParser, text: string, core: string)
    requires WellFormed(p) && RemoveFormatting(p, text) == Some(core)
    ensures p.kind == BinaryParser ==>
      text == LiteralPrefixBinary + [Quote] + core + [Quote] || text == LiteralPrefixShortBinary + [Quote] + core + [Quote]
    ensures p.kind == StringParser ==> text == [Quote] + core + [Quote]
    ensures UsesBaseStripper(p.kind) && p.prefix.Some? ==> text == p.prefix.value + [Quote] + core + [Quote]
    ensures UsesBaseStripper(p.kind) && p.prefix.None? && p.suffix.None? && ValueOfTypeCanContainQuotes(p.expectedType) ==>
      text == [Quote] + core + [Quote]
    ensures UsesBaseStripper(p.kind) && p.suffix.Some? && !ValueOfTypeCanContainQuotes(p.expectedType) ==>
      || (core != [] && core <= Trim(text) && EqualsIgnoreCase(Trim(text)[|core|..], p.suffix.value))
      || (!p.suffixRequired && core == Trim(text))
    ensures UsesBaseStripper(p.kind) && p.prefix.None? && p.suffix.None? && !ValueOfTypeCanContainQuotes(p.expectedType) ==>
      core == text
  {
    match p.kind {
      case BinaryParser =>
        BinaryMarkup(text, core);
      case StringParser =>
        assert TryRemoveQuotes(text) == Some(core);
      case _ =>
        if p.prefix.Some? {
          PrefixedMarkup(p, text, core);
        } else if p.suffix.Some? {
          if !ValueOfTypeCanContainQuotes(p.expectedType) {
            SuffixedMarkupSound(p, text);
          }
        } else if ValueOfTypeCanContainQuotes(p.expectedType) {
          QuotedMarkup(p, text, core);
        } else {
          PlainMarkup(p, text);
        }
    }
  }

  /**
    Everything the stripper accepts has the shape the grammar gives its type:
    prefix and quotes, quotes alone, a core followed by the suffix (in either
    case, after trimming), or, for Double only, the trimmed text without a
    suffix; markup-free types pass the text on unchanged.
  */
  lemma FormattingSound(tag: TypeTag, text: string, core: string)
    requires RemoveFormatting(Parsers(tag), text) == Some(core)
    ensures tag == ByteArray ==>
      text == LiteralPrefixBinary + [Quote] + core + [Quote] || text == LiteralPrefixShortBinary + [Quote] + core + [Quote]
    ensures IsPrefixedTag(tag) ==> text == Parsers(tag).prefix.value + [Quote] + core + [Quote]
    ensures ValueOfTypeCanContainQuotes(tag) ==> text == [Quote] + core + [Quote]
    ensures Parsers(tag).suffix.Some? ==>
      || (core != [] && core <= Trim(text) && EqualsIgnoreCase(Trim(text)[|core|..], Parsers(tag).suffix.value))
      || (tag == Double && core == Trim(text))
    ensures IsPlainTag(tag) ==> core == text
  {
    LiteralGrammar(tag);
    DescriptorSound(Parsers(tag), text, core);
  }

  /** Int64, Single and Decimal literals fail without their suffix; Double literals are then only trimmed. */
  lemma MissingSuffix(tag: TypeTag, text: string)
    requires Parsers(tag).suffix.Some? && !EndsWithIgnoreCase(Trim(text), Parsers(tag).suffix.value)
    ensures RemoveFormatting(Parsers(tag), text) == if tag == Double then Some(Trim(text)) else None
  {
    LiteralGrammar(tag);
    SuffixedMarkupSound(Parsers(tag), text);
  }

  /** StringPrimitiveParser's override strips exactly what the base class would for the String entry. */
  lemma StringOverrideAgrees(text: string)
    ensures RemoveFormatting(Parsers(String), text) == RemoveMarkup(Parsers(String), text)
  {
  }

  // ---------------------------------------------------------------------------
  // Conversion

  /** A value computed by a conversion routine that is not part of this model (XmlConvert, Decimal.TryParse, the spatial parser). */
  type Datum(==)

  /** How a foreign conversion routine ends: with a value, a FormatException, or any other exception. */
  datatype Conversion = Converted(datum: Datum) | FormatException | OtherException

  /**
    The conversion routines the table delegates to: XmlConvert.ToBoolean,
    ToByte, ..., ToDateTime(RoundtripKind), XElement.Parse (by expected type),
    and Decimal.TryParse(text, NumberStyles.Float, InvariantInfo).
  */
  datatype Converters = Converters(
    xmlConvert: (TypeTag, string) -> Conversion,
    decimalTryParse: string -> Option<Datum>)

  /** A typed value produced by the codec. */
  datatype Value =
    | Bytes(bytes: seq<byte>)          // byte[]
    | Text(text: string)               // string
    | Scalar(tag: TypeTag, datum: Datum)  // a value converted by a foreign routine
    | Binary(binary: seq<byte>)        // System.Data.Linq.Binary, a wrapper around bytes
    | Geo(spatialType: string, shape: Datum)  // a geometry or geography value

  /** Why a parse did not produce a value. */
  datatype ParseError =
    | FormatMismatch     // TryRemoveFormatting returned false
    | PayloadMalformed   // TryConvert returned false
    | UnsupportedType    // the type is not a key of Parsers: the dictionary lookup throws
    | UncaughtException  // the conversion routine threw something other than FormatException
    | SpatialRejected    // the well-known-text parser returned false

  datatype ParseResult = Ok(value: Value) | Err(error: ParseError)

  /** The runtime type of a value agrees with a table type. */
  predicate HasType(v: Value, tag: TypeTag) {
    match tag
    case ByteArray => v.Bytes?
    case String => v.Text?
    case _ => v.Scalar? && v.tag == tag
  }

  /**
    DecimalPrimitiveParser.ConvertDecimal: XmlConvert.ToDecimal first; only on a
    FormatException, Decimal.TryParse with exponential notation allowed; when
    that fails too, the FormatException is rethrown.
  */
  function ConvertDecimal(conv: Converters, text: string): (c: Conversion)
    ensures conv.xmlConvert(Decimal, text).Converted? ==> c == conv.xmlConvert(Decimal, text)
    ensures conv.xmlConvert(Decimal, text).OtherException? ==> c.OtherException?
    ensures conv.xmlConvert(Decimal, text).FormatException? ==>
      (c.Converted? <==> conv.decimalTryParse(text).Some?) && !c.OtherException?
    ensures conv.xmlConvert(Decimal, text).FormatException? && c.Converted? ==>
      c.datum == conv.decimalTryParse(text).value
  {
    match conv.xmlConvert(Decimal, text)
    case FormatException =>
      (match conv.decimalTryParse(text)
       case Some(d) => Converted(d)
       case None => FormatException)
    case other => other
  }

  /** DelegatingPrimitiveParser.TryConvert: only a FormatException is caught and turned into false. */
  function FromConversion(tag: TypeTag, c: Conversion): (r: ParseResult)
    ensures r.Ok? <==> c.Converted?
    ensures r.Ok? ==> r.value == Scalar(tag, c.datum)
    ensures r == Err(PayloadMalformed) <==> c.FormatException?
  {
    match c
    case Converted(d) => Ok(Scalar(tag, d))
    case FormatException => Err(PayloadMalformed)
    case OtherException => Err(UncaughtException)
  }

  /**
    Parsers[tag].TryConvert on text whose formatting is already removed. The
    value has the entry's type; binary text is decoded as hexadecimal and
    string text is returned as it is.
  */
  function TryConvert(conv: Converters, tag: TypeTag, text: string): (r: ParseResult)
    ensures r.Ok? ==> HasType(r.value, tag)
    ensures r.Err? ==> r.error == PayloadMalformed || r.error == UncaughtException
    ensures tag == ByteArray ==> (r.Ok? <==> HexBinary.IsHexText(text))
    ensures tag == ByteArray && r.Ok? ==> HexBinary.HexDecode(text) == Some(r.value.bytes)
    ensures tag == String ==> r == Ok(Text(text))
    ensures tag == Decimal ==> r == FromConversion(Decimal, ConvertDecimal(conv, text))
    ensures tag != ByteArray && tag != String && tag != Decimal ==> r == FromConversion(tag, conv.xmlConvert(tag, text))
  {
    match Parsers(tag).kind
    case BinaryParser =>
      (match HexBinary.HexDecode(text)
       case Some(bytes) => Ok(Bytes(bytes))
       case None => Err(PayloadMalformed))
    case StringParser => Ok(Text(text))
    case DecimalParser => FromConversion(tag, ConvertDecimal(conv, text))
    case DelegatingParser => FromConversion(tag, conv.xmlConvert(tag, text))
  }
}
