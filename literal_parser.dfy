/**
  The three literal-parsing policies of LiteralParser.cs and the selectors that
  hand them out: the default policy (type markers and quotes, with arbitrary
  literals accepted in binary form), the policy with spatial support used for
  expression constants, and the keys-as-segments policy (no markup at all).
*/
module LiteralParser {
  import opened Common
  import opened WebText
  import opened PrimitiveParsers
  import HexBinary

  /** The CLR type a caller asks a literal to be parsed as. */
  datatype TargetType =
    | Primitive(tag: TypeTag)          // a key of the Parsers table
    | NullableOf(underlying: TypeTag)  // Nullable<T> of a value type T
    | LinqBinary                       // System.Data.Linq.Binary
    | SpatialType(name: string)        // a geography or geometry type

  /** `Nullable.GetUnderlyingType(type) ?? type`: one level of Nullable removed, anything else kept. */
  function UnderlyingType(t: TargetType): (u: TargetType)
    ensures !u.NullableOf?
    ensures t.NullableOf? ==> u == Primitive(t.underlying)
    ensures !t.NullableOf? ==> u == t
  {
    match t
    case NullableOf(tag) => Primitive(tag)
    case _ => t
  }

  /** The runtime type of a value agrees with the requested type, Nullable<T> standing for T. */
  predicate HasTargetType(v: Value, t: TargetType) {
    match t
    case Primitive(tag) => HasType(v, tag)
    case NullableOf(tag) => HasType(v, tag)
    case LinqBinary => v.Binary?
    case SpatialType(name) => v.Geo? && v.spatialType == name
  }

  /**
    The routines the policies call that are not part of this model: the table's
    conversion routines, Encoding.UTF8.GetString, and
    WellKnownTextParser.TryParseSpatialLiteral (by spatial type name).
  */
  datatype Library = Library(
    converters: Converters,
    utf8GetString: seq<byte> -> string,
    wellKnownText: (string, string) -> Option<Datum>)

  /**
    DefaultLiteralParser.TryRemoveFormattingAndConvert: look the type up in
    Parsers (a type that is not a key makes the lookup throw), strip, convert.
  */
  function TryRemoveFormattingAndConvert(conv: Converters, text: string, t: TargetType): (r: ParseResult)
    ensures !t.Primitive? ==> r == Err(UnsupportedType)
    ensures t.Primitive? ==> (r == Err(FormatMismatch) <==> RemoveFormatting(Parsers(t.tag), text).None?)
    ensures t.Primitive? && r.Ok? ==> HasType(r.value, t.tag)
  {
    match t
    case Primitive(tag) =>
      (match RemoveFormatting(Parsers(tag), text)
       case None => Err(FormatMismatch)
       case Some(core) => TryConvert(conv, tag, core))
    case _ => Err(UnsupportedType)
  }

  /**
    DefaultLiteralParser.TryParseLiteral. The text is first tried as a binary
    literal whatever type is asked for. If it is one, a byte[] or Binary target
    gets the bytes, and any other target gets the bytes read as UTF-8 and then
    stripped and converted once, with no second binary attempt. If it is not,
    byte[] and Binary fail and every other type strips and converts the text.
  */
  function DefaultTryParseLiteral(lib: Library, targetType: TargetType, text: string): (r: ParseResult)
    ensures r.Ok? ==> HasTargetType(r.value, targetType)
  {
    var t := UnderlyingType(targetType);
    var binaryResult := TryRemoveFormattingAndConvert(lib.converters, text, Primitive(ByteArray));
    if binaryResult.Ok? then
      var byteArrayValue := binaryResult.value.bytes;
      if t == Primitive(ByteArray) then Ok(Bytes(byteArrayValue))
      else if t == LinqBinary then Ok(Binary(byteArrayValue))
      else TryRemoveFormattingAndConvert(lib.converters, lib.utf8GetString(byteArrayValue), t)
    else if t == Primitive(ByteArray) || t == LinqBinary then Err(binaryResult.error)
    else TryRemoveFormattingAndConvert(lib.converters, text, t)
  }

  /**
    LiteralParserWithSpatialSupport.TryParseLiteral: spatial types go to the
    well-known-text parser unchanged; everything else to the default policy.
  */
  function SpatialTryParseLiteral(lib: Library, targetType: TargetType, text: string): (r: ParseResult)
    ensures r.Ok? ==> HasTargetType(r.value, targetType)
  {
    if targetType.SpatialType? then
      match lib.wellKnownText(targetType.name, text)
      case Some(shape) => Ok(Geo(targetType.name, shape))
      case None => Err(SpatialRejected)
    else DefaultTryParseLiteral(lib, targetType, text)
  }

  /**
    KeysAsSegmentsLiteralParser.UnescapeLeadingDollarSign: one leading '$' is
    removed when the text is longer than one character; otherwise the text is
    kept.
  */
  function UnescapeLeadingDollarSign(text: string): (r: string)
    ensures |text| > 1 && text[0] == '$' ==> ['$'] + r == text
    ensures !(|text| > 1 && text[0] == '$') ==> r == text
  {
    if |text| > 1 && text[0] == '$' then
      assert ['$'] + text[1..] == text;
      text[1..]
    else text
  }

  /**
    KeysAsSegmentsLiteralParser.TryParseLiteral: unescape, then convert
    directly with the table's converter: no prefix, quotes or suffix are
    removed and there is no binary fallback. A Binary target takes the byte[]
    converter; when that fails, the lookup of Binary in Parsers throws.
  */
  function KeysAsSegmentsTryParseLiteral(lib: Library, targetType: TargetType, text: string): (r: ParseResult)
    ensures r.Ok? ==> HasTargetType(r.value, targetType)
  {
    var unescaped := UnescapeLeadingDollarSign(text);
    var t := UnderlyingType(targetType);
    if t == LinqBinary && TryConvert(lib.converters, ByteArray, unescaped).Ok? then
      Ok(Binary(TryConvert(lib.converters, ByteArray, unescaped).value.bytes))
    else if t.Primitive? then TryConvert(lib.converters, t.tag, unescaped)
    else Err(UnsupportedType)
  }

  /** The three singleton LiteralParser instances. */
  datatype Policy = DefaultPolicy | SpatialPolicy | KeysAsSegmentsPolicy

  /** LiteralParser.TryParseLiteral, dispatched on the instance. */
  function TryParseLiteral(policy: Policy, lib: Library, targetType: TargetType, text: string): (r: ParseResult)
    ensures r.Ok? ==> HasTargetType(r.value, targetType)
  {
    match policy
    case DefaultPolicy => DefaultTryParseLiteral(lib, targetType, text)
    case SpatialPolicy => SpatialTryParseLiteral(lib, targetType, text)
    case KeysAsSegmentsPolicy => KeysAsSegmentsTryParseLiteral(lib, targetType, text)
  }

  /** LiteralParser.ForExpressions: the instance for filter and orderby constants and operation parameters. */
  function ForExpressions(): Policy {
    SpatialPolicy
  }

  /** LiteralParser.ForETags. */
  function ForETags(): Policy {
    DefaultPolicy
  }

  /** LiteralParser.ForKeys. */
  function ForKeys(keyAsSegment: bool): Policy {
    if keyAsSegment then KeysAsSegmentsPolicy else DefaultPolicy
  }

  // ---------------------------------------------------------------------------
  // Properties of the policies

  /** Keys in segments get the segment policy; other keys and ETags the default; expressions the spatial one. */
  lemma Selectors()
    ensures ForKeys(true) == KeysAsSegmentsPolicy
    ensures ForKeys(false) == ForETags() == DefaultPolicy
    ensures ForExpressions() == SpatialPolicy
  {
  }

  /** A binary literal in either form, around any hex text. */
  function BinaryLiteral(prefix: string, hex: string): string {
    prefix + [Quote] + hex + [Quote]
  }

  predicate IsBinaryPrefix(prefix: string) {
    prefix == LiteralPrefixBinary || prefix == LiteralPrefixShortBinary
  }

  lemma BinaryAttempt(conv: Converters, prefix: string, hex: string)
    requires IsBinaryPrefix(prefix) && HexBinary.IsHexText(hex)
    ensures TryRemoveFormattingAndConvert(conv, BinaryLiteral(prefix, hex), Primitive(ByteArray))
      == Ok(Bytes(HexBinary.HexDecode(hex).value))
  {
    BinaryMarkup(BinaryLiteral(prefix, hex), hex);
  }

  /**
    A binary literal under the default policy: byte[] and Binary get the decoded
    bytes, every other type gets the UTF-8 text of the bytes stripped and
    converted exactly once.
  */
  lemma DefaultBinaryLiteral(lib: Library, targetType: TargetType, prefix: string, hex: string)
    requires IsBinaryPrefix(prefix) && HexBinary.IsHexText(hex)
    ensures var bytes := HexBinary.HexDecode(hex).value;
      DefaultTryParseLiteral(lib, targetType, BinaryLiteral(prefix, hex)) ==
        match UnderlyingType(targetType)
        case Primitive(ByteArray) => Ok(Bytes(bytes))
        case LinqBinary => Ok(Binary(bytes))
        case t => TryRemoveFormattingAndConvert(lib.converters, lib.utf8GetString(bytes), t)
  {
    BinaryAttempt(lib.converters, prefix, hex);
  }

  /**
    The binary re-encoding of any value: the hexadecimal text of its bytes in a
    binary literal is read back as those bytes, or, for any other type, as the
    conversion of their UTF-8 text.
  */
  lemma DefaultBinaryReencoding(lib: Library, targetType: TargetType, bytes: seq<byte>)
    ensures DefaultTryParseLiteral(lib, targetType, BinaryLiteral(LiteralPrefixShortBinary, HexBinary.HexText(bytes))) ==
      match UnderlyingType(targetType)
      case Primitive(ByteArray) => Ok(Bytes(bytes))
      case LinqBinary => Ok(Binary(bytes))
      case t => TryRemoveFormattingAndConvert(lib.converters, lib.utf8GetString(bytes), t)
  {
    HexBinary.HexRoundTrip(bytes);
    DefaultBinaryLiteral(lib, targetType, LiteralPrefixShortBinary, HexBinary.HexText(bytes));
  }

  /**
    The fallback is one level deep: when the UTF-8 text of the bytes is itself
    a binary literal, the Int32 converter receives that text verbatim.
  */
  lemma FallbackIsSingleLevel(lib: Library, bytes: seq<byte>, inner: string)
    requires lib.utf8GetString(bytes) == BinaryLiteral(LiteralPrefixShortBinary, inner)
    ensures DefaultTryParseLiteral(lib, Primitive(Int32), BinaryLiteral(LiteralPrefixShortBinary, HexBinary.HexText(bytes)))
      == FromConversion(Int32, lib.converters.xmlConvert(Int32, BinaryLiteral(LiteralPrefixShortBinary, inner)))
  {
    DefaultBinaryReencoding(lib, Primitive(Int32), bytes);
    PlainMarkup(Parsers(Int32), lib.utf8GetString(bytes));
  }

  /**
    A byte[] or Binary target succeeds under the default policy only on a
    binary literal whose payload is hex text, and yields its decoded bytes.
  */
  lemma DefaultBinaryTargetNeedsBinaryLiteral(lib: Library, targetType: TargetType, text: string)
    requires UnderlyingType(targetType) == Primitive(ByteArray) || UnderlyingType(targetType) == LinqBinary
    requires DefaultTryParseLiteral(lib, targetType, text).Ok?
    ensures RemoveBinaryMarkup(text).Some?
    ensures var hex := RemoveBinaryMarkup(text).value;
      && (text == BinaryLiteral(LiteralPrefixBinary, hex) || text == BinaryLiteral(LiteralPrefixShortBinary, hex))
      && HexBinary.HexDecode(hex).Some?
      && DefaultTryParseLiteral(lib, targetType, text).value in
           {Bytes(HexBinary.HexDecode(hex).value), Binary(HexBinary.HexDecode(hex).value)}
  {
    var hex := RemoveBinaryMarkup(text).value;
    BinaryMarkup(text, hex);
  }

  /**
    Text that is not a binary literal with a hex payload: byte[] and Binary
    fail, every other type gets exactly the strip-and-convert of the text.
  */
  lemma DefaultNonBinaryLiteral(lib: Library, targetType: TargetType, text: string)
    requires RemoveBinaryMarkup(text).None? || !HexBinary.IsHexText(RemoveBinaryMarkup(text).value)
    ensures var t := UnderlyingType(targetType);
      if t == Primitive(ByteArray) || t == LinqBinary then DefaultTryParseLiteral(lib, targetType, text).Err?
      else DefaultTryParseLiteral(lib, targetType, text) == TryRemoveFormattingAndConvert(lib.converters, text, t)
  {
  }

  /** Text that starts with neither binary prefix is not a binary literal. */
  lemma NoBinaryPrefix(text: string)
    requires !(LiteralPrefixBinary <= text) && !(LiteralPrefixShortBinary <= text)
    ensures RemoveBinaryMarkup(text).None?
  {
  }

  /** Text whose first character is neither 'b' nor 'X' is not a binary literal. */
  lemma NotBinaryByFirstChar(text: string)
    requires text != [] && text[0] != 'b' && text[0] != 'X'
    ensures RemoveBinaryMarkup(text).None?
  {
    assert !(LiteralPrefixBinary <= text) by {
      assert LiteralPrefixBinary[0] == 'b';
    }
    assert !(LiteralPrefixShortBinary <= text) by {
      assert LiteralPrefixShortBinary[0] == 'X';
    }
    NoBinaryPrefix(text);
  }

  /** Every policy treats Nullable<T> as T. */
  lemma NullableIsUnwrapped(policy: Policy, lib: Library, tag: TypeTag, text: string)
    ensures TryParseLiteral(policy, lib, NullableOf(tag), text) == TryParseLiteral(policy, lib, Primitive(tag), text)
  {
  }

  /** The default and segment policies reject spatial types as not in the table. */
  lemma SpatialTypeNotInTable(lib: Library, name: string, text: string)
    ensures DefaultTryParseLiteral(lib, SpatialType(name), text) == Err(UnsupportedType)
    ensures KeysAsSegmentsTryParseLiteral(lib, SpatialType(name), text) == Err(UnsupportedType)
  {
  }

  /** Expression constants of non-spatial types parse exactly as ETags do. */
  lemma ExpressionsOtherwiseDefault(lib: Library, targetType: TargetType, text: string)
    requires !targetType.SpatialType?
    ensures TryParseLiteral(ForExpressions(), lib, targetType, text) == TryParseLiteral(ForETags(), lib, targetType, text)
  {
  }

  /** Spatial expression constants are the well-known-text parser's result and nothing else. */
  lemma ExpressionsDelegateSpatial(lib: Library, name: string, text: string)
    ensures TryParseLiteral(ForExpressions(), lib, SpatialType(name), text).Ok?
      <==> lib.wellKnownText(name, text).Some?
    ensures lib.wellKnownText(name, text).Some? ==>
      TryParseLiteral(ForExpressions(), lib, SpatialType(name), text) == Ok(Geo(name, lib.wellKnownText(name, text).value))
  {
  }

  /** Keys in segments: strings are the unescaped text as it is, quotes included. */
  lemma SegmentString(lib: Library, text: string)
    ensures TryParseLiteral(ForKeys(true), lib, Primitive(String), text) == Ok(Text(UnescapeLeadingDollarSign(text)))
  {
  }

  /** Keys in segments: byte[] is the bare hex text, without prefix or quotes. */
  lemma SegmentBinary(lib: Library, text: string)
    ensures TryParseLiteral(ForKeys(true), lib, Primitive(ByteArray), text).Ok?
      <==> HexBinary.IsHexText(UnescapeLeadingDollarSign(text))
    ensures HexBinary.IsHexText(UnescapeLeadingDollarSign(text)) ==>
      TryParseLiteral(ForKeys(true), lib, Primitive(ByteArray), text)
        == Ok(Bytes(HexBinary.HexDecode(UnescapeLeadingDollarSign(text)).value))
  {
  }

  /** Keys in segments: a Binary key that is not hex text ends in the failed lookup of Binary in the table. */
  lemma SegmentLinqBinary(lib: Library, text: string)
    ensures KeysAsSegmentsTryParseLiteral(lib, LinqBinary, text) ==
      if HexBinary.IsHexText(UnescapeLeadingDollarSign(text))
      then Ok(Binary(HexBinary.HexDecode(UnescapeLeadingDollarSign(text)).value))
      else Err(UnsupportedType)
  {
  }

  /**
    Keys in segments: every other type's converter receives the unescaped text
    with nothing stripped; Decimal goes through ConvertDecimal's lenient retry.
  */
  lemma SegmentConvertsVerbatim(lib: Library, tag: TypeTag, text: string)
    requires tag != ByteArray && tag != String
    ensures tag != Decimal ==>
      TryParseLiteral(ForKeys(true), lib, Primitive(tag), text)
        == FromConversion(tag, lib.converters.xmlConvert(tag, UnescapeLeadingDollarSign(text)))
    ensures tag == Decimal ==>
      TryParseLiteral(ForKeys(true), lib, Primitive(tag), text)
        == FromConversion(Decimal, ConvertDecimal(lib.converters, UnescapeLeadingDollarSign(text)))
  {
    LiteralGrammar(tag);
  }

  /**
    Re-encoding is idempotent: when the UTF-8 bytes of a text that is not
    itself a binary literal are sent again in binary form, every non-binary
    type reads the same result as from the text itself.
  */
  lemma BinaryFallbackIdempotent(lib: Library, targetType: TargetType, text: string, bytes: seq<byte>)
    requires lib.utf8GetString(bytes) == text
    requires RemoveBinaryMarkup(text).None? || !HexBinary.IsHexText(RemoveBinaryMarkup(text).value)
    requires UnderlyingType(targetType) != Primitive(ByteArray) && UnderlyingType(targetType) != LinqBinary
    ensures DefaultTryParseLiteral(lib, targetType, BinaryLiteral(LiteralPrefixShortBinary, HexBinary.HexText(bytes)))
      == DefaultTryParseLiteral(lib, targetType, text)
  {
    DefaultBinaryReencoding(lib, targetType, bytes);
    DefaultNonBinaryLiteral(lib, targetType, text);
  }

  /** A text that is no binary literal and strips to `core` is converted from `core`. */
  lemma DefaultStripsTo(lib: Library, tag: TypeTag, text: string, core: string)
    requires tag != ByteArray && RemoveBinaryMarkup(text).None?
    requires RemoveFormatting(Parsers(tag), text) == Some(core)
    ensures DefaultTryParseLiteral(lib, Primitive(tag), text) == TryConvert(lib.converters, tag, core)
  {
  }

  /** A text that is no binary literal and that the stripper of `tag` rejects is a format mismatch. */
  lemma DefaultRejects(lib: Library, tag: TypeTag, text: string)
    requires tag != ByteArray && RemoveBinaryMarkup(text).None?
    requires RemoveFormatting(Parsers(tag), text).None?
    ensures DefaultTryParseLiteral(lib, Primitive(tag), text) == Err(FormatMismatch)
  {
  }

  /** Text without whitespace at either end is its own trimmed form. */
  lemma TrimmedText(s: string)
    requires IsTrimmed(s)
    ensures Trim(s) == s
  {
    TrimPadded([], s, []);
    assert [] + s + [] == s;
  }

  /**
    A number followed by its type's suffix, written in either case, is the
    conversion of the number: "123L" and "123l" are the Int64 converted from
    "123", "1.5D" is the Double of "1.5", "3.14M" the decimal of "3.14".
  */
  lemma DefaultSuffixedNumber(lib: Library, tag: TypeTag, number: string, written: string)
    requires Parsers(tag).suffix.Some? && EqualsIgnoreCase(written, Parsers(tag).suffix.value)
    requires IsSuffixableCore(number) && number[0] != 'b' && number[0] != 'X'
    ensures DefaultTryParseLiteral(lib, Primitive(tag), number + written) == TryConvert(lib.converters, tag, number)
  {
    SuffixedNumberMarkup(tag, number, written);
    LiteralGrammar(tag);
    DefaultStripsTo(lib, tag, number + written, number);
  }

  lemma SuffixedNumberMarkup(tag: TypeTag, number: string, written: string)
    requires Parsers(tag).suffix.Some? && EqualsIgnoreCase(written, Parsers(tag).suffix.value)
    requires IsSuffixableCore(number) && number[0] != 'b' && number[0] != 'X'
    ensures RemoveBinaryMarkup(number + written).None?
    ensures RemoveFormatting(Parsers(tag), number + written) == Some(number)
  {
    LiteralGrammar(tag);
    SuffixesAreSolid(tag);
    SuffixedMarkupComplete(Parsers(tag), [], number, written, []);
    assert [] + number + written + [] == number + written;
    NotBinaryByFirstChar(number + written);
  }

  /**
    A number without its type's suffix: Double, whose suffix is optional,
    converts it as it is; every type whose suffix is required rejects it, so
    "123" is no Int64.
  */
  lemma DefaultUnsuffixedNumber(lib: Library, tag: TypeTag, number: string)
    requires Parsers(tag).suffix.Some? && !EndsWithIgnoreCase(number, Parsers(tag).suffix.value)
    requires number != [] && IsTrimmed(number) && number[0] != 'b' && number[0] != 'X'
    ensures DefaultTryParseLiteral(lib, Primitive(tag), number) ==
      if tag == Double then TryConvert(lib.converters, Double, number) else Err(FormatMismatch)
  {
    LiteralGrammar(tag);
    TrimmedText(number);
    MissingSuffix(tag, number);
    NotBinaryByFirstChar(number);
    if tag == Double {
      DefaultStripsTo(lib, tag, number, number);
    } else {
      DefaultRejects(lib, tag, number);
    }
  }

  /** A binary literal whose payload is not hex text is a malformed payload for byte[] and Binary. */
  lemma DefaultMalformedBinary(lib: Library, targetType: TargetType, prefix: string, hex: string)
    requires IsBinaryPrefix(prefix) && !HexBinary.IsHexText(hex)
    requires UnderlyingType(targetType) == Primitive(ByteArray) || UnderlyingType(targetType) == LinqBinary
    ensures DefaultTryParseLiteral(lib, targetType, BinaryLiteral(prefix, hex)) == Err(PayloadMalformed)
  {
    BinaryMarkup(BinaryLiteral(prefix, hex), hex);
    LiteralGrammar(ByteArray);
  }

  /** A guid literal is its prefix and any guid text in quotes; the text goes to the converter as it is. */
  lemma QuotedGuid(lib: Library, g: string)
    ensures DefaultTryParseLiteral(lib, Primitive(Guid), LiteralPrefixGuid + [Quote] + g + [Quote])
      == FromConversion(Guid, lib.converters.xmlConvert(Guid, g))
  {
    var quoted := LiteralPrefixGuid + [Quote] + g + [Quote];
    assert quoted[0] == 'g';
    NotBinaryByFirstChar(quoted);
    FormattingRoundTrip(Guid, g);
    assert Literal(Guid, g) == quoted;
    DefaultStripsTo(lib, Guid, quoted, g);
    LiteralGrammar(Guid);
  }

  /** A guid literal without its closing quote is rejected; nothing trims it first. */
  lemma UnclosedGuid(lib: Library, g: string)
    requires g == [] || g[|g| - 1] != Quote
    ensures DefaultTryParseLiteral(lib, Primitive(Guid), LiteralPrefixGuid + [Quote] + g) == Err(FormatMismatch)
  {
    UnclosedGuidMarkup(g);
    DefaultRejects(lib, Guid, LiteralPrefixGuid + [Quote] + g);
  }

  lemma UnclosedGuidMarkup(g: string)
    requires g == [] || g[|g| - 1] != Quote
    ensures RemoveBinaryMarkup(LiteralPrefixGuid + [Quote] + g).None?
    ensures RemoveFormatting(Parsers(Guid), LiteralPrefixGuid + [Quote] + g).None?
  {
    var open := LiteralPrefixGuid + [Quote] + g;
    assert open[0] == 'g';
    NotBinaryByFirstChar(open);
    assert open == LiteralPrefixGuid + ([Quote] + g);
    PrefixCancels(LiteralPrefixGuid, [Quote] + g);
    assert TryRemoveQuotes([Quote] + g).None?;
  }

  /** Keys in segments: a leading "$$" stands for one dollar sign, so "$$literal" is the string "$literal". */
  lemma SegmentEscapedDollar(lib: Library, rest: string)
    ensures TryParseLiteral(ForKeys(true), lib, Primitive(String), "$$" + rest) == Ok(Text("$" + rest))
  {
    SegmentString(lib, "$$" + rest);
    assert ("$$" + rest)[1..] == "$" + rest;
  }
}
