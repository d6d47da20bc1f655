/**
  Text helpers the literal parser relies on: the WebConvert helpers that strip a
  prefix or surrounding quotes and recognise hexadecimal digits, and the two
  System.String operations it calls, Trim(char[]) and EndsWith(...,
  OrdinalIgnoreCase).

  WebConvert.cs is not part of this model; TryRemovePrefix, TryRemoveQuotes and
  IsCharHexDigit are given the simple behaviour their call sites rely on.
*/
module WebText {
  import opened Common

  /** The single quote that encloses quoted literals. */
  const Quote: char := '\''

  /** XmlWhitespaceChars of PrimitiveParser: space, tab, line feed, carriage return. */
  predicate IsXmlWhitespace(c: char) {
    c == ' ' || c == '\t' || c == '\n' || c == '\r'
  }

  predicate AllXmlWhitespace(s: string) {
    forall i :: 0 <= i < |s| ==> IsXmlWhitespace(s[i])
  }

  /** Neither end of `s` is whitespace: trimming leaves it as it is. */
  predicate IsTrimmed(s: string) {
    s == [] || (!IsXmlWhitespace(s[0]) && !IsXmlWhitespace(s[|s| - 1]))
  }

  /** The number of whitespace characters `s` starts with. */
  function LeadingWhitespace(s: string): (n: nat)
    ensures n <= |s|
    ensures forall i :: 0 <= i < n ==> IsXmlWhitespace(s[i])
    ensures n < |s| ==> !IsXmlWhitespace(s[n])
  {
    if s != [] && IsXmlWhitespace(s[0]) then 1 + LeadingWhitespace(s[1..]) else 0
  }

  /** The number of whitespace characters `s` ends with. */
  function TrailingWhitespace(s: string): (n: nat)
    ensures n <= |s|
    ensures forall i :: |s| - n <= i < |s| ==> IsXmlWhitespace(s[i])
    ensures n < |s| ==> !IsXmlWhitespace(s[|s| - n - 1])
  {
    if s != [] && IsXmlWhitespace(s[|s| - 1]) then 1 + TrailingWhitespace(s[..|s| - 1]) else 0
  }

  /**
    String.Trim(XmlWhitespaceChars): cuts the leading whitespace, then the
    trailing whitespace of what is left; the result neither starts nor ends
    with whitespace.
  */
  function Trim(s: string): (r: string)
    ensures IsTrimmed(r)
  {
    var i := LeadingWhitespace(s);
    s[i..|s| - TrailingWhitespace(s[i..])]
  }

  /** The trimmed text is a slice of `s`, and everything cut off on either side is whitespace. */
  lemma TrimSlice(s: string)
    ensures exists i :: (0 <= i <= |s| - |Trim(s)| && Trim(s) == s[i..i + |Trim(s)|]
      && AllXmlWhitespace(s[..i]) && AllXmlWhitespace(s[i + |Trim(s)|..]))
  {
    var i := LeadingWhitespace(s);
    var j := TrailingWhitespace(s[i..]);
    assert Trim(s) == s[i..|s| - j];
    assert AllXmlWhitespace(s[..i]);
    assert s[|s| - j..] == s[i..][|s[i..]| - j..];
  }

  lemma {:induction false} LeadingWhitespaceOf(pre: string, t: string)
    requires AllXmlWhitespace(pre)
    requires t == [] || !IsXmlWhitespace(t[0])
    ensures LeadingWhitespace(pre + t) == |pre|
  {
    if pre == [] {
      assert pre + t == t;
    } else {
      assert (pre + t)[1..] == pre[1..] + t;
      LeadingWhitespaceOf(pre[1..], t);
    }
  }

  lemma {:induction false} TrailingWhitespaceOf(t: string, post: string)
    requires AllXmlWhitespace(post)
    requires t == [] || !IsXmlWhitespace(t[|t| - 1])
    ensures TrailingWhitespace(t + post) == |post|
  {
    if post == [] {
      assert t + post == t;
    } else {
      var n := |post| - 1;
      assert (t + post)[..|t + post| - 1] == t + post[..n];
      TrailingWhitespaceOf(t, post[..n]);
    }
  }

  /** Trimming removes exactly the whitespace padding around a trimmed core. */
  lemma TrimPadded(pre: string, core: string, post: string)
    requires AllXmlWhitespace(pre) && AllXmlWhitespace(post)
    requires IsTrimmed(core)
    ensures Trim(pre + core + post) == core
  {
    var s := pre + core + post;
    if core == [] {
      assert s == (pre + post) + core;
      LeadingWhitespaceOf(pre + post, core);
      assert s[|s|..] == [];
    } else {
      assert s == pre + (core + post);
      LeadingWhitespaceOf(pre, core + post);
      assert s[|pre|..] == core + post;
      TrailingWhitespaceOf(core, post);
      assert s[|pre|..|s| - |post|] == core;
    }
  }

  /** Ordinal upper-casing of one character, restricted to ASCII letters. */
  function ToUpperAscii(c: char): (u: char)
    ensures !('a' <= u <= 'z')
    ensures !('a' <= c <= 'z') ==> u == c
    ensures 'a' <= c <= 'z' ==> u as int == c as int - 32
  {
    if 'a' <= c <= 'z' then (c as int - 'a' as int + 'A' as int) as char else c
  }

  /** StringComparison.OrdinalIgnoreCase equality. */
  predicate EqualsIgnoreCase(a: string, b: string) {
    |a| == |b| && forall i :: 0 <= i < |a| ==> ToUpperAscii(a[i]) == ToUpperAscii(b[i])
  }

  /** String.EndsWith(suffix, StringComparison.OrdinalIgnoreCase). */
  predicate EndsWithIgnoreCase(s: string, suffix: string) {
    |suffix| <= |s| && EqualsIgnoreCase(s[|s| - |suffix|..], suffix)
  }

  /**
    WebConvert.TryRemovePrefix: succeeds exactly when `text` starts with
    `prefix`, compared ordinally and case-sensitively, and then yields what
    follows it.
  */
  function TryRemovePrefix(prefix: string, text: string): (r: Option<string>)
    ensures r.Some? <==> prefix <= text
    ensures r.Some? ==> text == prefix + r.value
  {
    if prefix <= text then
      assert text == prefix + text[|prefix|..];
      Some(text[|prefix|..])
    else None
  }

  /**
    WebConvert.TryRemoveQuotes: succeeds exactly when `text` has at least two
    characters and starts and ends with a single quote, and then yields what is
    between them.
  */
  function TryRemoveQuotes(text: string): (r: Option<string>)
    ensures r.Some? <==> 2 <= |text| && text[0] == Quote && text[|text| - 1] == Quote
    ensures r.Some? ==> text == [Quote] + r.value + [Quote]
  {
    if 2 <= |text| && text[0] == Quote && text[|text| - 1] == Quote then
      assert text == [Quote] + text[1..|text| - 1] + [Quote];
      Some(text[1..|text| - 1])
    else None
  }

  lemma QuotesRoundTrip(core: string)
    ensures TryRemoveQuotes([Quote] + core + [Quote]) == Some(core)
  {
    var text := [Quote] + core + [Quote];
    assert text[1..|text| - 1] == core;
  }

  /** WebConvert.IsCharHexDigit: [0-9a-fA-F]. */
  predicate IsCharHexDigit(c: char) {
    ('0' <= c <= '9') || ('a' <= c <= 'f') || ('A' <= c <= 'F')
  }
}
