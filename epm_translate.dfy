/**
  EpmTranslate: the translations between the syndication item properties of
  entity property mapping (Atom customisation) and their target-path strings,
  and between the text content kinds and their attribute values.
*/
module EpmTranslate {
  import opened Common

  /** SyndicationItemProperty, in declaration order (CustomProperty = 0 ... Title = 11). */
  datatype SyndicationItemProperty =
    | CustomProperty
    | AuthorEmail | AuthorName | AuthorUri
    | ContributorEmail | ContributorName | ContributorUri
    | Updated | Published | Rights | Summary | Title

  /** The enum's underlying value, `(int)property`. */
  function Ordinal(property: SyndicationItemProperty): (i: nat)
    ensures i < PropertyCount
  {
    match property
    case CustomProperty => 0
    case AuthorEmail => 1
    case AuthorName => 2
    case AuthorUri => 3
    case ContributorEmail => 4
    case ContributorName => 5
    case ContributorUri => 6
    case Updated => 7
    case Published => 8
    case Rights => 9
    case Summary => 10
    case Title => 11
  }

  const PropertyCount: nat := 12

  /** `typeof(SyndicationItemProperty).GetEnumValues()`: every value once, by ascending underlying value. */
  const EnumValues: seq<SyndicationItemProperty> := [
    CustomProperty, AuthorEmail, AuthorName, AuthorUri,
    ContributorEmail, ContributorName, ContributorUri,
    Updated, Published, Rights, Summary, Title]

  /** The enum values are listed once each, value i at position i. */
  lemma EnumValuesByOrdinal(property: SyndicationItemProperty)
    ensures |EnumValues| == PropertyCount
    ensures EnumValues[Ordinal(property)] == property
    ensures forall i :: 0 <= i < |EnumValues| ==> Ordinal(EnumValues[i]) == i
  {
  }

  /** syndicationItemToTargetPath, with the XmlConstants.Synd* values written out. */
  const SyndicationItemToTargetPath: seq<string> := [
    "",
    "SyndicationAuthorEmail",
    "SyndicationAuthorName",
    "SyndicationAuthorUri",
    "SyndicationContributorEmail",
    "SyndicationContributorName",
    "SyndicationContributorUri",
    "SyndicationUpdated",
    "SyndicationPublished",
    "SyndicationRights",
    "SyndicationSummary",
    "SyndicationTitle"]

  /** No two entries of `paths` are equal. */
  predicate Distinct(paths: seq<string>) {
    forall i, j :: 0 <= i < j < |paths| ==> paths[i] != paths[j]
  }

  /** The array has one entry per enum value, and no two entries are equal. */
  lemma TargetPathsDistinct()
    ensures |SyndicationItemToTargetPath| == PropertyCount
    ensures Distinct(SyndicationItemToTargetPath)
  {
    var t := SyndicationItemToTargetPath;
    forall i, j | 0 <= i < j < |t| ensures t[i] != t[j] {
      if i == 0 {
        assert |t[i]| == 0 < |t[j]|;
      } else if |t[i]| == |t[j]| {
        // entries of equal length differ at the position after "Syndication"
        assert t[i][11] != t[j][11] || t[i][17] != t[j][17];
      }
    }
  }

  /** The dictionary after the first `k` values have been added, each under the path at its position. */
  function PathsBelow(paths: seq<string>, values: seq<SyndicationItemProperty>, k: nat): map<string, SyndicationItemProperty>
    requires Distinct(paths) && |values| == |paths| && k <= |paths|
  {
    map i | 0 <= i < k :: paths[i] := values[i]
  }

  /** The next path is not yet a key, and adding it extends the dictionary by one entry. */
  lemma PathsBelowStep(paths: seq<string>, values: seq<SyndicationItemProperty>, k: nat)
    requires Distinct(paths) && |values| == |paths| && k < |paths|
    ensures paths[k] !in PathsBelow(paths, values, k)
    ensures PathsBelow(paths, values, k + 1) == PathsBelow(paths, values, k)[paths[k] := values[k]]
  {
    var before, after := PathsBelow(paths, values, k), PathsBelow(paths, values, k + 1);
    assert after.Keys == before.Keys + {paths[k]};
  }

  /** targetPathToSyndicationItem once the static constructor has run: each entry of the array maps to its enum value. */
  function TargetPathToSyndicationItem(): (m: map<string, SyndicationItemProperty>)
    ensures forall i :: 0 <= i < PropertyCount ==> SyndicationItemToTargetPath[i] in m
    ensures forall path :: path in m ==> exists i :: 0 <= i < PropertyCount && SyndicationItemToTargetPath[i] == path
  {
    TargetPathsDistinct();
    PathsBelow(SyndicationItemToTargetPath, EnumValues, PropertyCount)
  }

  /**
    The static constructor: adds every enum value under its array entry.
    Dictionary.Add throws on a key it already holds; the assertion before
    each addition proves that it never does.
  */
  method BuildTargetPathToSyndicationItem() returns (m: map<string, SyndicationItemProperty>)
    ensures m == TargetPathToSyndicationItem()
  {
    TargetPathsDistinct();
    m := map[];
    var values := EnumValues;
    var k := 0;
    while k < |values|
      invariant 0 <= k <= |values| == PropertyCount
      invariant m == PathsBelow(SyndicationItemToTargetPath, EnumValues, k)
    {
      var syndicationItem := values[k];
      EnumValuesByOrdinal(syndicationItem);
      var path := SyndicationItemToTargetPath[Ordinal(syndicationItem)];
      PathsBelowStep(SyndicationItemToTargetPath, EnumValues, k);
      assert path !in m;
      m := m[path := syndicationItem];
      k := k + 1;
    }
  }

  /** MapSyndicationPropertyToEpmTargetPath: the array entry at the enum's value. */
  function MapSyndicationPropertyToEpmTargetPath(property: SyndicationItemProperty): (path: string)
    ensures path == "" <==> property == CustomProperty
    ensures path in TargetPathToSyndicationItem()
  {
    TargetPathsDistinct();
    SyndicationItemToTargetPath[Ordinal(property)]
  }

  /** MapEpmTargetPathToSyndicationProperty: the dictionary's entry, or CustomProperty for a path it does not hold. */
  function MapEpmTargetPathToSyndicationProperty(targetPath: string): (property: SyndicationItemProperty)
    ensures targetPath !in TargetPathToSyndicationItem() ==> property == CustomProperty
  {
    var m := TargetPathToSyndicationItem();
    if targetPath in m then m[targetPath] else CustomProperty
  }

  /** Every property survives the translation to its target path and back. */
  lemma TargetPathRoundTrip(property: SyndicationItemProperty)
    ensures MapEpmTargetPathToSyndicationProperty(MapSyndicationPropertyToEpmTargetPath(property)) == property
  {
    EnumValuesByOrdinal(property);
  }

  /** A target path that names a property is that property's path; the empty path names CustomProperty. */
  lemma TargetPathRoundTripBack(targetPath: string)
    requires targetPath in TargetPathToSyndicationItem()
    ensures MapSyndicationPropertyToEpmTargetPath(MapEpmTargetPathToSyndicationProperty(targetPath)) == targetPath
  {
    var i :| 0 <= i < PropertyCount && SyndicationItemToTargetPath[i] == targetPath;
    EnumValuesByOrdinal(EnumValues[i]);
  }

  /** Any path that is no property's target path maps to CustomProperty. */
  lemma UnknownTargetPath(targetPath: string)
    requires forall p :: MapSyndicationPropertyToEpmTargetPath(p) != targetPath
    ensures MapEpmTargetPathToSyndicationProperty(targetPath) == CustomProperty
  {
    if targetPath in TargetPathToSyndicationItem() {
      TargetPathRoundTripBack(targetPath);
      assert false;
    }
  }

  // ---------------------------------------------------------------------------
  // Text content kinds

  datatype SyndicationTextContentKind = Plaintext | Html | Xhtml

  /** XmlConstants.SyndContentKindPlaintext, SyndContentKindHtml and SyndContentKindXHtml. */
  const SyndContentKindPlaintext: string := "text"
  const SyndContentKindHtml: string := "html"
  const SyndContentKindXHtml: string := "xhtml"

  /** MapSyndicationTextContentKindToEpmContentKind. */
  function MapSyndicationTextContentKindToEpmContentKind(contentKind: SyndicationTextContentKind): (s: string)
    ensures s in {SyndContentKindPlaintext, SyndContentKindHtml, SyndContentKindXHtml}
  {
    match contentKind
    case Plaintext => SyndContentKindPlaintext
    case Html => SyndContentKindHtml
    case Xhtml => SyndContentKindXHtml
  }

  /** The two messages of the InvalidOperationException an unknown content kind raises. */
  datatype InvalidContentKind =
    | InvalidValueForPropertyType(value: string, typeName: string)
    | InvalidValueForPropertyMember(value: string, memberName: string, typeName: string)

  datatype ContentKindResult = Kind(kind: SyndicationTextContentKind) | InvalidOperation(error: InvalidContentKind)

  /**
    MapEpmContentKindToSyndicationTextContentKind: an ordinal switch over the
    three attribute values; any other string raises, naming the member when
    there is one (`memberName` None stands for null).
  */
  function MapEpmContentKindToSyndicationTextContentKind(strContentKind: string, typeName: string, memberName: Option<string>): (r: ContentKindResult)
    ensures r.InvalidOperation? <==>
      strContentKind !in {SyndContentKindPlaintext, SyndContentKindHtml, SyndContentKindXHtml}
    ensures r.InvalidOperation? && memberName.None? ==>
      r.error == InvalidValueForPropertyType(strContentKind, typeName)
    ensures r.InvalidOperation? && memberName.Some? ==>
      r.error == InvalidValueForPropertyMember(strContentKind, memberName.value, typeName)
  {
    if strContentKind == SyndContentKindPlaintext then Kind(Plaintext)
    else if strContentKind == SyndContentKindHtml then Kind(Html)
    else if strContentKind == SyndContentKindXHtml then Kind(Xhtml)
    else
      InvalidOperation(
        match memberName
        case None => InvalidValueForPropertyType(strContentKind, typeName)
        case Some(member) => InvalidValueForPropertyMember(strContentKind, member, typeName))
  }

  /** Every content kind survives the translation to its string and back, whatever the type and member. */
  lemma ContentKindRoundTrip(contentKind: SyndicationTextContentKind, typeName: string, memberName: Option<string>)
    ensures MapEpmContentKindToSyndicationTextContentKind(
      MapSyndicationTextContentKindToEpmContentKind(contentKind), typeName, memberName) == Kind(contentKind)
  {
  }

  /** A string that is accepted is the string of the kind it yields. */
  lemma ContentKindRoundTripBack(strContentKind: string, typeName: string, memberName: Option<string>)
    requires MapEpmContentKindToSyndicationTextContentKind(strContentKind, typeName, memberName).Kind?
    ensures MapSyndicationTextContentKindToEpmContentKind(
      MapEpmContentKindToSyndicationTextContentKind(strContentKind, typeName, memberName).kind) == strContentKind
  {
  }

  /** The comparison is ordinal: "Text" is not a content kind. */
  lemma ContentKindIsCaseSensitive(typeName: string)
    ensures MapEpmContentKindToSyndicationTextContentKind("Text", typeName, None)
      == InvalidOperation(InvalidValueForPropertyType("Text", typeName))
  {
  }
}
