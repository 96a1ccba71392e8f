/** The container version: a string kept verbatim, accepted when it matches
    the semver pattern `^(0|[1-9]\d*)\.(0|[1-9]\d*)\.(0|[1-9]\d*)$`, and read
    back as a `(u32, u32, u32)` triple whenever it is compared. */
module FeaturesVersion {
  import opened Errors
  import opened Text
  import CoreVersion

  datatype Version = Version(text: string)

  /** `\d` of the regex crate is Unicode-aware: any decimal digit (general
      category Nd). ASCII digits plus a sample of other Nd blocks. */
  predicate IsUnicodeDigit(c: char)
  {
    IsAsciiDigit(c)
    || ('\U{0660}' <= c <= '\U{0669}')  // Arabic-Indic
    || ('\U{06F0}' <= c <= '\U{06F9}')  // Extended Arabic-Indic
    || ('\U{0966}' <= c <= '\U{096F}')  // Devanagari
    || ('\U{FF10}' <= c <= '\U{FF19}')  // Fullwidth
  }

  /** One field of the pattern: `0|[1-9]\d*`. */
  predicate NumericField(f: string)
  {
    f == "0" || (|f| >= 1 && '1' <= f[0] <= '9' && forall i :: 1 <= i < |f| ==> IsUnicodeDigit(f[i]))
  }

  /** The anchored pattern: three fields separated by two dots, nothing else. */
  predicate SemverFormat(s: string)
  {
    exists i, j :: 0 <= i < j < |s| && s[i] == '.' && s[j] == '.'
      && NumericField(s[..i]) && NumericField(s[i + 1..j]) && NumericField(s[j + 1..])
  }

  /** The same pattern stated over the '.'-separated pieces. */
  predicate ThreeNumericFields(s: string)
  {
    var p := Split(s, '.');
    |p| == 3 && NumericField(p[0]) && NumericField(p[1]) && NumericField(p[2])
  }

  lemma NumericFieldHasNoDot(f: string)
    requires NumericField(f)
    ensures '.' !in f
  {
    if f != "0" {
      assert forall i :: 0 <= i < |f| ==> f[i] != '.';
    }
  }

  /** A match of the pattern is three numeric fields joined by dots. */
  lemma PatternMatchSplits(s: string, i: int, j: int)
    requires 0 <= i < j < |s| && s[i] == '.' && s[j] == '.'
    requires NumericField(s[..i]) && NumericField(s[i + 1..j]) && NumericField(s[j + 1..])
    ensures ThreeNumericFields(s)
  {
    var a, b, c := s[..i], s[i + 1..j], s[j + 1..];
    NumericFieldHasNoDot(a);
    NumericFieldHasNoDot(b);
    NumericFieldHasNoDot(c);
    assert s == a + ['.'] + b + ['.'] + c;
    SplitThree(a, b, c, '.');
  }

  /** Three numeric fields joined by dots match the pattern. */
  lemma FieldsMatchPattern(a: string, b: string, c: string)
    requires NumericField(a) && NumericField(b) && NumericField(c)
    ensures SemverFormat(a + "." + b + "." + c)
  {
    var s := a + "." + b + "." + c;
    var i := |a|;
    var j := |a| + 1 + |b|;
    assert s[..i] == a;
    assert s[i + 1..j] == b;
    assert s[j + 1..] == c;
    assert s[i] == '.' && s[j] == '.';
  }

  /** The pattern matches exactly the strings that split into three numeric fields. */
  lemma SemverFormatIsThreeFields(s: string)
    ensures SemverFormat(s) <==> ThreeNumericFields(s)
  {
    if SemverFormat(s) {
      var i, j :| 0 <= i < j < |s| && s[i] == '.' && s[j] == '.'
        && NumericField(s[..i]) && NumericField(s[i + 1..j]) && NumericField(s[j + 1..]);
      PatternMatchSplits(s, i, j);
    }
    if ThreeNumericFields(s) {
      var p := Split(s, '.');
      SplitThreeJoin(s, '.');
      assert s == p[0] + "." + p[1] + "." + p[2];
      FieldsMatchPattern(p[0], p[1], p[2]);
    }
  }

  /** `validate_version_format`: `InvalidVersion` carrying the string unless it matches. */
  function ValidateVersionFormat(s: string): (r: Result<()>)
    ensures r.Ok? <==> ThreeNumericFields(s)
    ensures r.Err? ==> r.error == InvalidVersion(s)
  {
    SemverFormatIsThreeFields(s);
    if SemverFormat(s) then Ok(()) else Err(InvalidVersion(s))
  }

  /** `validate`: the stored string matches the pattern. */
  function Validate(v: Version): (r: Result<()>)
    ensures r.Ok? <==> SemverFormat(v.text)
    ensures r.Err? ==> r.error == InvalidVersion(v.text)
  {
    SemverFormatIsThreeFields(v.text);
    ValidateVersionFormat(v.text)
  }

  /** `Version::new`: keeps the string verbatim, when it matches the pattern. */
  function New(s: string): (r: Result<Version>)
    ensures r.Ok? <==> SemverFormat(s)
    ensures r.Ok? ==> r.value.text == s
    ensures r.Err? ==> r.error == InvalidVersion(s)
  {
    var instance := Version(s);
    var _ :- Validate(instance);
    Ok(instance)
  }

  /** `parse_components`: three '.'-separated pieces, each read with `u32::from_str`. */
  function ParseComponents(v: Version): (r: Result<(U32, U32, U32)>)
    ensures r.Err? ==> r.error == InvalidVersion(v.text)
  {
    var parts := Split(v.text, '.');
    if |parts| != 3 then Err(InvalidVersion(v.text))
    else
      match (ParseU32(parts[0]), ParseU32(parts[1]), ParseU32(parts[2]))
      case (Some(major), Some(minor), Some(patch)) => Ok((major, minor, patch))
      case _ => Err(InvalidVersion(v.text))
  }

  /** The components are read exactly as the triple version parses the same text. */
  lemma ParseComponentsAgreesWithCore(v: Version)
    ensures ParseComponents(v).Ok? <==> CoreVersion.FromStr(v.text).Ok?
    ensures ParseComponents(v).Ok? ==>
      ParseComponents(v).value == CoreVersion.Triple(CoreVersion.FromStr(v.text).value)
  {
  }

  /** `from_parts`: formats `"{major}.{minor}.{patch}"` and validates it; this never fails,
      and the components read back are the ones given. */
  function FromParts(major: U32, minor: U32, patch: U32): (r: Result<Version>)
    ensures r.Ok? && SemverFormat(r.value.text)
    ensures r.value.text == NatToString(major) + "." + NatToString(minor) + "." + NatToString(patch)
    ensures ParseComponents(r.value) == Ok((major, minor, patch))
  {
    var s := NatToString(major) + "." + NatToString(minor) + "." + NatToString(patch);
    FormattedParts(major, minor, patch);
    New(s)
  }

  /** The rendering of three `u32`s matches the pattern and reads back as them. */
  lemma FormattedParts(major: U32, minor: U32, patch: U32)
    ensures var s := NatToString(major) + "." + NatToString(minor) + "." + NatToString(patch);
      SemverFormat(s) && ParseComponents(Version(s)) == Ok((major, minor, patch))
  {
    var a, b, c := NatToString(major), NatToString(minor), NatToString(patch);
    var s := a + "." + b + "." + c;
    FormattedSplits(a, b, c);
    CanonicalIsNumericField(a);
    CanonicalIsNumericField(b);
    CanonicalIsNumericField(c);
    assert ThreeNumericFields(s);
    SemverFormatIsThreeFields(s);
    ParseU32OfNatToString(major);
    ParseU32OfNatToString(minor);
    ParseU32OfNatToString(patch);
  }

  /** Three renderings joined by dots split back into them. */
  lemma FormattedSplits(a: string, b: string, c: string)
    requires Canonical(a) && Canonical(b) && Canonical(c)
    ensures Split(a + "." + b + "." + c, '.') == [a, b, c]
  {
    CanonicalIsNumericField(a);
    CanonicalIsNumericField(b);
    CanonicalIsNumericField(c);
    NumericFieldHasNoDot(a);
    NumericFieldHasNoDot(b);
    NumericFieldHasNoDot(c);
    SplitThree(a, b, c, '.');
    assert a + "." + b + "." + c == a + ['.'] + b + ['.'] + c;
  }

  lemma CanonicalIsNumericField(f: string)
    requires Canonical(f)
    ensures NumericField(f)
  {
    if f[0] == '0' {
      assert f == [f[0]];
    }
  }

  /** A numeric field that `u32::from_str` accepts is a canonical ASCII numeral. */
  lemma ParsedFieldIsCanonical(f: string)
    requires NumericField(f) && ParseU32(f).Some?
    ensures Canonical(f) && ParseU32(f).value == DecimalValue(f)
  {
    ParseU32Digits(f);
  }

  /** `is_compatible_with`: both strings parse, the majors agree and `self >= other`
      in the tuple order; an unparseable side makes it false. */
  predicate IsCompatibleWith(v: Version, other: Version)
  {
    match (ParseComponents(v), ParseComponents(other))
    case (Ok(s), Ok(o)) => s.0 == o.0 && CoreVersion.CompareTriples(s, o) != CoreVersion.Less
    case _ => false
  }

  /** `Ord::cmp`: tuple order when both parse; a parseable version is greater than an
      unparseable one; two unparseable versions compare equal. */
  function Cmp(v: Version, other: Version): CoreVersion.Ordering
  {
    match (ParseComponents(v), ParseComponents(other))
    case (Ok(s), Ok(o)) => CoreVersion.CompareTriples(s, o)
    case (Ok(_), Err(_)) => CoreVersion.Greater
    case (Err(_), Ok(_)) => CoreVersion.Less
    case (Err(_), Err(_)) => CoreVersion.Equal
  }

  /** `major`: the first component, or the parse error. */
  function Major(v: Version): (r: Result<U32>)
    ensures r.Ok? <==> ParseComponents(v).Ok?
    ensures r.Ok? ==> r.value == ParseComponents(v).value.0
    ensures r.Err? ==> r.error == InvalidVersion(v.text)
  {
    var (major, _, _) :- ParseComponents(v);
    Ok(major)
  }

  /** `minor`: the second component, or the parse error. */
  function Minor(v: Version): (r: Result<U32>)
    ensures r.Ok? <==> ParseComponents(v).Ok?
    ensures r.Ok? ==> r.value == ParseComponents(v).value.1
    ensures r.Err? ==> r.error == InvalidVersion(v.text)
  {
    var (_, minor, _) :- ParseComponents(v);
    Ok(minor)
  }

  /** `patch`: the third component, or the parse error. */
  function Patch(v: Version): (r: Result<U32>)
    ensures r.Ok? <==> ParseComponents(v).Ok?
    ensures r.Ok? ==> r.value == ParseComponents(v).value.2
    ensures r.Err? ==> r.error == InvalidVersion(v.text)
  {
    var (_, _, patch) :- ParseComponents(v);
    Ok(patch)
  }

  /** `Display` and `as_str`: the stored string. */
  function Display(v: Version): string
  {
    v.text
  }

  /** `FromStr`: `Version::new`. */
  function FromStr(s: string): (r: Result<Version>)
    ensures r.Ok? <==> SemverFormat(s)
    ensures r.Err? ==> r.error == InvalidVersion(s)
  {
    New(s)
  }

  /** Display and parsing are inverse: a valid version is parsed back from its
      rendering, and whatever parses is rendered as the input. */
  lemma DisplayFromStrRoundTrip(v: Version, s: string)
    ensures SemverFormat(v.text) ==> FromStr(Display(v)) == Ok(v)
    ensures FromStr(s).Ok? ==> Display(FromStr(s).value) == s
  {
  }

  /** A valid version whose components parse is exactly the rendering of its components,
      so two such versions are equal when their components are. */
  lemma {:induction false} CanonicalComponents(v: Version)
    requires SemverFormat(v.text) && ParseComponents(v).Ok?
    ensures var (a, b, c) := ParseComponents(v).value;
      v.text == NatToString(a) + "." + NatToString(b) + "." + NatToString(c)
  {
    SemverFormatIsThreeFields(v.text);
    var p := Split(v.text, '.');
    SplitThreeJoin(v.text, '.');
    ParsedFieldIsCanonical(p[0]);
    ParsedFieldIsCanonical(p[1]);
    ParsedFieldIsCanonical(p[2]);
    CanonicalRoundTrip(p[0]);
    CanonicalRoundTrip(p[1]);
    CanonicalRoundTrip(p[2]);
  }

  /** For valid, parseable versions the order agrees with equality. */
  lemma CmpEqualIffSame(v: Version, w: Version)
    requires SemverFormat(v.text) && ParseComponents(v).Ok?
    requires SemverFormat(w.text) && ParseComponents(w).Ok?
    ensures Cmp(v, w) == CoreVersion.Equal <==> v == w
  {
    var pv, pw := ParseComponents(v).value, ParseComponents(w).value;
    assert Cmp(v, w) == CoreVersion.CompareTriples(pv, pw);
    CompareTriplesEqual(pv, pw);
    if pv == pw {
      CanonicalComponents(v);
      CanonicalComponents(w);
      assert v.text == w.text;
    }
  }

  lemma CompareTriplesEqual(x: (int, int, int), y: (int, int, int))
    ensures CoreVersion.CompareTriples(x, y) == CoreVersion.Equal <==> x == y
  {
  }

  /** The order is antisymmetric and transitive, on every pair of stored strings. */
  lemma CmpIsTotalPreorder(a: Version, b: Version, c: Version)
    ensures Cmp(b, a) == Cmp(a, b).Reverse()
    ensures Cmp(a, b) != CoreVersion.Greater && Cmp(b, c) != CoreVersion.Greater
      ==> Cmp(a, c) != CoreVersion.Greater
    ensures Cmp(a, a) == CoreVersion.Equal
  {
    var pa, pb, pc := ParseComponents(a), ParseComponents(b), ParseComponents(c);
    if pa.Ok? && pb.Ok? && pc.Ok? {
      CompareTriplesLaws(pa.value, pb.value, pc.value);
    } else if pa.Ok? && pb.Ok? {
      CompareTriplesLaws(pa.value, pb.value, pb.value);
    } else if pb.Ok? && pc.Ok? {
      CompareTriplesLaws(pb.value, pc.value, pc.value);
    }
    if pa.Ok? {
      CompareTriplesLaws(pa.value, pa.value, pa.value);
    }
  }

  lemma CompareTriplesLaws(x: (int, int, int), y: (int, int, int), z: (int, int, int))
    ensures CoreVersion.CompareTriples(y, x) == CoreVersion.CompareTriples(x, y).Reverse()
    ensures CoreVersion.CompareTriples(x, y) != CoreVersion.Greater
      && CoreVersion.CompareTriples(y, z) != CoreVersion.Greater
      ==> CoreVersion.CompareTriples(x, z) != CoreVersion.Greater
    ensures CoreVersion.CompareTriples(x, x) == CoreVersion.Equal
  {
  }

  /** Compatibility means both majors read back, agree, and the order is not `Less`;
      it is transitive and reflexive on every version whose components parse. */
  lemma CompatibilityLaws(a: Version, b: Version, c: Version)
    ensures IsCompatibleWith(a, b) <==>
      Major(a).Ok? && Major(b).Ok? && Major(a) == Major(b) && Cmp(a, b) != CoreVersion.Less
    ensures ParseComponents(a).Ok? <==> IsCompatibleWith(a, a)
    ensures IsCompatibleWith(a, b) && IsCompatibleWith(b, c) ==> IsCompatibleWith(a, c)
  {
  }

  /** Versions built from parts behave as the triple version on the same parts. */
  lemma FromPartsAgreesWithCore(u: CoreVersion.Version, w: CoreVersion.Version)
    ensures var x := FromParts(u.major, u.minor, u.patch).value;
      var y := FromParts(w.major, w.minor, w.patch).value;
      IsCompatibleWith(x, y) == CoreVersion.IsCompatibleWith(u, w)
      && Cmp(x, y) == CoreVersion.Cmp(u, w)
      && Display(x) == CoreVersion.Display(u)
  {
  }

  /** A number one above `u32::MAX` matches the pattern but does not parse: the version
      is accepted by `new`, is compatible with nothing, not even itself, and is below
      every version that parses. */
  lemma OverflowIsValidButUnparseable()
    ensures var v := Version(NatToString(U32_MAX + 1) + ".0.0");
      New(v.text) == Ok(v)
      && ParseComponents(v).Err?
      && !IsCompatibleWith(v, v)
      && forall w :: ParseComponents(w).Ok? ==> Cmp(v, w) == CoreVersion.Less
  {
    var a := NatToString(U32_MAX + 1);
    var s := a + ".0.0";
    NatToStringHasNoDot(U32_MAX + 1);
    assert s == a + ['.'] + "0" + ['.'] + "0";
    SplitThree(a, "0", "0", '.');
    CanonicalIsNumericField(a);
    SemverFormatIsThreeFields(s);
    ParseU32RejectsOverflow(U32_MAX + 1);
  }

  /** A non-ASCII decimal digit matches `\d` but not `u32::from_str`. */
  lemma UnicodeDigitIsValidButUnparseable()
    ensures var v := Version("1.0.1\U{0663}");
      New(v.text) == Ok(v) && ParseComponents(v).Err?
  {
    var c := "1\U{0663}";
    UnicodeField();
    FieldsMatchPattern("1", "0", c);
    assert "1.0.1\U{0663}" == "1" + "." + "0" + "." + c;
    UnicodeFieldSplit();
  }

  lemma UnicodeField()
    ensures NumericField("1\U{0663}") && ParseU32("1\U{0663}") == None
    ensures NumericField("1") && NumericField("0") && '.' !in "1\U{0663}"
  {
    var c := "1\U{0663}";
    assert IsUnicodeDigit(c[1]) && !IsAsciiDigit(c[1]);
    assert c[0] != '.' && c[1] != '.';
  }

  lemma UnicodeFieldSplit()
    ensures Split("1.0.1\U{0663}", '.') == ["1", "0", "1\U{0663}"]
  {
    var c := "1\U{0663}";
    UnicodeField();
    assert "1.0.1\U{0663}" == "1" + ['.'] + "0" + ['.'] + c;
    SplitThree("1", "0", c, '.');
  }

  /** The order is coarser than equality: two different unparseable strings compare equal. */
  lemma UnparseableComparedEqual()
    ensures Version("x") != Version("") && Cmp(Version("x"), Version("")) == CoreVersion.Equal
  {
    assert Split("x", '.') == ["x"];
    assert Split("", '.') == [""];
  }

  /** The round trip and the rejections of the version tests. */
  lemma FromStrExamples()
    ensures FromStr("1.2.3") == Ok(Version("1.2.3"))
    ensures Major(Version("1.2.3")) == Ok(1)
    ensures FromStr("1.2").Err? && FromStr("1.2.3.4").Err? && FromStr("1.a.3").Err?
    ensures FromStr("01.2.3").Err?
  {
    Accepts123();
    RejectsTwoPieces();
    RejectsFourPieces();
    RejectsNonNumeric();
    RejectsLeadingZero();
    SemverFormatIsThreeFields("1.2");
    SemverFormatIsThreeFields("1.2.3.4");
    SemverFormatIsThreeFields("1.a.3");
    SemverFormatIsThreeFields("01.2.3");
  }

  lemma Accepts123()
    ensures SemverFormat("1.2.3") && ParseComponents(Version("1.2.3")) == Ok((1, 2, 3))
  {
    Matches123();
    Parses123();
  }

  lemma Matches123()
    ensures SemverFormat("1.2.3")
  {
    Fields123();
    FieldsMatchPattern("1", "2", "3");
    assert "1" + "." + "2" + "." + "3" == "1.2.3";
  }

  lemma Parses123()
    ensures ParseComponents(Version("1.2.3")) == Ok((1, 2, 3))
  {
    Split123();
    Fields123();
  }

  lemma Fields123()
    ensures NumericField("1") && NumericField("2") && NumericField("3")
    ensures ParseU32("1") == Some(1) && ParseU32("2") == Some(2) && ParseU32("3") == Some(3)
  {
    assert ParseU32("1") == Some(1) by { assert "1"[..0] == ""; }
    assert ParseU32("2") == Some(2) by { assert "2"[..0] == ""; }
    assert ParseU32("3") == Some(3) by { assert "3"[..0] == ""; }
  }

  lemma Split123()
    ensures Split("1.2.3", '.') == ["1", "2", "3"]
  {
    SplitThree("1", "2", "3", '.');
    assert "1.2.3" == "1" + ['.'] + "2" + ['.'] + "3";
  }

  lemma RejectsTwoPieces()
    ensures !ThreeNumericFields("1.2")
  {
    CoreVersion.FromStrRejectsTwoPieces();
  }

  lemma RejectsFourPieces()
    ensures !ThreeNumericFields("1.2.3.4")
  {
    CoreVersion.FromStrRejectsFourPieces();
  }

  lemma RejectsNonNumeric()
    ensures !ThreeNumericFields("1.a.3")
  {
    assert Split("1.a.3", '.') == ["1", "a", "3"] by {
      SplitThree("1", "a", "3", '.');
      assert "1.a.3" == "1" + ['.'] + "a" + ['.'] + "3";
    }
  }

  lemma RejectsLeadingZero()
    ensures !ThreeNumericFields("01.2.3")
  {
    assert Split("01.2.3", '.') == ["01", "2", "3"] by {
      SplitThree("01", "2", "3", '.');
      assert "01.2.3" == "01" + ['.'] + "2" + ['.'] + "3";
    }
  }
}
