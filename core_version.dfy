/** The older version type: a plain `(major, minor, patch)` triple of `u32`s
    with the derived, field-by-field ordering. */
module CoreVersion {
  import opened Errors
  import opened Text

  datatype Ordering = Less | Equal | Greater {
    function Reverse(): Ordering
    {
      match this
      case Less => Greater
      case Equal => Equal
      case Greater => Less
    }
  }

  /** Rust's `Ord` on integers. */
  function CompareInt(a: int, b: int): Ordering
  {
    if a < b then Less else if a == b then Equal else Greater
  }

  /** Rust's tuple and derived-struct ordering: the first field that differs decides. */
  function CompareTriples(a: (int, int, int), b: (int, int, int)): Ordering
  {
    if a.0 != b.0 then CompareInt(a.0, b.0)
    else if a.1 != b.1 then CompareInt(a.1, b.1)
    else CompareInt(a.2, b.2)
  }

  datatype Version = Version(major: U32, minor: U32, patch: U32)

  function New(major: U32, minor: U32, patch: U32): (v: Version)
    ensures v.major == major && v.minor == minor && v.patch == patch
  {
    Version(major, minor, patch)
  }

  function Triple(v: Version): (int, int, int)
  {
    (v.major, v.minor, v.patch)
  }

  /** The derived `Ord`. */
  function Cmp(a: Version, b: Version): Ordering
  {
    CompareTriples(Triple(a), Triple(b))
  }

  /** `a >= b` in the derived order. */
  predicate AtLeast(a: Version, b: Version)
  {
    Cmp(a, b) != Less
  }

  /** Same major line and not older than `other`. */
  predicate IsCompatibleWith(v: Version, other: Version)
  {
    v.major == other.major && AtLeast(v, other)
  }

  /** Every triple is accepted. */
  function Validate(v: Version): (r: Result<()>)
    ensures r == Ok(())
  {
    Ok(())
  }

  /** `"{major}.{minor}.{patch}"`. */
  function Display(v: Version): string
  {
    NatToString(v.major) + "." + NatToString(v.minor) + "." + NatToString(v.patch)
  }

  /** `FromStr`: exactly three '.'-separated pieces, each parsed with `u32::from_str`. */
  function FromStr(s: string): (r: Result<Version>)
    ensures r.Err? ==> r.error == InvalidVersion(s)
    ensures r.Ok? <==> var p := Split(s, '.');
      |p| == 3 && ParseU32(p[0]).Some? && ParseU32(p[1]).Some? && ParseU32(p[2]).Some?
  {
    var parts := Split(s, '.');
    if |parts| != 3 then Err(InvalidVersion(s))
    else
      match (ParseU32(parts[0]), ParseU32(parts[1]), ParseU32(parts[2]))
      case (Some(major), Some(minor), Some(patch)) =>
        var v := New(major, minor, patch);
        // `version.validate()?` never fails for a triple
        assert Validate(v) == Ok(());
        Ok(v)
      case _ => Err(InvalidVersion(s))
  }

  /** Parsing the rendering of a version gives the version back. */
  lemma FromStrDisplay(v: Version)
    ensures FromStr(Display(v)) == Ok(v)
  {
    var a, b, c := NatToString(v.major), NatToString(v.minor), NatToString(v.patch);
    NatToStringHasNoDot(v.major);
    NatToStringHasNoDot(v.minor);
    NatToStringHasNoDot(v.patch);
    SplitThree(a, b, c, '.');
    assert Display(v) == a + ['.'] + b + ['.'] + c;
    ParseU32OfNatToString(v.major);
    ParseU32OfNatToString(v.minor);
    ParseU32OfNatToString(v.patch);
  }

  lemma SplitExample()
    ensures Split("01.+2.3", '.') == ["01", "+2", "3"]
  {
    SplitThree("01", "+2", "3", '.');
    assert "01.+2.3" == "01" + ['.'] + "+2" + ['.'] + "3";
  }

  lemma ParseU32Examples()
    ensures ParseU32("01") == Some(1) && ParseU32("+2") == Some(2) && ParseU32("3") == Some(3)
  {
    assert DecimalValue("01") == 10 * DecimalValue("0") + 1 by {
      assert "01"[..1] == "0";
    }
    assert DecimalValue("0") == 10 * DecimalValue("") + 0 by { assert "0"[..0] == ""; }
    assert ParseU32("+2") == Some(2) by {
      assert "+2"[1..] == "2";
      assert DecimalValue("2") == 10 * DecimalValue("") + 2 by { assert "2"[..0] == ""; }
    }
    assert DecimalValue("3") == 10 * DecimalValue("") + 3 by { assert "3"[..0] == ""; }
  }

  /** Parsing is not injective: leading zeros and a '+' are accepted, so a parsed
      string need not be the rendering of its result. */
  lemma FromStrAcceptsNonCanonical()
    ensures FromStr("01.+2.3") == Ok(Version(1, 2, 3))
    ensures Display(Version(1, 2, 3)) != "01.+2.3"
  {
    SplitExample();
    ParseU32Examples();
    assert Display(Version(1, 2, 3))[0] == '1';
  }

  /** Two pieces: "1.2" is rejected. */
  lemma FromStrRejectsTwoPieces()
    ensures FromStr("1.2") == Err(InvalidVersion("1.2"))
  {
    assert "1.2" == Join(["1", "2"], ".") by {
      assert ["1", "2"][1..] == ["2"];
    }
    SplitJoin(["1", "2"], '.');
  }

  /** Four pieces: "1.2.3.4" is rejected. */
  lemma FromStrRejectsFourPieces()
    ensures FromStr("1.2.3.4") == Err(InvalidVersion("1.2.3.4"))
  {
    var four := ["1", "2", "3", "4"];
    assert "1.2.3.4" == Join(four, ".") by {
      assert four[1..] == ["2", "3", "4"];
      assert four[1..][1..] == ["3", "4"];
      assert four[1..][1..][1..] == ["4"];
    }
    SplitJoin(four, '.');
  }

  /** A non-numeric piece: "1.a.3" is rejected. */
  lemma FromStrRejectsNonNumeric()
    ensures FromStr("1.a.3") == Err(InvalidVersion("1.a.3"))
  {
    assert Split("1.a.3", '.') == ["1", "a", "3"] by {
      SplitThree("1", "a", "3", '.');
      assert "1.a.3" == "1" + ['.'] + "a" + ['.'] + "3";
    }
    assert ParseU32("a") == None by {
      assert !IsAsciiDigit("a"[0]);
    }
  }

  /** The derived order is a total order: equality is `Equal`, swapping the
      arguments reverses the result, and `Less` is transitive. */
  lemma CmpIsTotalOrder(a: Version, b: Version, c: Version)
    ensures Cmp(a, b) == Equal <==> a == b
    ensures Cmp(b, a) == Cmp(a, b).Reverse()
    ensures Cmp(a, b) == Less && Cmp(b, c) == Less ==> Cmp(a, c) == Less
  {
  }

  /** The ordering of the tests: 1.0.0 < 1.0.1 < 1.1.0 < 2.0.0. */
  lemma OrderingExamples()
    ensures Cmp(Version(1, 0, 0), Version(1, 0, 1)) == Less
    ensures Cmp(Version(1, 0, 1), Version(1, 1, 0)) == Less
    ensures Cmp(Version(1, 1, 0), Version(2, 0, 0)) == Less
  {
  }

  /** Compatibility is reflexive and transitive, and never crosses a major version. */
  lemma CompatibilityLaws(a: Version, b: Version, c: Version)
    ensures IsCompatibleWith(a, a)
    ensures IsCompatibleWith(a, b) && IsCompatibleWith(b, c) ==> IsCompatibleWith(a, c)
    ensures a.major != b.major ==> !IsCompatibleWith(a, b) && !IsCompatibleWith(b, a)
    ensures IsCompatibleWith(a, b) && IsCompatibleWith(b, a) ==> a == b
  {
  }

  /** The compatibility cases of the tests. */
  lemma CompatibilityExamples()
    ensures IsCompatibleWith(Version(1, 2, 4), Version(1, 2, 3))
    ensures IsCompatibleWith(Version(1, 3, 0), Version(1, 2, 3))
    ensures !IsCompatibleWith(Version(1, 2, 3), Version(1, 2, 4))
    ensures !IsCompatibleWith(Version(2, 0, 0), Version(1, 2, 3))
    ensures !IsCompatibleWith(Version(1, 2, 3), Version(2, 0, 0))
  {
  }
}
