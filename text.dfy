/** String helpers with Rust's semantics: `str::split` on one character,
    `[String]::join`, decimal rendering of integers and `u32::from_str`. */
module Text {
  import opened Errors

  const U32_MAX: int := 0xFFFF_FFFF

  /** Rust's `u32`. */
  type U32 = x: int | 0 <= x <= U32_MAX

  /** Position of the first `c` in `s`, or `|s|` when there is none. */
  function IndexOf(s: string, c: char): (k: nat)
    ensures k <= |s|
    ensures k < |s| ==> s[k] == c
    ensures forall i :: 0 <= i < k ==> s[i] != c
  {
    if |s| == 0 then 0
    else if s[0] == c then 0
    else 1 + IndexOf(s[1..], c)
  }

  /** `s.split(sep).collect()`: the pieces between occurrences of `sep`; an empty
      string gives one empty piece and adjacent separators give empty pieces. */
  function Split(s: string, sep: char): (parts: seq<string>)
    ensures |parts| >= 1
    ensures forall i :: 0 <= i < |parts| ==> sep !in parts[i]
    decreases |s|
  {
    var k := IndexOf(s, sep);
    if k == |s| then
      assert forall j :: 0 <= j < |s| ==> s[j] != sep;
      [s]
    else
      assert forall j :: 0 <= j < |s[..k]| ==> s[..k][j] != sep;
      [s[..k]] + Split(s[k + 1..], sep)
  }

  /** `parts.join(sep)`. */
  function Join(parts: seq<string>, sep: string): string
  {
    if |parts| == 0 then ""
    else if |parts| == 1 then parts[0]
    else parts[0] + sep + Join(parts[1..], sep)
  }

  lemma IndexOfAfterPrefix(p: string, c: char, rest: string)
    requires c !in p
    ensures IndexOf(p + [c] + rest, c) == |p|
  {
    var s := p + [c] + rest;
    assert s[|p|] == c;
    assert forall i :: 0 <= i < |p| ==> s[i] == p[i];
  }

  /** One step of `Split`: the piece before the first separator, then the rest split. */
  lemma SplitStep(s: string, sep: char)
    requires IndexOf(s, sep) < |s|
    ensures Split(s, sep) == [s[..IndexOf(s, sep)]] + Split(s[IndexOf(s, sep) + 1..], sep)
  {
  }

  /** One step of `Join` on at least two pieces. */
  lemma JoinStep(parts: seq<string>, sep: string)
    requires |parts| >= 2
    ensures Join(parts, sep) == parts[0] + sep + Join(parts[1..], sep)
  {
  }

  /** Splitting and re-joining with the same separator gives the string back. */
  lemma {:induction false} JoinSplit(s: string, sep: char)
    ensures Join(Split(s, sep), [sep]) == s
    decreases |s|
  {
    var k := IndexOf(s, sep);
    if k < |s| {
      var rest := s[k + 1..];
      JoinSplit(rest, sep);
      var ps := Split(s, sep);
      SplitStep(s, sep);
      assert ps[0] == s[..k] && ps[1..] == Split(rest, sep);
      JoinStep(ps, [sep]);
      assert s == s[..k] + [sep] + rest;
    } else {
      assert Split(s, sep) == [s];
    }
  }

  /** Joining pieces free of the separator and splitting again gives the pieces back. */
  lemma {:induction false} SplitJoin(parts: seq<string>, sep: char)
    requires |parts| >= 1
    requires forall i :: 0 <= i < |parts| ==> sep !in parts[i]
    ensures Split(Join(parts, [sep]), sep) == parts
    decreases |parts|
  {
    if |parts| == 1 {
      var p := parts[0];
      assert forall j :: 0 <= j < |p| ==> p[j] != sep;
      assert IndexOf(p, sep) == |p|;
    } else {
      var p := parts[0];
      var rest := Join(parts[1..], [sep]);
      var s := p + [sep] + rest;
      JoinStep(parts, [sep]);
      IndexOfAfterPrefix(p, sep, rest);
      assert s[..|p|] == p;
      assert s[|p| + 1..] == rest;
      SplitStep(s, sep);
      SplitJoin(parts[1..], sep);
      assert parts == [p] + parts[1..];
    }
  }

  /** The three-piece case of `SplitJoin`, as a version string is built. */
  lemma SplitThree(a: string, b: string, c: string, sep: char)
    requires sep !in a && sep !in b && sep !in c
    ensures Split(a + [sep] + b + [sep] + c, sep) == [a, b, c]
  {
    var parts := [a, b, c];
    assert parts[1..] == [b, c];
    assert parts[1..][1..] == [c];
    assert Join([c], [sep]) == c;
    assert Join([b, c], [sep]) == b + [sep] + c;
    assert Join(parts, [sep]) == a + [sep] + (b + [sep] + c);
    assert a + [sep] + (b + [sep] + c) == a + [sep] + b + [sep] + c;
    SplitJoin(parts, sep);
  }

  /** Every string that splits into three pieces is those pieces joined by the separator. */
  lemma SplitThreeJoin(s: string, sep: char)
    requires |Split(s, sep)| == 3
    ensures var p := Split(s, sep); s == p[0] + [sep] + p[1] + [sep] + p[2]
  {
    var p := Split(s, sep);
    JoinSplit(s, sep);
    assert p[1..] == [p[1], p[2]];
    assert p[1..][1..] == [p[2]];
    assert Join([p[2]], [sep]) == p[2];
    assert Join([p[1], p[2]], [sep]) == p[1] + [sep] + p[2];
    assert Join(p, [sep]) == p[0] + [sep] + (p[1] + [sep] + p[2]);
  }

  predicate IsAsciiDigit(ch: char) { '0' <= ch <= '9' }

  predicate AllAsciiDigits(s: string) { forall i :: 0 <= i < |s| ==> IsAsciiDigit(s[i]) }

  function DigitValue(ch: char): nat
    requires IsAsciiDigit(ch)
  {
    (ch as int) - ('0' as int)
  }

  function DigitChar(d: nat): (ch: char)
    requires d < 10
    ensures IsAsciiDigit(ch) && DigitValue(ch) == d
  {
    (('0' as int) + d) as char
  }

  /** The value of a numeral of ASCII digits, most significant first. */
  function DecimalValue(s: string): nat
    requires AllAsciiDigits(s)
    decreases |s|
  {
    if |s| == 0 then 0
    else
      assert AllAsciiDigits(s[..|s| - 1]);
      10 * DecimalValue(s[..|s| - 1]) + DigitValue(s[|s| - 1])
  }

  /** A numeral as Rust prints an unsigned integer: digits only, no leading zero except in "0". */
  predicate Canonical(s: string)
  {
    |s| >= 1 && AllAsciiDigits(s) && (s[0] == '0' ==> |s| == 1)
  }

  /** Rust's `Display` for an unsigned integer. */
  function NatToString(n: nat): (s: string)
    ensures Canonical(s)
    ensures DecimalValue(s) == n
    decreases n
  {
    if n < 10 then [DigitChar(n)]
    else
      var init := NatToString(n / 10);
      var s := init + [DigitChar(n % 10)];
      assert s[..|s| - 1] == init;
      s
  }

  lemma {:induction false} LeadingNonZeroPositive(s: string)
    requires |s| >= 1 && AllAsciiDigits(s) && s[0] != '0'
    ensures DecimalValue(s) >= 1
    decreases |s|
  {
    if |s| > 1 {
      var init := s[..|s| - 1];
      assert init[0] == s[0];
      LeadingNonZeroPositive(init);
    }
  }

  /** A canonical numeral is the rendering of its own value. */
  lemma {:induction false} CanonicalRoundTrip(s: string)
    requires Canonical(s)
    ensures NatToString(DecimalValue(s)) == s
    decreases |s|
  {
    var last := s[|s| - 1];
    if |s| == 1 {
      assert DigitChar(DigitValue(last)) == last;
      assert s == [last];
    } else {
      var init := s[..|s| - 1];
      assert init[0] == s[0];
      assert Canonical(init);
      CanonicalRoundTrip(init);
      LeadingNonZeroPositive(init);
      var n := DecimalValue(s);
      var a := DecimalValue(init);
      var d := DigitValue(last);
      assert n == 10 * a + d && d < 10;
      assert n / 10 == a && n % 10 == d;
      assert DigitChar(d) == last;
      assert s == init + [last];
    }
  }

  /** A leading zero does not change the value of a numeral. */
  lemma {:induction false} LeadingZeroValue(s: string)
    requires AllAsciiDigits(s)
    ensures AllAsciiDigits("0" + s) && DecimalValue("0" + s) == DecimalValue(s)
    decreases |s|
  {
    var z := "0" + s;
    assert AllAsciiDigits(z);
    if |s| > 0 {
      var init := s[..|s| - 1];
      assert z[..|z| - 1] == "0" + init;
      assert z[|z| - 1] == s[|s| - 1];
      LeadingZeroValue(init);
    }
  }

  lemma NatToStringHasNoDot(n: nat)
    ensures '.' !in NatToString(n)
  {
    var s := NatToString(n);
    assert forall i :: 0 <= i < |s| ==> IsAsciiDigit(s[i]);
  }

  /** Rust's `u32::from_str`: an optional leading '+', then one or more ASCII digits;
      leading zeros are accepted, and a value above `U32_MAX` is an overflow error. */
  function ParseU32(s: string): Option<U32>
  {
    var digits := if |s| > 0 && s[0] == '+' then s[1..] else s;
    if |digits| == 0 || !AllAsciiDigits(digits) then None
    else if DecimalValue(digits) > U32_MAX then None
    else Some(DecimalValue(digits))
  }

  /** Parsing the rendering of a `u32` gives the number back. */
  lemma ParseU32OfNatToString(n: U32)
    ensures ParseU32(NatToString(n)) == Some(n)
  {
    var s := NatToString(n);
    assert IsAsciiDigit(s[0]);
  }

  /** The rendering of a number above `U32_MAX` does not parse as a `u32`. */
  lemma ParseU32RejectsOverflow(n: nat)
    requires n > U32_MAX
    ensures ParseU32(NatToString(n)) == None
  {
    var s := NatToString(n);
    assert IsAsciiDigit(s[0]);
  }

  /** A leading zero is accepted and ignored. */
  lemma ParseU32LeadingZero(s: string)
    requires |s| > 0 && AllAsciiDigits(s)
    ensures ParseU32("0" + s) == ParseU32(s)
  {
    LeadingZeroValue(s);
    assert IsAsciiDigit(s[0]);
  }

  /** A leading '+' is accepted and ignored, once. */
  lemma ParseU32LeadingPlus(s: string)
    requires |s| > 0 && s[0] != '+'
    ensures ParseU32("+" + s) == ParseU32(s)
  {
    assert ("+" + s)[1..] == s;
  }

  /** A successful parse reads ASCII digits, after at most one '+'. */
  lemma ParseU32Digits(s: string)
    requires ParseU32(s).Some?
    ensures var d := if s[0] == '+' then s[1..] else s;
      |d| > 0 && AllAsciiDigits(d) && ParseU32(s).value == DecimalValue(d)
  {
  }
}
