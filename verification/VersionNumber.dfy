/** Parsing, printing and comparing version numbers: pkg/util/version/version.go. */
module VersionNumber {
  import opened ProxyTypes
  import opened VersionText

  datatype Version = Version(components: seq<nat>, semver: bool, preRelease: string, buildMetadata: string)

  // ---------------------------------------------------------------- the two patterns

  predicate IsSpace(c: char) {
    c == ' ' || c == '\t' || c == '\n' || c == '\r' || c == 12 as char
  }

  predicate IsLetter(c: char) {
    'a' <= c <= 'z' || 'A' <= c <= 'Z'
  }

  predicate IsIdentifierChar(c: char) {
    IsDigit(c) || IsLetter(c) || c == '-'
  }

  function AfterSpaces(s: string): string {
    s[Run(s, IsSpace)..]
  }

  function AfterV(s: string): string {
    if s != "" && s[0] == 'v' then s[1..] else s
  }

  datatype Parts = Parts(numbers: string, extra: string)

  /** Optional white space, an optional "v", dotted numbers, and anything but a line break. */
  function MatchVersion(str: string): Option<Parts> {
    var s := AfterV(AfterSpaces(str));
    var n := FieldRun(s, IsDigit);
    if n == 0 || '\n' in s[n..] then None else Some(Parts(s[..n], s[n..]))
  }

  datatype Extra = Extra(preRelease: string, buildMetadata: string)

  /** Identifiers after `mark`, if the text begins with it; `None` if `mark` has none after it. */
  function MatchIdentifiers(s: string, mark: char): Option<Parts> {
    if s == "" || s[0] != mark then Some(Parts("", s))
    else
      var n := FieldRun(s[1..], IsIdentifierChar);
      if n == 0 then None else Some(Parts(s[1..][..n], s[1..][n..]))
  }

  /** An optional pre-release, optional build metadata, and white space. */
  function MatchExtra(extra: string): Option<Extra> {
    match MatchIdentifiers(extra, '-')
    case None => None
    case Some(pre) =>
      match MatchIdentifiers(pre.extra, '+')
      case None => None
      case Some(build) =>
        if AfterSpaces(build.extra) == "" then Some(Extra(pre.numbers, build.numbers)) else None
  }

  // ---------------------------------------------------------------- parsing

  predicate ComponentAllowed(comp: string, first: bool, semver: bool) {
    !((first || semver) && ZeroPrefixed(comp)) && ParseUint(comp).Some?
  }

  predicate ComponentsAllowed(comps: seq<string>, semver: bool) {
    forall i :: 0 <= i < |comps| ==> ComponentAllowed(comps[i], i == 0, semver)
  }

  function ComponentValues(comps: seq<string>): seq<nat>
    requires forall i :: 0 <= i < |comps| ==> ParseUint(comps[i]).Some?
  {
    seq(|comps|, i requires 0 <= i < |comps| => ParseUint(comps[i]).value)
  }

  predicate PreReleaseAllowed(preRelease: string) {
    forall i :: 0 <= i < |Split(preRelease)| ==>
                  !(ParseUint(Split(preRelease)[i]).Some? && ZeroPrefixed(Split(preRelease)[i]))
  }

  predicate CountAllowed(count: nat, semver: bool) {
    if semver then count == 3 else count >= 2
  }

  /** What a version string denotes; `None` for every error. */
  function Parsed(str: string, semver: bool): Option<Version> {
    match MatchVersion(str)
    case None => None
    case Some(parts) =>
      var comps := Split(parts.numbers);
      if !CountAllowed(|comps|, semver) || !ComponentsAllowed(comps, semver) then None
      else
        var numbers := ComponentValues(comps);
        if !semver || parts.extra == "" then Some(Version(numbers, semver, "", ""))
        else
          match MatchExtra(parts.extra)
          case None => None
          case Some(extra) =>
            if PreReleaseAllowed(extra.preRelease)
            then Some(Version(numbers, semver, extra.preRelease, extra.buildMetadata)) else None
  }

  method ParseComponents(comps: seq<string>, semver: bool) returns (r: Option<seq<nat>>)
    ensures r == if ComponentsAllowed(comps, semver) then Some(ComponentValues(comps)) else None
  {
    var numbers: seq<nat> := [];
    for i := 0 to |comps|
      invariant |numbers| == i
      invariant forall j :: 0 <= j < i ==>
                              ComponentAllowed(comps[j], j == 0, semver) && numbers[j] == ParseUint(comps[j]).value
    {
      if (i == 0 || semver) && ZeroPrefixed(comps[i]) {
        assert !ComponentAllowed(comps[i], i == 0, semver);
        return None;
      }
      var num := ParseUint(comps[i]);
      if num.None? {
        assert !ComponentAllowed(comps[i], i == 0, semver);
        return None;
      }
      numbers := numbers + [num.value];
    }
    assert ComponentsAllowed(comps, semver);
    assert numbers == ComponentValues(comps);
    return Some(numbers);
  }

  method CheckPreRelease(preRelease: string) returns (ok: bool)
    ensures ok <==> PreReleaseAllowed(preRelease)
  {
    var comps := Split(preRelease);
    for i := 0 to |comps|
      invariant forall j :: 0 <= j < i ==> !(ParseUint(comps[j]).Some? && ZeroPrefixed(comps[j]))
    {
      if ParseUint(comps[i]).Some? && ZeroPrefixed(comps[i]) {
        return false;
      }
    }
    return true;
  }

  method Parse(str: string, semver: bool) returns (v: Option<Version>)
    ensures v == Parsed(str, semver)
  {
    var parts := MatchVersion(str);
    if parts.None? {
      return None;
    }
    var comps := Split(parts.value.numbers);
    if (semver && |comps| != 3) || (!semver && |comps| < 2) {
      return None;
    }
    var numbers := ParseComponents(comps, semver);
    if numbers.None? {
      return None;
    }
    if semver && parts.value.extra != "" {
      var extra := MatchExtra(parts.value.extra);
      if extra.None? {
        return None;
      }
      var ok := CheckPreRelease(extra.value.preRelease);
      if !ok {
        return None;
      }
      return Some(Version(numbers.value, semver, extra.value.preRelease, extra.value.buildMetadata));
    }
    return Some(Version(numbers.value, semver, "", ""));
  }

  // ---------------------------------------------------------------- printing

  function Decimals(components: seq<nat>): seq<string> {
    seq(|components|, i requires 0 <= i < |components| => Decimal(components[i]))
  }

  /** A marked part of a printed version. */
  function Marked(mark: string, text: string): string {
    if text == "" then "" else mark + text
  }

  function Suffix(v: Version): string {
    Marked("-", v.preRelease) + Marked("+", v.buildMetadata)
  }

  function Printed(v: Version): string
    requires |v.components| >= 1
  {
    Join(Decimals(v.components)) + Suffix(v)
  }

  lemma {:induction false} JoinGrows(parts: seq<string>, last: string)
    requires |parts| >= 1
    ensures Join(parts + [last]) == Join(parts) + "." + last
  {
    if |parts| == 1 {
      assert (parts + [last])[1..] == [last];
    } else {
      assert (parts + [last])[1..] == parts[1..] + [last];
      JoinGrows(parts[1..], last);
      assert Join(parts + [last]) == parts[0] + "." + (Join(parts[1..]) + "." + last);
    }
  }

  /** The printing loop. */
  method String(v: Version) returns (s: string)
    requires |v.components| >= 1
    ensures s == Printed(v)
  {
    s := "";
    for i := 0 to |v.components|
      invariant i == 0 ==> s == ""
      invariant i > 0 ==> s == Join(Decimals(v.components[..i]))
    {
      assert Decimals(v.components[..i + 1]) == Decimals(v.components[..i]) + [Decimal(v.components[i])];
      if i > 0 {
        JoinGrows(Decimals(v.components[..i]), Decimal(v.components[i]));
        s := s + ".";
      }
      s := s + Decimal(v.components[i]);
    }
    assert v.components[..|v.components|] == v.components;
    if v.preRelease != "" {
      s := s + "-" + v.preRelease;
    }
    if v.buildMetadata != "" {
      s := s + "+" + v.buildMetadata;
    }
    assert s == Join(Decimals(v.components)) + Suffix(v);
  }

  // ---------------------------------------------------------------- the round trip

  /** Empty, or dot-separated identifiers. */
  predicate OptionalIdentifiers(s: string) {
    s == "" || IsFields(s, IsIdentifierChar)
  }

  /** The versions that parsing can return. */
  ghost predicate Parseable(v: Version) {
    && CountAllowed(|v.components|, v.semver)
    && (forall i :: 0 <= i < |v.components| ==> v.components[i] < UINT_LIMIT)
    && OptionalIdentifiers(v.preRelease) && OptionalIdentifiers(v.buildMetadata)
    && PreReleaseAllowed(v.preRelease)
    && (!v.semver ==> v.preRelease == "" && v.buildMetadata == "")
  }

  lemma MatchedIdentifiers(s: string, mark: char)
    requires MatchIdentifiers(s, mark).Some?
    ensures OptionalIdentifiers(MatchIdentifiers(s, mark).value.numbers)
  {
    if s != "" && s[0] == mark {
      CapturedFields(s[1..], IsIdentifierChar);
    }
  }

  lemma ParsedIsParseable(str: string, semver: bool)
    requires Parsed(str, semver).Some?
    ensures Parseable(Parsed(str, semver).value) && Parsed(str, semver).value.semver == semver
  {
    var parts := MatchVersion(str).value;
    assert PreReleaseAllowed("") by { assert Split("") == [""]; }
    if semver && parts.extra != "" {
      MatchedIdentifiers(parts.extra, '-');
      MatchedIdentifiers(MatchIdentifiers(parts.extra, '-').value.extra, '+');
    }
  }

  lemma MarkedRoundTrip(text: string, rest: string, mark: char)
    requires OptionalIdentifiers(text) && !Continues(rest, IsIdentifierChar) && (rest == "" || rest[0] != mark)
    ensures MatchIdentifiers(Marked([mark], text) + rest, mark) == Some(Parts(text, rest))
  {
    var s := Marked([mark], text) + rest;
    if text == "" {
      assert s == rest;
    } else {
      FieldRunOfAppend(text, rest, IsIdentifierChar);
      assert s[1..] == text + rest;
    }
  }

  lemma SuffixRoundTrip(v: Version)
    requires OptionalIdentifiers(v.preRelease) && OptionalIdentifiers(v.buildMetadata)
    ensures MatchExtra(Suffix(v)) == Some(Extra(v.preRelease, v.buildMetadata))
  {
    var build := Marked("+", v.buildMetadata);
    MarkedRoundTrip(v.preRelease, build, '-');
    MarkedRoundTrip(v.buildMetadata, "", '+');
    assert build + "" == build;
  }

  lemma MarkedChars(mark: string, text: string)
    requires OptionalIdentifiers(text) && |mark| == 1 && mark[0] != '\n'
    ensures '\n' !in Marked(mark, text)
  {
    if text != "" {
      FieldChars(text, IsIdentifierChar);
    }
  }

  lemma SuffixShape(v: Version)
    requires OptionalIdentifiers(v.preRelease) && OptionalIdentifiers(v.buildMetadata)
    ensures Suffix(v) == "" <==> v.preRelease == "" && v.buildMetadata == ""
    ensures Suffix(v) == "" || Suffix(v)[0] == '-' || Suffix(v)[0] == '+'
    ensures '\n' !in Suffix(v)
  {
    MarkedChars("-", v.preRelease);
    MarkedChars("+", v.buildMetadata);
  }

  lemma NumbersRoundTrip(components: seq<nat>, semver: bool, suffix: string)
    requires |components| >= 1 && forall i :: 0 <= i < |components| ==> components[i] < UINT_LIMIT
    requires suffix == "" || suffix[0] == '-' || suffix[0] == '+'
    requires '\n' !in suffix
    ensures
      var numbers := Join(Decimals(components));
      && MatchVersion(numbers + suffix) == Some(Parts(numbers, suffix))
      && Split(numbers) == Decimals(components)
      && ComponentsAllowed(Decimals(components), semver)
      && ComponentValues(Decimals(components)) == components
  {
    var comps := Decimals(components);
    forall i | 0 <= i < |comps|
      ensures comps[i] != "" && AllDigits(comps[i]) && '.' !in comps[i]
      ensures ParseUint(comps[i]) == Some(components[i]) && !ZeroPrefixed(comps[i])
    {
      DecimalRoundTrip(components[i]);
    }
    SplitJoin(comps);
    JoinIsFields(comps, IsDigit);
    var numbers := Join(comps);
    FieldRunOfAppend(numbers, suffix, IsDigit);
    var s := numbers + suffix;
    assert IsDigit(s[0]) by { assert Run(numbers, IsDigit) > 0; }
    assert Run(s, IsSpace) == 0;
    assert s[0..] == s;
  }

  lemma ParseableRoundTrip(v: Version)
    requires Parseable(v)
    ensures Parsed(Printed(v), v.semver) == Some(v)
  {
    SuffixShape(v);
    NumbersRoundTrip(v.components, v.semver, Suffix(v));
    var numbers := Join(Decimals(v.components));
    assert MatchVersion(Printed(v)) == Some(Parts(numbers, Suffix(v)));
    if v.semver && Suffix(v) != "" {
      SuffixRoundTrip(v);
    }
  }

  /** For every version that parsing returns, parsing its printed form in the same mode returns
      the same version. */
  lemma {:induction false} PrintedRoundTrip(str: string, semver: bool)
    requires Parsed(str, semver).Some?
    ensures Parsed(Printed(Parsed(str, semver).value), semver) == Parsed(str, semver)
  {
    ParsedIsParseable(str, semver);
    ParseableRoundTrip(Parsed(str, semver).value);
  }
}
