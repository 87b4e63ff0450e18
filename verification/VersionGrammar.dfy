/** What the version parser accepts, as a grammar: sections 2, 9 and 10 of Semantic Versioning 2.0.0
    for semantic versions, and the looser form for generic ones. */
module VersionGrammar {
  import opened ProxyTypes
  import opened VersionText
  import opened VersionNumber

  predicate Spaces(s: string) {
    forall i :: 0 <= i < |s| ==> s[i] in {' ', '\t', '\n', '\r', 12 as char}
  }

  predicate Digits(s: string) {
    s != "" && forall i :: 0 <= i < |s| ==> '0' <= s[i] <= '9'
  }

  predicate Identifier(s: string) {
    s != "" && forall i :: 0 <= i < |s| ==> '0' <= s[i] <= '9' || 'a' <= s[i] <= 'z' || 'A' <= s[i] <= 'Z' || s[i] == '-'
  }

  /** Nothing, or identifiers with dots between. */
  ghost predicate DottedIdentifiers(s: string) {
    s == "" || exists parts: seq<string> :: |parts| >= 1 && s == Join(parts) && forall i :: 0 <= i < |parts| ==> Identifier(parts[i])
  }

  /** An optional pre-release, optional build metadata, and white space. */
  ghost predicate ExtraDenotes(extra: string, preRelease: string, buildMetadata: string) {
    && DottedIdentifiers(preRelease) && DottedIdentifiers(buildMetadata)
    && exists tail :: Spaces(tail) && extra == Marked("-", preRelease) + (Marked("+", buildMetadata) + tail)
  }

  /** The text is white space, perhaps a "v", the components with dots between, and the rest, which
      does not go on with a digit or a dot and a digit. */
  ghost predicate Composed(str: string, lead: string, mark: string, comps: seq<string>, extra: string) {
    && |comps| >= 1 && (forall i :: 0 <= i < |comps| ==> Digits(comps[i]))
    && Spaces(lead) && (mark == "" || mark == "v")
    && !Continues(extra, IsDigit) && '\n' !in extra
    && str == lead + (mark + (Join(comps) + extra))
  }

  /** A component has its value, within 64 bits, and no leading zero if it is the first or the version
      is semantic. */
  predicate ComponentMeans(comp: string, first: bool, semver: bool, value: nat) {
    && Digits(comp) && DecimalValue(comp) == value <= 18446744073709551615
    && ((first || semver) && |comp| > 1 ==> comp[0] != '0')
  }

  /** No identifier is a number within 64 bits with a leading zero. */
  predicate NoLeadingZeros(preRelease: string) {
    forall id <- Split(preRelease) ::
      Digits(id) && |id| > 1 && DecimalValue(id) <= 18446744073709551615 ==> id[0] != '0'
  }

  /** Three components in a semantic version and at least two in a generic one, each with its value;
      the rest is ignored in a generic version and denotes pre-release and build metadata in a semantic
      one. */
  ghost predicate Means(comps: seq<string>, extra: string, semver: bool, v: Version) {
    && (if semver then |comps| == 3 else |comps| >= 2)
    && |v.components| == |comps| && v.semver == semver
    && (forall i :: 0 <= i < |comps| ==> ComponentMeans(comps[i], i == 0, semver, v.components[i]))
    && if semver then ExtraDenotes(extra, v.preRelease, v.buildMetadata) && NoLeadingZeros(v.preRelease)
       else v.preRelease == "" && v.buildMetadata == ""
  }

  ghost predicate Denotes(str: string, semver: bool, v: Version) {
    exists lead, mark, comps, extra :: Composed(str, lead, mark, comps, extra) && Means(comps, extra, semver, v)
  }

  // ---------------------------------------------------------------- the words of the grammar

  lemma {:induction false} DottedIff(s: string)
    ensures DottedIdentifiers(s) <==> OptionalIdentifiers(s)
  {
    if s != "" && OptionalIdentifiers(s) {
      SplitFields(s, IsIdentifierChar);
      var parts := Split(s);
      forall i | 0 <= i < |parts|
        ensures Identifier(parts[i])
      {
        assert IsField(parts[i], IsIdentifierChar);
      }
    }
    if s != "" && DottedIdentifiers(s) {
      var parts: seq<string> :| |parts| >= 1 && s == Join(parts) && forall i :: 0 <= i < |parts| ==> Identifier(parts[i]);
      forall i | 0 <= i < |parts|
        ensures parts[i] != "" && forall j :: 0 <= j < |parts[i]| ==> IsIdentifierChar(parts[i][j])
      {
        assert Identifier(parts[i]);
      }
      JoinIsFields(parts, IsIdentifierChar);
    }
  }

  lemma {:induction false} ComponentIff(comp: string, first: bool, semver: bool, value: nat)
    ensures ComponentMeans(comp, first, semver, value) <==>
            ComponentAllowed(comp, first, semver) && ParseUint(comp) == Some(value)
  {
    assert Digits(comp) <==> comp != "" && AllDigits(comp);
    if |comp| == 1 && comp[0] == '0' {
      assert comp == "0";
    }
  }

  lemma {:induction false} ComponentsIff(comps: seq<string>, semver: bool, values: seq<nat>)
    ensures |values| == |comps| && (forall i :: 0 <= i < |comps| ==> ComponentMeans(comps[i], i == 0, semver, values[i])) <==>
            ComponentsAllowed(comps, semver) && values == ComponentValues(comps)
  {
    if ComponentsAllowed(comps, semver) && values == ComponentValues(comps) {
      forall i | 0 <= i < |comps|
        ensures ComponentMeans(comps[i], i == 0, semver, values[i])
      {
        ComponentIff(comps[i], i == 0, semver, values[i]);
      }
    }
    if |values| == |comps| && forall i :: 0 <= i < |comps| ==> ComponentMeans(comps[i], i == 0, semver, values[i]) {
      forall i | 0 <= i < |comps|
        ensures ComponentAllowed(comps[i], i == 0, semver) && ParseUint(comps[i]) == Some(values[i])
      {
        ComponentIff(comps[i], i == 0, semver, values[i]);
      }
      assert ComponentsAllowed(comps, semver);
    }
  }

  lemma {:induction false} NoLeadingZerosIff(preRelease: string)
    ensures NoLeadingZeros(preRelease) <==> PreReleaseAllowed(preRelease)
  {
    var parts := Split(preRelease);
    forall id: string
      ensures (Digits(id) && |id| > 1 && DecimalValue(id) <= 18446744073709551615 ==> id[0] != '0') <==>
              !(ParseUint(id).Some? && ZeroPrefixed(id))
    {
      assert Digits(id) <==> id != "" && AllDigits(id);
      if |id| == 1 && id[0] == '0' {
        assert id == "0";
      }
    }
    assert forall i :: 0 <= i < |parts| ==> parts[i] in parts;
  }

  // ---------------------------------------------------------------- the rest of a semantic version

  lemma {:induction false} AfterSpacesOf(tail: string)
    ensures AfterSpaces(tail) == "" <==> Spaces(tail)
  {
    if Spaces(tail) {
      RunOfAppend(tail, "", IsSpace);
      assert tail + "" == tail;
    }
  }

  lemma {:induction false} MatchedIs(s: string, mark: char)
    requires MatchIdentifiers(s, mark).Some?
    ensures var m := MatchIdentifiers(s, mark).value;
            OptionalIdentifiers(m.numbers) && s == Marked([mark], m.numbers) + m.extra
  {
    MatchedIdentifiers(s, mark);
    if s != "" && s[0] == mark {
      var n := FieldRun(s[1..], IsIdentifierChar);
      assert s == [mark] + s[1..][..n] + s[1..][n..];
    }
  }

  lemma {:induction false} SpacesStart(tail: string)
    requires Spaces(tail)
    ensures tail == "" || (tail[0] != '+' && tail[0] != '-' && tail[0] != '.' && !IsIdentifierChar(tail[0]))
  {
  }

  lemma {:induction false} DenotedExtraMatches(pre: string, build: string, tail: string)
    requires OptionalIdentifiers(pre) && OptionalIdentifiers(build) && Spaces(tail)
    ensures MatchExtra(Marked("-", pre) + (Marked("+", build) + tail)) == Some(Extra(pre, build))
  {
    SpacesStart(tail);
    AfterSpacesOf(tail);
    MarkedRoundTrip(build, tail, '+');
    var rest := Marked("+", build) + tail;
    assert rest == "" || rest[0] == '+' || rest == tail;
    MarkedRoundTrip(pre, rest, '-');
  }

  lemma {:induction false} ExtraIff(extra: string, pre: string, build: string)
    ensures MatchExtra(extra) == Some(Extra(pre, build)) <==> ExtraDenotes(extra, pre, build)
  {
    DottedIff(pre);
    DottedIff(build);
    if MatchExtra(extra) == Some(Extra(pre, build)) {
      MatchedIs(extra, '-');
      var first := MatchIdentifiers(extra, '-').value;
      MatchedIs(first.extra, '+');
      var tail := MatchIdentifiers(first.extra, '+').value.extra;
      AfterSpacesOf(tail);
      assert extra == Marked("-", pre) + (Marked("+", build) + tail);
    }
    if ExtraDenotes(extra, pre, build) {
      var tail :| Spaces(tail) && extra == Marked("-", pre) + (Marked("+", build) + tail);
      DenotedExtraMatches(pre, build, tail);
    }
  }

  // ---------------------------------------------------------------- the whole text

  lemma {:induction false} JoinStart(comps: seq<string>)
    requires |comps| >= 1 && forall i :: 0 <= i < |comps| ==> Digits(comps[i])
    ensures Join(comps) != "" && IsDigit(Join(comps)[0])
  {
    assert IsDigit(comps[0][0]);
  }

  lemma {:induction false} ComposedMatches(str: string, lead: string, mark: string, comps: seq<string>, extra: string)
    requires Composed(str, lead, mark, comps, extra)
    ensures MatchVersion(str) == Some(Parts(Join(comps), extra))
    ensures Split(Join(comps)) == comps
  {
    var numbers := Join(comps);
    JoinStart(comps);
    JoinIsFields(comps, IsDigit);
    assert forall i :: 0 <= i < |comps| ==> '.' !in comps[i];
    SplitJoin(comps);
    var body := numbers + extra;
    var rest := mark + body;
    assert body[0] == numbers[0];
    assert rest[0] == if mark == "" then body[0] else 'v';
    RunOfAppend(lead, rest, IsSpace);
    assert str[|lead|..] == rest;
    assert AfterV(rest) == body by {
      if mark == "v" {
        assert rest[1..] == body;
      } else {
        assert rest == body;
      }
    }
    FieldRunOfAppend(numbers, extra, IsDigit);
    assert body[..|numbers|] == numbers && body[|numbers|..] == extra;
  }

  lemma {:induction false} NumbersAreSplit(body: string)
    requires FieldRun(body, IsDigit) > 0
    ensures var n := FieldRun(body, IsDigit);
            && !Continues(body[n..], IsDigit)
            && (forall i :: 0 <= i < |Split(body[..n])| ==> IsField(Split(body[..n])[i], IsDigit))
            && body == Join(Split(body[..n])) + body[n..]
  {
    var n := FieldRun(body, IsDigit);
    CapturedFields(body, IsDigit);
    FieldRunIsLongest(body, IsDigit);
    SplitFields(body[..n], IsDigit);
    assert body == body[..n] + body[n..];
  }

  function MarkOf(rest: string): string {
    if rest != "" && rest[0] == 'v' then "v" else ""
  }

  lemma {:induction false} Peeled(str: string)
    ensures var lead, rest := str[..Run(str, IsSpace)], AfterSpaces(str);
            Spaces(lead) && str == lead + (MarkOf(rest) + AfterV(rest))
  {
    var rest := AfterSpaces(str);
    assert rest == MarkOf(rest) + AfterV(rest);
    assert str == str[..Run(str, IsSpace)] + rest;
  }

  lemma {:induction false} SplitDigits(body: string)
    requires FieldRun(body, IsDigit) > 0
    ensures forall i :: 0 <= i < |Split(body[..FieldRun(body, IsDigit)])| ==> Digits(Split(body[..FieldRun(body, IsDigit)])[i])
  {
    NumbersAreSplit(body);
    var parts := Split(body[..FieldRun(body, IsDigit)]);
    forall i | 0 <= i < |parts|
      ensures Digits(parts[i])
    {
      assert IsField(parts[i], IsDigit);
    }
  }

  lemma {:induction false} ComposedFrom(str: string, lead: string, mark: string, body: string)
    requires Spaces(lead) && (mark == "" || mark == "v") && str == lead + (mark + body)
    requires FieldRun(body, IsDigit) > 0 && '\n' !in body[FieldRun(body, IsDigit)..]
    ensures var n := FieldRun(body, IsDigit); Composed(str, lead, mark, Split(body[..n]), body[n..])
  {
    NumbersAreSplit(body);
    SplitDigits(body);
  }

  lemma {:induction false} MatchedIsComposed(str: string)
    requires MatchVersion(str).Some?
    ensures var parts := MatchVersion(str).value;
            exists lead, mark :: Composed(str, lead, mark, Split(parts.numbers), parts.extra)
  {
    var rest := AfterSpaces(str);
    Peeled(str);
    ComposedFrom(str, str[..Run(str, IsSpace)], MarkOf(rest), AfterV(rest));
  }

  /** What the code checks, in one place. */
  predicate Accepted(comps: seq<string>, extra: string, semver: bool, v: Version) {
    && CountAllowed(|comps|, semver) && ComponentsAllowed(comps, semver)
    && v.components == ComponentValues(comps) && v.semver == semver
    && if semver then MatchExtra(extra) == Some(Extra(v.preRelease, v.buildMetadata)) && PreReleaseAllowed(v.preRelease)
       else v.preRelease == "" && v.buildMetadata == ""
  }

  lemma {:induction false} AcceptedIff(comps: seq<string>, extra: string, semver: bool, v: Version)
    ensures Accepted(comps, extra, semver, v) <==> Means(comps, extra, semver, v)
  {
    ComponentsIff(comps, semver, v.components);
    ExtraIff(extra, v.preRelease, v.buildMetadata);
    NoLeadingZerosIff(v.preRelease);
  }

  lemma {:induction false} ParsedMeans(str: string, semver: bool, parts: Parts, v: Version)
    requires MatchVersion(str) == Some(parts)
    ensures Parsed(str, semver) == Some(v) <==> Means(Split(parts.numbers), parts.extra, semver, v)
  {
    EmptyExtra();
    assert Parsed(str, semver) == Some(v) <==> Accepted(Split(parts.numbers), parts.extra, semver, v);
    AcceptedIff(Split(parts.numbers), parts.extra, semver, v);
  }

  lemma {:induction false} EmptyExtra()
    ensures MatchExtra("") == Some(Extra("", "")) && PreReleaseAllowed("")
  {
    assert Split("") == [""];
    assert Run("", IsSpace) == 0;
  }

  /** The parser accepts exactly the texts of the grammar, with the version they denote. */
  lemma {:induction false} ParsedIff(str: string, semver: bool, v: Version)
    ensures Parsed(str, semver) == Some(v) <==> Denotes(str, semver, v)
  {
    if Parsed(str, semver) == Some(v) {
      var parts := MatchVersion(str).value;
      MatchedIsComposed(str);
      ParsedMeans(str, semver, parts, v);
      var lead, mark :| Composed(str, lead, mark, Split(parts.numbers), parts.extra);
    }
    if Denotes(str, semver, v) {
      var lead, mark, comps, extra :| Composed(str, lead, mark, comps, extra) && Means(comps, extra, semver, v);
      ComposedMatches(str, lead, mark, comps, extra);
      ParsedMeans(str, semver, Parts(Join(comps), extra), v);
    }
  }
}
