/** The order on versions: the second half of pkg/util/version/version.go, against zero-padded
    numeric comparison and against section 11 of Semantic Versioning 2.0.0. */
module VersionOrder {
  import opened ProxyTypes
  import opened VersionText
  import opened VersionNumber

  // ---------------------------------------------------------------- what the code computes

  /** A component, or zero where there is none. */
  function At(components: seq<nat>, i: nat): nat {
    if i < |components| then components[i] else 0
  }

  function ComparedNumbers(a: seq<nat>, b: seq<nat>, i: nat): int
    decreases |a| - i
  {
    if i >= |a| then 0
    else if At(b, i) < a[i] then 1
    else if At(b, i) > a[i] then -1
    else ComparedNumbers(a, b, i + 1)
  }

  /** Byte-wise order of strings. */
  function Lexical(a: string, b: string): int {
    if a == "" then (if b == "" then 0 else -1)
    else if b == "" then 1
    else if a[0] < b[0] then -1
    else if a[0] > b[0] then 1
    else Lexical(a[1..], b[1..])
  }

  function Order(a: int, b: int): int {
    if a < b then -1 else if a > b then 1 else 0
  }

  function ComparedIdentifier(a: string, b: string): int {
    var x, y := ParseUint(a), ParseUint(b);
    if x.Some? && y.Some? then Order(x.value, y.value) else Lexical(a, b)
  }

  function ComparedIdentifiers(v: seq<string>, other: seq<string>, i: nat): int
    decreases |v| - i
  {
    if i >= |v| then 0
    else if i >= |other| then 1
    else
      var c := ComparedIdentifier(v[i], other[i]);
      if c != 0 then c else ComparedIdentifiers(v, other, i + 1)
  }

  function Compared(v: Version, other: Version): int {
    var c := ComparedNumbers(v.components, other.components, 0);
    if c != 0 then c
    else if !v.semver || !other.semver then 0
    else if v.preRelease == "" && other.preRelease != "" then 1
    else if v.preRelease != "" && other.preRelease == "" then -1
    else if v.preRelease == other.preRelease then 0
    else ComparedIdentifiers(Split(v.preRelease), Split(other.preRelease), 0)
  }

  method CompareInternal(v: Version, other: Version) returns (r: int)
    ensures r == Compared(v, other)
  {
    for i := 0 to |v.components|
      invariant ComparedNumbers(v.components, other.components, 0) == ComparedNumbers(v.components, other.components, i)
    {
      if i >= |other.components| {
        if v.components[i] != 0 {
          return 1;
        }
      } else if other.components[i] < v.components[i] {
        return 1;
      } else if other.components[i] > v.components[i] {
        return -1;
      }
    }
    if !v.semver || !other.semver {
      return 0;
    }
    if v.preRelease == "" && other.preRelease != "" {
      return 1;
    }
    if v.preRelease != "" && other.preRelease == "" {
      return -1;
    }
    if v.preRelease == other.preRelease {
      return 0;
    }
    var vPR, oPR := Split(v.preRelease), Split(other.preRelease);
    for i := 0 to |vPR|
      invariant i <= |oPR|
      invariant ComparedIdentifiers(vPR, oPR, 0) == ComparedIdentifiers(vPR, oPR, i)
    {
      if i >= |oPR| {
        return 1;
      }
      var vNum, oNum := ParseUint(vPR[i]), ParseUint(oPR[i]);
      if vNum.Some? && oNum.Some? {
        if oNum.value < vNum.value {
          return 1;
        } else if oNum.value > vNum.value {
          return -1;
        }
        continue;
      }
      var c := Lexical(vPR[i], oPR[i]);
      if c == 1 {
        return 1;
      } else if c == -1 {
        return -1;
      }
      LexicalRange(vPR[i], oPR[i]);
    }
    return 0;
  }

  lemma {:induction false} LexicalRange(a: string, b: string)
    ensures Lexical(a, b) == -1 || Lexical(a, b) == 0 || Lexical(a, b) == 1
    ensures Lexical(a, b) == 0 <==> a == b
  {
    if a != "" && b != "" {
      LexicalRange(a[1..], b[1..]);
      assert a == [a[0]] + a[1..] && b == [b[0]] + b[1..];
    }
  }

  /** The order of strings by bytes: at the first difference the smaller byte decides, and a proper
      prefix comes first. */
  ghost predicate ByteLess(a: string, b: string) {
    exists k: nat :: ByteLessAt(a, b, k)
  }

  ghost predicate ByteLessAt(a: string, b: string, k: nat) {
    && k <= |a| && k <= |b| && a[..k] == b[..k]
    && ((k == |a| && k < |b|) || (k < |a| && k < |b| && a[k] < b[k]))
  }

  lemma {:induction false} ByteLessTail(a: string, b: string)
    requires a != "" && b != "" && a[0] == b[0]
    ensures ByteLess(a, b) <==> ByteLess(a[1..], b[1..])
  {
    if k: nat :| ByteLessAt(a, b, k) {
      assert k > 0;
      assert a[1..][..k - 1] == a[..k][1..] && b[1..][..k - 1] == b[..k][1..];
      assert ByteLessAt(a[1..], b[1..], k - 1);
    }
    if k: nat :| ByteLessAt(a[1..], b[1..], k) {
      assert a[..k + 1] == [a[0]] + a[1..][..k] && b[..k + 1] == [b[0]] + b[1..][..k];
      assert ByteLessAt(a, b, k + 1);
    }
  }

  lemma {:induction false} HeadsAgree(a: string, b: string, k: nat)
    requires 0 < k <= |a| && k <= |b| && a[..k] == b[..k]
    ensures a[0] == b[0]
  {
    assert a[..k][0] == a[0] && b[..k][0] == b[0];
  }

  lemma {:induction false} ByteLessHead(a: string, b: string)
    ensures a == "" ==> (ByteLess(a, b) <==> b != "")
    ensures b == "" ==> !ByteLess(a, b)
    ensures a != "" && b != "" && a[0] != b[0] ==> (ByteLess(a, b) <==> a[0] < b[0])
  {
    if a == "" && b != "" {
      assert ByteLessAt(a, b, 0);
    }
    if a != "" && b != "" && a[0] != b[0] {
      if a[0] < b[0] {
        assert ByteLessAt(a, b, 0);
      }
      forall k: nat | ByteLessAt(a, b, k)
        ensures k == 0
      {
        if k > 0 {
          HeadsAgree(a, b, k);
        }
      }
    }
  }

  lemma {:induction false} LexicalMeans(a: string, b: string)
    ensures Lexical(a, b) == -1 <==> ByteLess(a, b)
    ensures Lexical(a, b) == 1 <==> ByteLess(b, a)
  {
    ByteLessHead(a, b);
    ByteLessHead(b, a);
    if a != "" && b != "" && a[0] == b[0] {
      LexicalMeans(a[1..], b[1..]);
      ByteLessTail(a, b);
      ByteLessTail(b, a);
    }
  }

  function AtLeast(v: Version, min: Version): bool {
    Compared(v, min) != -1
  }

  function LessThan(v: Version, other: Version): bool {
    Compared(v, other) == -1
  }

  // ---------------------------------------------------------------- numeric order

  /** The first place where the zero-padded components differ. */
  ghost predicate DifferFirstAt(a: seq<nat>, b: seq<nat>, k: nat) {
    At(a, k) != At(b, k) && forall i: nat :: i < k ==> At(a, i) == At(b, i)
  }

  /** Zero-padded numeric order. */
  ghost predicate NumericLess(a: seq<nat>, b: seq<nat>) {
    exists k: nat :: DifferFirstAt(a, b, k) && At(a, k) < At(b, k)
  }

  lemma FirstDifferenceIsUnique(a: seq<nat>, b: seq<nat>, k: nat, m: nat)
    requires DifferFirstAt(a, b, k) && DifferFirstAt(a, b, m)
    ensures k == m
  {
  }

  /** What the component loop finds, from `i` on. */
  lemma {:induction false} ComparedNumbersMeans(a: seq<nat>, b: seq<nat>, i: nat)
    requires i <= |a| && forall j: nat :: j < i ==> At(a, j) == At(b, j)
    ensures
      var c := ComparedNumbers(a, b, i);
      || (c == 0 && forall j: nat :: j < |a| ==> At(a, j) == At(b, j))
      || (c == -1 && NumericLess(a, b) && !NumericLess(b, a))
      || (c == 1 && NumericLess(b, a) && !NumericLess(a, b))
    decreases |a| - i
  {
    if i < |a| {
      if At(a, i) == At(b, i) {
        ComparedNumbersMeans(a, b, i + 1);
      } else {
        assert DifferFirstAt(a, b, i) && DifferFirstAt(b, a, i);
        forall k: nat | DifferFirstAt(a, b, k) || DifferFirstAt(b, a, k)
          ensures k == i
        {
          assert DifferFirstAt(a, b, k);
          FirstDifferenceIsUnique(a, b, k, i);
        }
      }
    }
  }

  /** The minimum has a non-zero component beyond the ones that `v` has, all equal so far. */
  ghost predicate LosesTail(v: seq<nat>, min: seq<nat>) {
    && (forall j: nat :: j < |v| ==> At(v, j) == At(min, j))
    && exists k: nat :: |v| <= k < |min| && min[k] != 0
  }

  lemma TailMeansLess(v: seq<nat>, min: seq<nat>)
    requires forall j: nat :: j < |v| ==> At(v, j) == At(min, j)
    ensures NumericLess(v, min) <==> LosesTail(v, min)
  {
    if NumericLess(v, min) {
      var k: nat :| DifferFirstAt(v, min, k) && At(v, k) < At(min, k);
      assert |v| <= k < |min| && min[k] != 0;
    }
    if LosesTail(v, min) {
      var m: nat :| |v| <= m < |min| && min[m] != 0;
      var k := FirstNonZero(v, min, m);
      assert DifferFirstAt(v, min, k) && At(v, k) < At(min, k);
    }
  }

  lemma {:induction false} FirstNonZero(v: seq<nat>, min: seq<nat>, m: nat) returns (k: nat)
    requires forall j: nat :: j < |v| ==> At(v, j) == At(min, j)
    requires |v| <= m < |min| && min[m] != 0
    ensures DifferFirstAt(v, min, k) && |v| <= k <= m
    decreases m
  {
    if j: nat :| |v| <= j < m && min[j] != 0 {
      k := FirstNonZero(v, min, j);
    } else {
      k := m;
    }
  }

  /** When one side is not a semantic version, `AtLeast` is zero-padded numeric comparison if and
      only if the minimum does not go on with a non-zero component after `v` has ended. */
  lemma AtLeastIsNumericIff(v: Version, min: Version)
    requires !v.semver || !min.semver
    ensures (AtLeast(v, min) <==> !NumericLess(v.components, min.components)) <==>
            !LosesTail(v.components, min.components)
  {
    if LosesTail(v.components, min.components) {
      EqualComponentsCompareEqual(v.components, min.components, 0);
      TailMeansLess(v.components, min.components);
    } else {
      ComparedNumbersMeans(v.components, min.components, 0);
      if ComparedNumbers(v.components, min.components, 0) == 0 {
        TailMeansLess(v.components, min.components);
      }
    }
  }

  lemma {:induction false} EqualComponentsCompareEqual(a: seq<nat>, b: seq<nat>, i: nat)
    requires forall j: nat :: j < |a| ==> At(a, j) == At(b, j)
    ensures ComparedNumbers(a, b, i) == 0
    decreases |a| - i
  {
    if i < |a| {
      assert At(a, i) == At(b, i);
      EqualComponentsCompareEqual(a, b, i + 1);
    }
  }

  /** In particular when `v` has at least as many components as the minimum. */
  lemma AtLeastIsNumeric(v: Version, min: Version)
    requires !v.semver || !min.semver
    requires |v.components| >= |min.components|
    ensures AtLeast(v, min) <==> !NumericLess(v.components, min.components)
    ensures LessThan(v, min) <==> NumericLess(v.components, min.components)
  {
    AtLeastIsNumericIff(v, min);
  }

  /** The two questions are opposites, for all versions. */
  lemma AtLeastIsNotLess(v: Version, min: Version)
    ensures AtLeast(v, min) <==> !LessThan(v, min)
  {
  }

  /** A trailing zero in the minimum changes nothing. */
  lemma {:induction false} TrailingZeroIsIgnored(v: Version, min: Version)
    ensures AtLeast(v, min.(components := min.components + [0])) <==> AtLeast(v, min)
    ensures LessThan(v, min.(components := min.components + [0])) <==> LessThan(v, min)
  {
    SamePadding(v.components, min.components, 0);
  }

  lemma {:induction false} SamePadding(a: seq<nat>, b: seq<nat>, i: nat)
    ensures ComparedNumbers(a, b + [0], i) == ComparedNumbers(a, b, i)
    decreases |a| - i
  {
    if i < |a| {
      SamePadding(a, b, i + 1);
    }
  }

  /** Version 1.4 passes for at least 1.4.1. */
  lemma MissingComponentPasses()
    ensures var v, min := Version([1, 4], false, "", ""), Version([1, 4, 1], false, "", "");
            AtLeast(v, min) && NumericLess(v.components, min.components)
  {
    var v, min := [1, 4], [1, 4, 1];
    assert ComparedNumbers(v, min, 2) == ComparedNumbers(v, min, 1) == 0;
    assert DifferFirstAt(v, min, 2) && At(v, 2) < At(min, 2);
  }

  // ---------------------------------------------------------------- semantic versions

  /** A numeric identifier of Semantic Versioning. */
  predicate IsNumeric(id: string) {
    id != "" && AllDigits(id)
  }

  /** Identifiers: numbers numerically, numbers before the rest, the rest in ASCII order. */
  function IdentifierPrecedence(a: string, b: string): int {
    if IsNumeric(a) && IsNumeric(b) then Order(DecimalValue(a), DecimalValue(b))
    else if IsNumeric(a) then -1
    else if IsNumeric(b) then 1
    else Lexical(a, b)
  }

  /** Identifier by identifier from the left; of two that agree as far as they go, the longer one
      is higher. */
  function PreReleasePrecedence(a: seq<string>, b: seq<string>): int {
    if a == [] then (if b == [] then 0 else -1)
    else if b == [] then 1
    else
      var c := IdentifierPrecedence(a[0], b[0]);
      if c != 0 then c else PreReleasePrecedence(a[1..], b[1..])
  }

  /** Precedence as section 11 of Semantic Versioning 2.0.0 defines it. */
  ghost function Precedence(v: Version, w: Version): int {
    if NumericLess(v.components, w.components) then -1
    else if NumericLess(w.components, v.components) then 1
    else if v.preRelease == "" then (if w.preRelease == "" then 0 else 1)
    else if w.preRelease == "" then -1
    else PreReleasePrecedence(Split(v.preRelease), Split(w.preRelease))
  }

  /** A number printed without needless zeros is the only such text for it. */
  lemma {:induction false} CanonicalDecimal(s: string)
    requires s != "" && AllDigits(s) && !ZeroPrefixed(s)
    ensures Decimal(DecimalValue(s)) == s
    ensures s != "0" ==> DecimalValue(s) > 0
  {
    var init := s[..|s| - 1];
    if |s| == 1 {
      assert init == "";
      assert DecimalValue(s) == DigitValue(s[0]);
      assert s == [s[0]];
    } else {
      assert init[0] == s[0];
      CanonicalDecimal(init);
      assert s == init + [s[|s| - 1]];
    }
  }

  lemma SameNumbers(a: seq<nat>, b: seq<nat>)
    requires |a| == |b|
    ensures ComparedNumbers(a, b, 0) == 0 <==> a == b
    ensures a == b ==> !NumericLess(a, b) && !NumericLess(b, a)
  {
    ComparedNumbersMeans(a, b, 0);
    if ComparedNumbers(a, b, 0) == 0 {
      assert forall j: nat :: j < |a| ==> At(a, j) == a[j] && At(b, j) == b[j];
    }
  }

  /** Pre-release identifiers as the parser lets them pass: not empty, and numbers within 64 bits
      without needless zeros. */
  predicate PassingIdentifier(id: string) {
    id != "" && !(ParseUint(id).Some? && ZeroPrefixed(id))
  }

  predicate PassingPreRelease(v: Version) {
    v.preRelease != "" ==> forall i :: 0 <= i < |Split(v.preRelease)| ==> PassingIdentifier(Split(v.preRelease)[i])
  }

  lemma {:induction false} AllowedPasses(preRelease: string)
    requires preRelease != "" && OptionalIdentifiers(preRelease) && PreReleaseAllowed(preRelease)
    ensures forall i :: 0 <= i < |Split(preRelease)| ==> PassingIdentifier(Split(preRelease)[i])
  {
    SplitFields(preRelease, IsIdentifierChar);
    forall i | 0 <= i < |Split(preRelease)|
      ensures PassingIdentifier(Split(preRelease)[i])
    {
      assert IsField(Split(preRelease)[i], IsIdentifierChar);
    }
  }

  lemma {:induction false} ParsedPasses(str: string)
    requires Parsed(str, true).Some?
    ensures var v := Parsed(str, true).value; v.semver && |v.components| == 3 && PassingPreRelease(v)
  {
    var v := Parsed(str, true).value;
    ParsedIsParseable(str, true);
    ParseablePasses(v);
  }

  lemma {:induction false} ParseablePasses(v: Version)
    requires Parseable(v) && v.semver
    ensures |v.components| == 3 && PassingPreRelease(v)
  {
    if v.preRelease != "" {
      AllowedPasses(v.preRelease);
    }
  }

  lemma {:induction false} LeadingZeroIsWorthless(s: string)
    requires AllDigits(s)
    ensures AllDigits("0" + s) && DecimalValue("0" + s) == DecimalValue(s)
  {
    var z := "0" + s;
    if s == "" {
      assert z == "0" && z[..0] == "";
      assert DecimalValue(z[..0]) == 0;
    } else {
      LeadingZeroIsWorthless(s[..|s| - 1]);
      assert z[..|z| - 1] == "0" + s[..|s| - 1];
    }
  }

  lemma {:induction false} LongZeroIsAllowed(n: nat)
    requires n >= UINT_LIMIT
    ensures var id := "0" + Decimal(n);
            OptionalIdentifiers(id) && PreReleaseAllowed(id) && IsNumeric(id) && ZeroPrefixed(id)
  {
    var id := "0" + Decimal(n);
    DecimalRoundTrip(n);
    LeadingZeroIsWorthless(Decimal(n));
    assert '.' !in id;
    SplitWithoutDot(id);
    assert IsField(id, IsIdentifierChar);
    JoinIsFields([id], IsIdentifierChar);
    assert Join([id]) == id;
  }

  /** Beyond 64 bits the parser lets numbers with needless zeros pass, against section 9 of Semantic
      Versioning 2.0.0. */
  lemma {:induction false} LongZeroIsAccepted(n: nat)
    requires n >= UINT_LIMIT
    ensures var v := Version([1, 0, 0], true, "0" + Decimal(n), "");
            Parsed(Printed(v), true) == Some(v) && IsNumeric(v.preRelease) && ZeroPrefixed(v.preRelease)
  {
    LongZeroIsAllowed(n);
    ParseableRoundTrip(Version([1, 0, 0], true, "0" + Decimal(n), ""));
  }

  /** A number and another identifier that byte order puts the wrong way round, or two numbers, one
      of them beyond 64 bits, that byte order does not put in numeric order. */
  predicate Misordered(a: string, b: string) {
    if AllDigits(a) && AllDigits(b) then
      (ParseUint(a).None? || ParseUint(b).None?) && Lexical(a, b) != Order(DecimalValue(a), DecimalValue(b))
    else
      (AllDigits(a) && Lexical(a, b) == 1) || (AllDigits(b) && Lexical(a, b) == -1)
  }

  lemma IdentifiersCompareIff(a: string, b: string)
    requires PassingIdentifier(a) && PassingIdentifier(b) && a != b
    ensures ComparedIdentifier(a, b) != 0
    ensures ComparedIdentifier(a, b) == IdentifierPrecedence(a, b) <==> !Misordered(a, b)
  {
    LexicalRange(a, b);
    if ParseUint(a).Some? && ParseUint(b).Some? {
      CanonicalDecimal(a);
      CanonicalDecimal(b);
    }
  }

  /** The first identifier in which two lists differ. */
  ghost predicate FirstDifferent(a: seq<string>, b: seq<string>, k: nat) {
    k < |a| && k < |b| && a[..k] == b[..k] && a[k] != b[k]
  }

  lemma {:induction false} DifferOrPrefix(a: seq<string>, b: seq<string>) returns (k: nat)
    ensures k <= |a| && k <= |b| && a[..k] == b[..k]
    ensures FirstDifferent(a, b, k) || k == |a| || k == |b|
  {
    if a == [] || b == [] || a[0] != b[0] {
      k := 0;
    } else {
      var m := DifferOrPrefix(a[1..], b[1..]);
      k := m + 1;
      assert a[..k] == [a[0]] + a[1..][..m] && b[..k] == [b[0]] + b[1..][..m];
    }
  }

  lemma EqualIdentifier(a: string)
    ensures ComparedIdentifier(a, a) == 0 && IdentifierPrecedence(a, a) == 0
  {
    LexicalRange(a, a);
  }

  /** Equal identifiers in front do not matter. */
  lemma {:induction false} SkipEqual(a: seq<string>, b: seq<string>, i: nat, k: nat)
    requires i <= k <= |a| && k <= |b| && a[..k] == b[..k]
    ensures ComparedIdentifiers(a, b, i) == ComparedIdentifiers(a, b, k)
    ensures PreReleasePrecedence(a[i..], b[i..]) == PreReleasePrecedence(a[k..], b[k..])
    decreases k - i
  {
    if i < k {
      assert a[i] == a[..k][i] == b[..k][i] == b[i];
      EqualIdentifier(a[i]);
      SkipEqual(a, b, i + 1, k);
      assert a[i..][1..] == a[i + 1..] && b[i..][1..] == b[i + 1..];
    }
  }

  /** Where comparing identifiers goes wrong: the first different ones are misordered, or they are
      equal numbers and byte order does not decide as the rest would. */
  ghost predicate MisorderedAt(a: seq<string>, b: seq<string>, k: nat) {
    && FirstDifferent(a, b, k)
    && if IdentifierPrecedence(a[k], b[k]) == 0
       then Lexical(a[k], b[k]) != PreReleasePrecedence(a[k + 1..], b[k + 1..])
       else Misordered(a[k], b[k])
  }

  lemma {:induction false} DecidedAt(a: seq<string>, b: seq<string>, k: nat)
    requires k < |a| && k < |b| && PassingIdentifier(a[k]) && PassingIdentifier(b[k]) && a[k] != b[k]
    ensures ComparedIdentifiers(a, b, k) == ComparedIdentifier(a[k], b[k])
    ensures PreReleasePrecedence(a[k..], b[k..]) ==
            if IdentifierPrecedence(a[k], b[k]) != 0 then IdentifierPrecedence(a[k], b[k])
            else PreReleasePrecedence(a[k + 1..], b[k + 1..])
    ensures IdentifierPrecedence(a[k], b[k]) == 0 ==> ComparedIdentifier(a[k], b[k]) == Lexical(a[k], b[k])
  {
    IdentifiersCompareIff(a[k], b[k]);
    LexicalRange(a[k], b[k]);
    assert a[k..][1..] == a[k + 1..] && b[k..][1..] == b[k + 1..];
    assert a[k..][0] == a[k] && b[k..][0] == b[k];
  }

  lemma {:induction false} ListsCompareIff(a: seq<string>, b: seq<string>)
    requires forall i :: 0 <= i < |a| ==> PassingIdentifier(a[i])
    requires forall i :: 0 <= i < |b| ==> PassingIdentifier(b[i])
    ensures a < b ==> ComparedIdentifiers(a, b, 0) == 0 && PreReleasePrecedence(a, b) == -1
    ensures a == b ==> ComparedIdentifiers(a, b, 0) == 0 && PreReleasePrecedence(a, b) == 0
    ensures ComparedIdentifiers(a, b, 0) == PreReleasePrecedence(a, b) <==>
            !(a < b) && !exists k: nat :: MisorderedAt(a, b, k)
  {
    var k := DifferOrPrefix(a, b);
    SkipEqual(a, b, 0, k);
    assert a[0..] == a && b[0..] == b;
    if FirstDifferent(a, b, k) {
      DecidedAt(a, b, k);
      IdentifiersCompareIff(a[k], b[k]);
      forall m: nat | FirstDifferent(a, b, m)
        ensures m == k
      {
        SameFirstDifference(a, b, k, m);
      }
      assert MisorderedAt(a, b, k) <==> ComparedIdentifiers(a, b, k) != PreReleasePrecedence(a[k..], b[k..]);
      assert !(a <= b) by { assert a[k] != b[k]; }
    } else {
      forall m: nat
        ensures !MisorderedAt(a, b, m)
      {
        if m < k {
          SharedPrefix(a, b, k, m);
        }
      }
    }
  }

  lemma SameFirstDifference(a: seq<string>, b: seq<string>, k: nat, m: nat)
    requires FirstDifferent(a, b, k) && FirstDifferent(a, b, m)
    ensures k == m
  {
    if k < m {
      SharedPrefix(a, b, m, k);
    } else if m < k {
      SharedPrefix(a, b, k, m);
    }
  }

  lemma SharedPrefix(a: seq<string>, b: seq<string>, k: nat, j: nat)
    requires j < k <= |a| && k <= |b| && a[..k] == b[..k]
    ensures a[j] == b[j]
  {
    assert a[j] == a[..k][j];
  }

  /** The numbers are equal and the pre-releases are compared wrongly: `v`'s is a proper prefix of
      the other's, or their first different identifiers are misordered. */
  ghost predicate PreReleaseMisjudged(v: Version, other: Version) {
    && v.components == other.components
    && v.preRelease != "" && other.preRelease != ""
    && var a, b := Split(v.preRelease), Split(other.preRelease);
       a < b || exists k: nat :: MisorderedAt(a, b, k)
  }

  lemma {:induction false} PassingCompareIff(v: Version, other: Version)
    requires v.semver && other.semver && |v.components| == 3 == |other.components|
    requires PassingPreRelease(v) && PassingPreRelease(other)
    ensures Compared(v, other) == Precedence(v, other) <==> !PreReleaseMisjudged(v, other)
  {
    ComparedNumbersMeans(v.components, other.components, 0);
    SameNumbers(v.components, other.components);
    if v.components == other.components && v.preRelease != "" && other.preRelease != "" {
      ListsCompareIff(Split(v.preRelease), Split(other.preRelease));
    }
  }

  /** For any two texts that parse as semantic versions, comparison is precedence if and only if the
      pre-releases are not misjudged. */
  lemma {:induction false} ComparedIsPrecedenceIff(s: string, t: string)
    requires Parsed(s, true).Some? && Parsed(t, true).Some?
    ensures var v, other := Parsed(s, true).value, Parsed(t, true).value;
            Compared(v, other) == Precedence(v, other) <==> !PreReleaseMisjudged(v, other)
  {
    ParsedPasses(s);
    ParsedPasses(t);
    PassingCompareIff(Parsed(s, true).value, Parsed(t, true).value);
  }

  /** An identifier that fits 64 bits as a number, or starts with a letter. */
  predicate Plain(id: string) {
    ParseUint(id).Some? || (id != "" && IsLetter(id[0]))
  }

  lemma PlainIsNotMisordered(a: string, b: string)
    requires Plain(a) && Plain(b)
    ensures !Misordered(a, b)
  {
    assert ParseUint(a).Some? <==> IsNumeric(a);
    assert ParseUint(b).Some? <==> IsNumeric(b);
  }

  predicate PlainPreRelease(v: Version) {
    v.preRelease != "" ==> forall i :: 0 <= i < |Split(v.preRelease)| ==> Plain(Split(v.preRelease)[i])
  }

  /** For any two texts that parse as semantic versions with plain identifiers, the only exception is
      a pre-release compared to one that continues it, and there the two compare as equal. */
  lemma {:induction false} PlainVersionsCompareIff(s: string, t: string)
    requires Parsed(s, true).Some? && Parsed(t, true).Some?
    requires PlainPreRelease(Parsed(s, true).value) && PlainPreRelease(Parsed(t, true).value)
    ensures
      var v, other := Parsed(s, true).value, Parsed(t, true).value;
      var continued := v.components == other.components && v.preRelease != "" && other.preRelease != ""
                       && Split(v.preRelease) < Split(other.preRelease);
      && (Compared(v, other) == Precedence(v, other) <==> !continued)
      && (continued ==> Compared(v, other) == 0 && Precedence(v, other) == -1)
  {
    ParsedPasses(s);
    ParsedPasses(t);
    PlainCompareIff(Parsed(s, true).value, Parsed(t, true).value);
  }

  lemma {:induction false} PlainCompareIff(v: Version, other: Version)
    requires v.semver && other.semver && |v.components| == 3 == |other.components|
    requires PassingPreRelease(v) && PassingPreRelease(other)
    requires PlainPreRelease(v) && PlainPreRelease(other)
    ensures
      var continued := v.components == other.components && v.preRelease != "" && other.preRelease != ""
                       && Split(v.preRelease) < Split(other.preRelease);
      && (Compared(v, other) == Precedence(v, other) <==> !continued)
      && (continued ==> Compared(v, other) == 0 && Precedence(v, other) == -1)
  {
    PassingCompareIff(v, other);
    if v.preRelease != "" && other.preRelease != "" {
      var a, b := Split(v.preRelease), Split(other.preRelease);
      forall k: nat
        ensures !MisorderedAt(a, b, k)
      {
        if FirstDifferent(a, b, k) {
          PlainIsNotMisordered(a[k], b[k]);
          IdentifiersCompareIff(a[k], b[k]);
        }
      }
      ListsCompareIff(a, b);
      SameNumbers(v.components, other.components);
    }
  }

  /** What precedence says of two identifiers: numbers by value, numbers before the rest, the rest by
      bytes. */
  lemma IdentifierPrecedenceMeans(a: string, b: string)
    ensures IsNumeric(a) && IsNumeric(b) ==>
              && (IdentifierPrecedence(a, b) == -1 <==> DecimalValue(a) < DecimalValue(b))
              && (IdentifierPrecedence(a, b) == 1 <==> DecimalValue(a) > DecimalValue(b))
    ensures IsNumeric(a) && !IsNumeric(b) ==> IdentifierPrecedence(a, b) == -1
    ensures !IsNumeric(a) && IsNumeric(b) ==> IdentifierPrecedence(a, b) == 1
    ensures !IsNumeric(a) && !IsNumeric(b) ==>
              && (IdentifierPrecedence(a, b) == -1 <==> ByteLess(a, b))
              && (IdentifierPrecedence(a, b) == 1 <==> ByteLess(b, a))
  {
    LexicalMeans(a, b);
  }

  lemma {:induction false} PrecedenceRange(a: seq<string>, b: seq<string>)
    ensures -1 <= PreReleasePrecedence(a, b) <= 1
  {
    if a != [] && b != [] {
      LexicalRange(a[0], b[0]);
      PrecedenceRange(a[1..], b[1..]);
    }
  }

  /** Two numbers beyond 64 bits that are equal, the first with bytes that come later, and nothing
      after them decides. */
  ghost predicate HigherTieAt(a: seq<string>, b: seq<string>, k: nat) {
    && FirstDifferent(a, b, k) && IdentifierPrecedence(a[k], b[k]) == 0 && ByteLess(b[k], a[k])
    && PreReleasePrecedence(a[k + 1..], b[k + 1..]) == 0
  }

  ghost predicate HigherTie(v: Version, other: Version) {
    exists k: nat :: HigherTieAt(Split(v.preRelease), Split(other.preRelease), k)
  }

  lemma {:induction false} PrefixNeverDiffers(a: seq<string>, b: seq<string>, k: nat)
    requires a < b
    ensures !FirstDifferent(a, b, k)
  {
    if k < |a| {
      assert a[k] == b[k];
    }
  }

  lemma {:induction false} ListsAtLeastIff(a: seq<string>, b: seq<string>)
    requires forall i :: 0 <= i < |a| ==> PassingIdentifier(a[i])
    requires forall i :: 0 <= i < |b| ==> PassingIdentifier(b[i])
    requires ComparedIdentifiers(a, b, 0) != PreReleasePrecedence(a, b)
    ensures (ComparedIdentifiers(a, b, 0) != -1 <==> PreReleasePrecedence(a, b) != -1) <==>
            exists k: nat :: HigherTieAt(a, b, k)
  {
    ListsCompareIff(a, b);
    PrecedenceRange(a, b);
    if a < b {
      forall k: nat
        ensures !HigherTieAt(a, b, k)
      {
        PrefixNeverDiffers(a, b, k);
      }
    } else {
      var k: nat :| MisorderedAt(a, b, k);
      MisorderedAtLeast(a, b, k);
    }
  }

  lemma {:induction false} MisorderedAtLeast(a: seq<string>, b: seq<string>, k: nat)
    requires MisorderedAt(a, b, k) && PassingIdentifier(a[k]) && PassingIdentifier(b[k])
    ensures (ComparedIdentifiers(a, b, 0) != -1 <==> PreReleasePrecedence(a, b) != -1) <==>
            exists m: nat :: HigherTieAt(a, b, m)
  {
    SkipEqual(a, b, 0, k);
    assert a[0..] == a && b[0..] == b;
    DecidedAt(a, b, k);
    IdentifiersCompareIff(a[k], b[k]);
    LexicalRange(a[k], b[k]);
    LexicalMeans(a[k], b[k]);
    PrecedenceRange(a[k + 1..], b[k + 1..]);
    forall m: nat | FirstDifferent(a, b, m)
      ensures m == k
    {
      SameFirstDifference(a, b, k, m);
    }
    assert (exists m: nat :: HigherTieAt(a, b, m)) <==> HigherTieAt(a, b, k);
  }

  /** For any two texts that parse as semantic versions: the answers are those of precedence when the
      pre-releases are not misjudged, and otherwise wrong, unless they are a tie of numbers that
      leaves the first at least as high. */
  lemma {:induction false} AtLeastIsPrecedenceIff(s: string, t: string)
    requires Parsed(s, true).Some? && Parsed(t, true).Some?
    ensures var v, other := Parsed(s, true).value, Parsed(t, true).value;
            var right := !PreReleaseMisjudged(v, other) || HigherTie(v, other);
            && ((AtLeast(v, other) <==> Precedence(v, other) != -1) <==> right)
            && ((LessThan(v, other) <==> Precedence(v, other) == -1) <==> right)
  {
    var v, other := Parsed(s, true).value, Parsed(t, true).value;
    ParsedPasses(s);
    ParsedPasses(t);
    ComparedIsPrecedenceIff(s, t);
    if PreReleaseMisjudged(v, other) {
      SameNumbers(v.components, other.components);
      ListsCompareIff(Split(v.preRelease), Split(other.preRelease));
      ListsAtLeastIff(Split(v.preRelease), Split(other.preRelease));
    }
  }

  /** The order can also be wrong the other way: a number comes after an
      identifier that starts with a hyphen. */
  lemma HyphenComparesWrongly()
    ensures
      var v, w := Version([1, 0, 0], true, "1", ""), Version([1, 0, 0], true, "-", "");
      Compared(v, w) == 1 && Precedence(v, w) == -1
  {
    var v, w := Version([1, 0, 0], true, "1", ""), Version([1, 0, 0], true, "-", "");
    SplitWithoutDot("1");
    SplitWithoutDot("-");
    SameNumbers(v.components, w.components);
    assert !AllDigits("-") by { assert !IsDigit("-"[0]); }
    assert ParseUint("-").None?;
    assert Lexical("1", "-") == 1;
    assert ComparedIdentifier("1", "-") == 1;
    assert IsNumeric("1") && !IsNumeric("-");
  }
}
