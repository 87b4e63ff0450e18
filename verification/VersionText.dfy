/** Text handling behind version numbers: decimal numbers, splitting at dots, and the two field
    patterns that the version expressions are made of. */
module VersionText {
  import opened ProxyTypes

  // ---------------------------------------------------------------- decimal numbers

  /** One more than the largest 64-bit number. */
  const UINT_LIMIT: nat := 0x1_0000_0000_0000_0000

  predicate IsDigit(c: char) {
    '0' <= c <= '9'
  }

  predicate AllDigits(s: string) {
    forall i :: 0 <= i < |s| ==> IsDigit(s[i])
  }

  function DigitValue(c: char): nat
    requires IsDigit(c)
  {
    c as int - '0' as int
  }

  function DigitChar(n: nat): (c: char)
    requires n < 10
    ensures IsDigit(c) && DigitValue(c) == n
  {
    ('0' as int + n) as char
  }

  function DecimalValue(s: string): nat
    requires AllDigits(s)
  {
    if s == "" then 0 else 10 * DecimalValue(s[..|s| - 1]) + DigitValue(s[|s| - 1])
  }

  /** Parsing fails on the empty string, on anything but digits, and beyond 64 bits. */
  function ParseUint(s: string): Option<nat> {
    if s != "" && AllDigits(s) && DecimalValue(s) < UINT_LIMIT then Some(DecimalValue(s)) else None
  }

  function Decimal(n: nat): string {
    if n < 10 then [DigitChar(n)] else Decimal(n / 10) + [DigitChar(n % 10)]
  }

  predicate ZeroPrefixed(s: string) {
    s != "" && s[0] == '0' && s != "0"
  }

  /** Printing and parsing are inverse, and what is printed has no needless zero in front. */
  lemma {:induction false} DecimalRoundTrip(n: nat)
    ensures Decimal(n) != "" && AllDigits(Decimal(n)) && DecimalValue(Decimal(n)) == n
    ensures !ZeroPrefixed(Decimal(n)) && (n > 0 ==> Decimal(n)[0] != '0')
  {
    if n >= 10 {
      DecimalRoundTrip(n / 10);
      var s := Decimal(n);
      assert s[..|s| - 1] == Decimal(n / 10);
      assert s[0] == Decimal(n / 10)[0];
    } else {
      assert Decimal(n)[..0] == "";
      assert DecimalValue(Decimal(n)[..0]) == 0;
    }
  }

  /** A further digit counts once, and the digits before it ten times. */
  lemma {:induction false} FurtherDigit(s: string, c: char)
    requires AllDigits(s) && '0' <= c <= '9'
    ensures AllDigits(s + [c]) && DecimalValue(s + [c]) == 10 * DecimalValue(s) + (c as int - 48)
  {
    assert (s + [c])[..|s + [c]| - 1] == s;
  }

  /** Numbers are parsed up to 2^64 - 1. */
  lemma {:induction false} ParsesWithin64Bits(n: nat)
    ensures ParseUint(Decimal(n)) == if n <= 18446744073709551615 then Some(n) else None
  {
    DecimalRoundTrip(n);
  }

  // ---------------------------------------------------------------- splitting at dots

  /** The pieces between dots; one empty piece for the empty string. */
  function Split(s: string): (parts: seq<string>)
    ensures |parts| >= 1
  {
    if s == "" then [""]
    else
      var rest := Split(s[1..]);
      if s[0] == '.' then [""] + rest else [[s[0]] + rest[0]] + rest[1..]
  }

  function Join(parts: seq<string>): string
    requires |parts| >= 1
  {
    if |parts| == 1 then parts[0] else parts[0] + "." + Join(parts[1..])
  }

  lemma {:induction false} SplitWithoutDot(s: string)
    requires '.' !in s
    ensures Split(s) == [s]
  {
    if s != "" {
      assert '.' !in s[1..];
      SplitWithoutDot(s[1..]);
      assert [s[0]] + s[1..] == s;
    }
  }

  lemma {:induction false} SplitAtFirstDot(a: string, b: string)
    requires '.' !in a
    ensures Split(a + "." + b) == [a] + Split(b)
  {
    var s := a + "." + b;
    if a == "" {
      assert s[1..] == b;
    } else {
      assert s[1..] == a[1..] + "." + b;
      assert '.' !in a[1..];
      SplitAtFirstDot(a[1..], b);
      assert [a[0]] + a[1..] == a;
    }
  }

  lemma {:induction false} SplitJoin(parts: seq<string>)
    requires |parts| >= 1 && forall i :: 0 <= i < |parts| ==> '.' !in parts[i]
    ensures Split(Join(parts)) == parts
  {
    if |parts| == 1 {
      SplitWithoutDot(parts[0]);
    } else {
      SplitJoin(parts[1..]);
      SplitAtFirstDot(parts[0], Join(parts[1..]));
    }
  }

  // ---------------------------------------------------------------- dotted fields

  /** How many characters at the front satisfy `cls`. */
  function Run(s: string, cls: char -> bool): (n: nat)
    ensures n <= |s| && (forall i :: 0 <= i < n ==> cls(s[i])) && (n < |s| ==> !cls(s[n]))
  {
    if s == "" || !cls(s[0]) then 0 else 1 + Run(s[1..], cls)
  }

  /** The length of the longest prefix made of one or more non-empty fields of `cls` characters
      with dots between them, or zero. */
  function FieldRun(s: string, cls: char -> bool): (n: nat)
    ensures n <= |s|
    decreases |s|
  {
    var d := Run(s, cls);
    if d > 0 && d + 1 < |s| && s[d] == '.' && cls(s[d + 1]) then d + 1 + FieldRun(s[d + 1..], cls) else d
  }

  /** The whole string consists of such fields. */
  predicate IsFields(s: string, cls: char -> bool) {
    s != "" && FieldRun(s, cls) == |s|
  }

  lemma {:induction false} RunOfAppend(a: string, b: string, cls: char -> bool)
    requires forall i :: 0 <= i < |a| ==> cls(a[i])
    requires b == "" || !cls(b[0])
    ensures Run(a + b, cls) == |a|
  {
    if a == "" {
      assert a + b == b;
    } else {
      assert (a + b)[1..] == a[1..] + b;
      RunOfAppend(a[1..], b, cls);
    }
  }

  /** The text goes on with a character of a field, or with a dot and the start of another field. */
  predicate Continues(s: string, cls: char -> bool) {
    s != "" && (cls(s[0]) || (s[0] == '.' && |s| > 1 && cls(s[1])))
  }

  lemma {:induction false} FirstFieldOf(a: string, b: string, cls: char -> bool)
    requires !cls('.') && a != "" && !Continues(b, cls)
    ensures Run(a + b, cls) == Run(a, cls)
  {
    var d := Run(a, cls);
    assert a == a[..d] + a[d..];
    assert a + b == a[..d] + (a[d..] + b);
    RunOfAppend(a[..d], a[d..] + b, cls);
  }

  /** Fields followed by something that does not continue them are matched exactly. */
  lemma {:induction false} FieldRunOfAppend(a: string, b: string, cls: char -> bool)
    requires !cls('.') && IsFields(a, cls) && !Continues(b, cls)
    ensures FieldRun(a + b, cls) == |a|
    decreases |a|
  {
    var d := Run(a, cls);
    FirstFieldOf(a, b, cls);
    if d < |a| {
      assert (a + b)[d + 1..] == a[d + 1..] + b && (a + b)[d] == a[d] && (a + b)[d + 1] == a[d + 1];
      FieldRunOfAppend(a[d + 1..], b, cls);
    } else {
      assert forall k :: 0 <= k < |b| ==> (a + b)[d + k] == b[k];
    }
  }

  /** What the pattern captures is itself made of fields. */
  lemma {:induction false} CapturedFields(s: string, cls: char -> bool)
    requires !cls('.') && FieldRun(s, cls) > 0
    ensures IsFields(s[..FieldRun(s, cls)], cls)
    decreases |s|
  {
    var d := Run(s, cls);
    var n := FieldRun(s, cls);
    var t := s[..n];
    assert t == s[..d] + s[d..n];
    RunOfAppend(s[..d], s[d..n], cls);
    if n > d {
      CapturedFields(s[d + 1..], cls);
      assert t[d + 1..] == s[d + 1..][..n - d - 1];
    } else {
      assert s[..d] + s[d..n] == s[..d];
    }
  }

  lemma {:induction false} JoinIsFields(parts: seq<string>, cls: char -> bool)
    requires |parts| >= 1 && !cls('.')
    requires forall i :: 0 <= i < |parts| ==> parts[i] != "" && forall j :: 0 <= j < |parts[i]| ==> cls(parts[i][j])
    ensures IsFields(Join(parts), cls)
  {
    var s := Join(parts);
    if |parts| == 1 {
      RunOfAppend(s, "", cls);
      assert s + "" == s;
    } else {
      var rest := Join(parts[1..]);
      JoinIsFields(parts[1..], cls);
      assert s == parts[0] + ("." + rest);
      RunOfAppend(parts[0], "." + rest, cls);
      assert s[|parts[0]| + 1..] == rest;
      assert rest[0] == (if |parts| == 2 then parts[1] else parts[1] + "." + Join(parts[2..]))[0];
      assert cls(parts[1][0]);
    }
  }

  lemma {:induction false} FieldChars(s: string, cls: char -> bool)
    requires !cls('.') && IsFields(s, cls)
    ensures forall i :: 0 <= i < |s| ==> cls(s[i]) || s[i] == '.'
    decreases |s|
  {
    var d := Run(s, cls);
    if d < |s| {
      FieldChars(s[d + 1..], cls);
      forall i | 0 <= i < |s|
        ensures cls(s[i]) || s[i] == '.'
      {
        if i > d {
          assert s[i] == s[d + 1..][i - d - 1];
        }
      }
    }
  }

  /** A field. */
  predicate IsField(s: string, cls: char -> bool) {
    s != "" && forall i :: 0 <= i < |s| ==> cls(s[i])
  }

  /** Splitting fields gives non-empty pieces of `cls` characters, and joining them gives the text. */
  lemma {:induction false} SplitFields(s: string, cls: char -> bool)
    requires !cls('.') && IsFields(s, cls)
    ensures forall i :: 0 <= i < |Split(s)| ==> IsField(Split(s)[i], cls)
    ensures Join(Split(s)) == s
    decreases |s|
  {
    var d := Run(s, cls);
    if d == |s| {
      SplitWithoutDot(s);
    } else {
      var a, b := s[..d], s[d + 1..];
      assert s == a + "." + b;
      SplitAtFirstDot(a, b);
      SplitFields(b, cls);
      var parts := Split(s);
      assert parts[1..] == Split(b) && |parts| >= 2;
    }
  }

  /** The pattern matches as much as it can. */
  lemma {:induction false} FieldRunIsLongest(s: string, cls: char -> bool)
    requires !cls('.')
    ensures FieldRun(s, cls) > 0 ==> !Continues(s[FieldRun(s, cls)..], cls)
    decreases |s|
  {
    var d, n := Run(s, cls), FieldRun(s, cls);
    if n > d {
      FieldRunIsLongest(s[d + 1..], cls);
      assert s[d + 1..][n - d - 1..] == s[n..];
    }
  }
}
