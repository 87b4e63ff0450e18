/** Scanning the output of iptables-save: pkg/util/iptables/save_restore.go. Bytes are characters. */
module SaveRestore {
  // ---------------------------------------------------------------- trimming and splitting

  predicate Blank(s: string) {
    forall i :: 0 <= i < |s| ==> s[i] == ' '
  }

  function TrimLeft(s: string): string {
    if s == "" || s[0] != ' ' then s else TrimLeft(s[1..])
  }

  function TrimRight(s: string): string {
    if s == "" || s[|s| - 1] != ' ' then s else TrimRight(s[..|s| - 1])
  }

  function Trim(s: string): string {
    TrimRight(TrimLeft(s))
  }

  lemma {:induction false} TrimLeftTo(s: string, l: nat)
    requires l <= |s| && Blank(s[..l]) && (l < |s| ==> s[l] != ' ')
    ensures TrimLeft(s) == s[l..]
  {
    if l == 0 {
      assert s[0..] == s;
    } else {
      assert s[0] == s[..l][0];
      assert forall i :: 0 <= i < l - 1 ==> s[1..][i] == s[..l][i + 1];
      TrimLeftTo(s[1..], l - 1);
      assert s[1..][l - 1..] == s[l..];
    }
  }

  lemma {:induction false} TrimRightTo(s: string, r: nat)
    requires r <= |s| && Blank(s[r..]) && (r > 0 ==> s[r - 1] != ' ')
    ensures TrimRight(s) == s[..r]
  {
    if r == |s| {
      assert s[..|s|] == s;
    } else {
      var init := s[..|s| - 1];
      assert s[|s| - 1] == s[r..][|s| - 1 - r];
      assert forall i :: 0 <= i < |init| - r ==> init[r..][i] == s[r..][i];
      TrimRightTo(init, r);
      assert init[..r] == s[..r];
    }
  }

  /** The trimmed text, by its bounds. */
  lemma TrimIs(s: string, l: nat, r: nat)
    requires l < r <= |s| && Blank(s[..l]) && Blank(s[r..]) && s[l] != ' ' && s[r - 1] != ' '
    ensures Trim(s) == s[l..r]
  {
    TrimLeftTo(s, l);
    var t := s[l..];
    assert t[r - l..] == s[r..];
    TrimRightTo(t, r - l);
    assert t[..r - l] == s[l..r];
  }

  lemma TrimBlank(s: string)
    requires Blank(s)
    ensures TrimLeft(s) == "" && Trim(s) == ""
  {
    assert s[..|s|] == s;
    TrimLeftTo(s, |s|);
  }

  /** The place of the first line break from `i` on, or the end. */
  function LineEnd(buf: string, i: nat): (e: nat)
    requires i <= |buf|
    ensures i <= e <= |buf| && '\n' !in buf[i..e] && (e < |buf| ==> buf[e] == '\n')
    decreases |buf| - i
  {
    if i == |buf| || buf[i] == '\n' then i
    else
      var e := LineEnd(buf, i + 1);
      assert buf[i..e] == [buf[i]] + buf[i + 1..e];
      e
  }

  /** The lines, without their breaks; text after the last break is a line of its own. */
  function Lines(buf: string): seq<string> {
    if buf == "" then []
    else
      var e := LineEnd(buf, 0);
      if e == |buf| then [buf] else [buf[..e]] + Lines(buf[e + 1..])
  }

  function TrimmedLines(buf: string): seq<string> {
    seq(|Lines(buf)|, i requires 0 <= i < |Lines(buf)| => Trim(Lines(buf)[i]))
  }

  /** The text after the last line break. */
  function LastLine(buf: string): string {
    var e := LineEnd(buf, 0);
    if e == |buf| then buf else LastLine(buf[e + 1..])
  }

  // ---------------------------------------------------------------- reading a line

  /** What is read of a last line without a break: nothing if it is a single character or ends in
      a space, and a lone last character after spaces is dropped. */
  function TailRead(t: string): string {
    var b := TrimLeft(t);
    if |b| < 2 || b[|b| - 1] == ' ' then ""
    else if b[|b| - 2] == ' ' then TrimRight(b[..|b| - 1])
    else b
  }

  datatype Read = Read(line: string, next: nat)

  function ReadAt(buf: string, i: nat): Read
    requires i <= |buf|
  {
    var e := LineEnd(buf, i);
    if e < |buf| then Read(Trim(buf[i..e]), e + 1) else Read(TailRead(buf[i..]), |buf|)
  }

  lemma {:induction false} LineEndIs(buf: string, i: nat, e: nat)
    requires i <= e <= |buf| && '\n' !in buf[i..e] && (e < |buf| ==> buf[e] == '\n')
    ensures LineEnd(buf, i) == e
    decreases e - i
  {
    if i < e {
      assert buf[i] == buf[i..e][0];
      assert buf[i + 1..e] == buf[i..e][1..];
      LineEndIs(buf, i + 1, e);
    }
  }

  method SkipSpaces(buf: string, readIndex: nat) returns (left: nat)
    requires readIndex <= |buf|
    ensures readIndex <= left <= |buf| && Blank(buf[readIndex..left]) && (left < |buf| ==> buf[left] != ' ')
  {
    left := readIndex;
    while left < |buf|
      invariant readIndex <= left <= |buf| && Blank(buf[readIndex..left])
    {
      if buf[left] != ' ' {
        break;
      }
      assert buf[readIndex..left + 1] == buf[readIndex..left] + [' '];
      left := left + 1;
    }
  }

  /** Where the scan of a line stands: `right` is the start of the spaces just passed, or -1. */
  ghost predicate Scanned(buf: string, left: nat, cur: nat, right: int) {
    && left <= cur <= |buf|
    && (left < |buf| ==> buf[left] != ' ')
    && (right == -1 ==> cur == left || buf[cur - 1] != ' ')
    && (right != -1 ==> left < right < cur && Blank(buf[right..cur]) && buf[right - 1] != ' ')
  }

  lemma {:induction false} SliceOfSlice(s: string, i: nat, j: nat, l: nat, r: nat)
    requires i <= j <= |s| && l <= r <= j - i
    ensures s[i..j][l..r] == s[i + l..i + r]
  {
    var a, b := s[i..j][l..r], s[i + l..i + r];
    assert |a| == |b|;
    forall k | 0 <= k < |a| ensures a[k] == b[k] {
      assert a[k] == s[i..j][l + k] == s[i + l + k];
    }
  }

  lemma {:induction false} SliceTrimIs(buf: string, i: nat, left: nat, right: nat, cur: nat)
    requires i <= left < right <= cur <= |buf| && Blank(buf[i..left]) && Blank(buf[right..cur])
    requires buf[left] != ' ' && buf[right - 1] != ' '
    ensures Trim(buf[i..cur]) == buf[left..right]
  {
    var s := buf[i..cur];
    SliceOfSlice(buf, i, cur, 0, left - i);
    SliceOfSlice(buf, i, cur, right - i, |s|);
    SliceOfSlice(buf, i, cur, left - i, right - i);
    assert s[right - i..] == s[right - i..|s|];
    TrimIs(s, left - i, right - i);
  }

  /** The line that ends at `cur`. */
  lemma {:induction false} LineIs(buf: string, i: nat, left: nat, cur: nat, right: int)
    requires i <= left && Scanned(buf, left, cur, right) && left < cur && Blank(buf[i..left])
    ensures Trim(buf[i..cur]) == buf[left..if right == -1 then cur else right]
  {
    SliceTrimIs(buf, i, left, if right == -1 then cur else right, cur);
  }

  /** What is returned when the buffer ends in a character at `last` that is no space. */
  lemma {:induction false} TailIs(buf: string, i: nat, left: nat, right: int)
    requires i <= left < |buf| && Blank(buf[i..left]) && Scanned(buf, left, |buf| - 1, right)
    requires buf[|buf| - 1] != ' '
    ensures TailRead(buf[i..]) ==
            if |buf| - 1 <= left then "" else buf[left..if right == -1 then |buf| else right]
  {
    var t := buf[i..];
    assert t[..left - i] == buf[i..left];
    TrimLeftTo(t, left - i);
    var b := TrimLeft(t);
    assert b == buf[left..];
    if |buf| - 1 > left {
      if right != -1 {
        assert b[|b| - 2] == buf[|buf| - 2] == buf[right..|buf| - 1][|buf| - 2 - right];
        var c := b[..|b| - 1];
        assert c[right - left..] == buf[right..|buf| - 1];
        TrimRightTo(c, right - left);
        assert c[..right - left] == buf[left..right];
      }
    }
  }

  lemma {:induction false} ReadsLine(buf: string, i: nat, left: nat, cur: nat, right: int)
    requires i <= left && Scanned(buf, left, cur, right) && Blank(buf[i..left]) && cur < |buf|
    requires buf[cur] == '\n' && '\n' !in buf[i..cur]
    ensures ReadAt(buf, i) == Read(if cur <= left then "" else buf[left..if right == -1 then cur else right], cur + 1)
  {
    LineEndIs(buf, i, cur);
    if cur > left {
      LineIs(buf, i, left, cur, right);
    } else {
      TrimBlank(buf[i..cur]);
    }
  }

  /** What is returned when the buffer ends in a space. */
  lemma {:induction false} SpacesAtEnd(buf: string, i: nat, left: nat)
    requires i <= left <= |buf| && Blank(buf[i..left]) && '\n' !in buf[i..]
    requires left < |buf| ==> buf[left] != ' ' && buf[|buf| - 1] == ' '
    ensures ReadAt(buf, i) == Read("", |buf|)
  {
    assert buf[i..|buf|] == buf[i..];
    LineEndIs(buf, i, |buf|);
    var t := buf[i..];
    assert t[..left - i] == buf[i..left];
    TrimLeftTo(t, left - i);
    assert t[left - i..] == buf[left..];
  }

  /** Reads one line from `readIndex`, trimmed of spaces, and where the next begins. */
  method ReadLine(readIndex: nat, buf: string) returns (line: string, next: nat)
    requires readIndex <= |buf|
    ensures Read(line, next) == ReadAt(buf, readIndex)
  {
    var left := SkipSpaces(buf, readIndex);
    assert '\n' !in buf[readIndex..left];
    var right := -1;
    var cur := left;
    while cur < |buf|
      invariant readIndex <= left && Scanned(buf, left, cur, right)
      invariant '\n' !in buf[readIndex..cur]
      invariant cur == |buf| > left ==> buf[|buf| - 1] == ' '
    {
      assert buf[readIndex..cur + 1] == buf[readIndex..cur] + [buf[cur]];
      if buf[cur] == ' ' {
        if right == -1 {
          right := cur;
        }
        assert right < cur ==> buf[right..cur + 1] == buf[right..cur] + [' '];
      } else if buf[cur] == '\n' || cur == |buf| - 1 {
        if buf[cur] == '\n' {
          ReadsLine(buf, readIndex, left, cur, right);
        } else {
          LineEndIs(buf, readIndex, |buf|);
          TailIs(buf, readIndex, left, right);
        }
        if cur <= left {
          return "", cur + 1;
        }
        if right == -1 {
          right := cur;
          if cur == |buf| - 1 && buf[cur] != '\n' {
            right := cur + 1;
          }
        }
        return buf[left..right], cur + 1;
      } else {
        right := -1;
      }
      cur := cur + 1;
    }
    SpacesAtEnd(buf, readIndex, left);
    return "", cur;
  }

  // ---------------------------------------------------------------- reading all lines

  /** The lines that repeated reading yields from `i` on. */
  function ReadLines(buf: string, i: nat): seq<string>
    requires i <= |buf|
    decreases |buf| - i
  {
    if i == |buf| then []
    else [ReadAt(buf, i).line] + ReadLines(buf, ReadAt(buf, i).next)
  }

  /** A last line without a break that is read as it should be. */
  predicate ReadsWell(t: string) {
    var b := TrimLeft(t);
    b == "" || (|b| >= 2 && b[|b| - 1] != ' ' && b[|b| - 2] != ' ')
  }

  lemma {:induction false} TrimLeftShape(s: string)
    ensures TrimLeft(s) == "" || TrimLeft(s)[0] != ' '
  {
    if s != "" && s[0] == ' ' {
      TrimLeftShape(s[1..]);
    }
  }

  lemma {:induction false} TrimRightBounds(s: string)
    ensures |TrimRight(s)| <= |s|
    ensures s != "" && s[0] != ' ' ==> TrimRight(s) != ""
  {
    if s != "" && s[|s| - 1] == ' ' {
      TrimRightBounds(s[..|s| - 1]);
    }
  }

  lemma {:induction false} TailReadIff(t: string)
    ensures TailRead(t) == Trim(t) <==> ReadsWell(t)
  {
    var b := TrimLeft(t);
    TrimLeftShape(t);
    TrimRightBounds(b);
    if |b| >= 2 && b[|b| - 1] != ' ' && b[|b| - 2] == ' ' {
      TrimRightBounds(b[..|b| - 1]);
    }
  }

  lemma {:induction false} TrimLeftCut(t: string)
    requires TrimLeft(t) != ""
    ensures t != "" && TrimLeft(t)[|TrimLeft(t)| - 1] == t[|t| - 1]
    ensures TrimLeft(t[..|t| - 1]) == TrimLeft(t)[..|TrimLeft(t)| - 1]
  {
    if t[0] == ' ' {
      TrimLeftCut(t[1..]);
      assert t[..|t| - 1][1..] == t[1..][..|t[1..]| - 1];
    }
  }

  /** What is lost otherwise: everything if the text ends in a space, else the last character. */
  lemma {:induction false} TailReadOtherwise(t: string)
    requires !ReadsWell(t)
    ensures t != "" && TailRead(t) == if t[|t| - 1] == ' ' then "" else Trim(t[..|t| - 1])
  {
    TrimLeftCut(t);
  }

  lemma LineEndShift(buf: string, i: nat)
    requires i <= |buf|
    ensures LineEnd(buf[i..], 0) + i == LineEnd(buf, i)
  {
    var e := LineEnd(buf[i..], 0);
    assert buf[i..][0..e] == buf[i..i + e];
    LineEndIs(buf, i, i + e);
  }

  lemma {:induction false} SplitFirst(t: string, x: string, rest: string)
    requires t == x + "\n" + rest && '\n' !in x
    ensures Lines(t) == [x] + Lines(rest) && LastLine(t) == LastLine(rest)
  {
    assert t[0..|x|] == x && t[|x| + 1..] == rest;
    LineEndIs(t, 0, |x|);
  }

  lemma {:induction false} FirstRead(buf: string, i: nat)
    requires i <= |buf| && LineEnd(buf, i) < |buf|
    ensures var e := LineEnd(buf, i); ReadLines(buf, i) == [Trim(buf[i..e])] + ReadLines(buf, e + 1)
  {
  }

  lemma {:induction false} TailOf(buf: string, i: nat)
    requires i <= |buf| && LineEnd(buf, i) < |buf|
    ensures var e := LineEnd(buf, i); buf[i..] == buf[i..e] + "\n" + buf[e + 1..] && '\n' !in buf[i..e]
  {
  }

  /** A terminated first line is a first line for the reader and for the split. */
  lemma {:induction false} FirstLine(buf: string, i: nat)
    requires i <= |buf| && LineEnd(buf, i) < |buf|
    ensures var e := LineEnd(buf, i);
            && Lines(buf[i..]) == [buf[i..e]] + Lines(buf[e + 1..])
            && LastLine(buf[i..]) == LastLine(buf[e + 1..])
  {
    var e := LineEnd(buf, i);
    TailOf(buf, i);
    SplitFirst(buf[i..], buf[i..e], buf[e + 1..]);
  }

  lemma {:induction false} LastLineReads(buf: string, i: nat)
    requires i < |buf| && LineEnd(buf, i) == |buf|
    ensures ReadLines(buf, i) == [TailRead(buf[i..])] && Lines(buf[i..]) == [buf[i..]]
    ensures LastLine(buf[i..]) == buf[i..]
  {
    LineEndShift(buf, i);
  }

  lemma {:induction false} TrimmedFirst(t: string, x: string, rest: string)
    requires Lines(t) == [x] + Lines(rest)
    ensures TrimmedLines(t) == [Trim(x)] + TrimmedLines(rest)
  {
  }

  /** Repeated reading yields the trimmed lines if and only if the text after the last line break
      is read as it should be; with nothing there, it is. */
  lemma {:induction false} ReadLinesIff(buf: string, i: nat)
    requires i <= |buf|
    ensures |ReadLines(buf, i)| == |TrimmedLines(buf[i..])|
    ensures ReadLines(buf, i) == TrimmedLines(buf[i..]) <==> ReadsWell(LastLine(buf[i..]))
    decreases |buf| - i
  {
    if i < |buf| {
      var e := LineEnd(buf, i);
      if e == |buf| {
        LastLineReads(buf, i);
        TailReadIff(buf[i..]);
        TrimmedFirst(buf[i..], buf[i..], "");
        assert TrimmedLines(buf[i..]) == [Trim(buf[i..])];
        assert [TailRead(buf[i..])][0] == TailRead(buf[i..]) && [Trim(buf[i..])][0] == Trim(buf[i..]);
      } else {
        ReadLinesIff(buf, e + 1);
        FirstRead(buf, i);
        FirstLine(buf, i);
        TrimmedFirst(buf[i..], buf[i..e], buf[e + 1..]);
        SameTail(Trim(buf[i..e]), ReadLines(buf, e + 1), TrimmedLines(buf[e + 1..]));
      }
    }
  }

  lemma SameTail(x: string, a: seq<string>, b: seq<string>)
    ensures [x] + a == [x] + b <==> a == b
  {
    if [x] + a == [x] + b {
      assert a == ([x] + a)[1..] && b == ([x] + b)[1..];
    }
  }

  lemma {:induction false} BreakAhead(buf: string, i: nat)
    requires i < |buf| && buf[|buf| - 1] == '\n'
    ensures LineEnd(buf, i) < |buf|
    decreases |buf| - i
  {
    if buf[i] != '\n' {
      BreakAhead(buf, i + 1);
    }
  }

  lemma {:induction false} LastLineOfTerminated(buf: string)
    requires buf == "" || buf[|buf| - 1] == '\n'
    ensures LastLine(buf) == ""
    decreases |buf|
  {
    if buf != "" {
      BreakAhead(buf, 0);
      LastLineOfTerminated(buf[LineEnd(buf, 0) + 1..]);
    }
  }

  /** On every buffer that ends with a line break, repeated reading yields exactly the split at
      line breaks with spaces trimmed. */
  lemma TerminatedBufferReads(buf: string)
    requires buf == "" || buf[|buf| - 1] == '\n'
    ensures ReadLines(buf, 0) == TrimmedLines(buf)
  {
    LastLineOfTerminated(buf);
    ReadLinesIff(buf, 0);
    assert buf[0..] == buf;
  }

  /** Without the line break a lone character is lost. */
  lemma LoneCharacterIsLost()
    ensures ReadLines("a", 0) == [""] && TrimmedLines("a") == ["a"]
  {
    assert LineEnd("a", 0) == 1;
    assert "a"[0..] == "a";
    LastLineReads("a", 0);
    assert TrimLeft("a") == "a";
    assert TrimmedLines("a") == ["a"];
  }
}
