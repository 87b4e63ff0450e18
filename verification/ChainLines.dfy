/** Finding a table's chains in the output of iptables-save: `GetChainLines` and `MakeChainLine` of
    pkg/util/iptables/save_restore.go. */
module ChainLines {
  import opened ProxyTypes
  import opened SaveRestore

  // ---------------------------------------------------------------- the table's chains

  /** The lines after the first one that starts with `header`. */
  function AfterHeader(lines: seq<string>, header: string): seq<string> {
    if lines == [] then []
    else if header <= lines[0] then lines[1..]
    else AfterHeader(lines[1..], header)
  }

  predicate EndsTable(line: string) {
    "COMMIT" <= line || "*" <= line
  }

  /** The lines before the first one that ends the table. */
  function Section(lines: seq<string>): seq<string> {
    if lines == [] || EndsTable(lines[0]) then [] else [lines[0]] + Section(lines[1..])
  }

  predicate IsChainLine(line: string) {
    ":" <= line && |line| > 1
  }

  /** The line gives chain `c`: it is a colon, the name, a space and anything. */
  predicate Gives(line: string, c: string) {
    IsChainLine(line) && ' ' !in c && ":" + c + " " <= line
  }

  /** A chain line without a space, on which the scan panics. */
  predicate Spaceless(line: string) {
    IsChainLine(line) && ' ' !in line
  }

  /** Line `k` is the last one to give chain `c`. */
  ghost predicate LastGives(section: seq<string>, k: nat, c: string) {
    k < |section| && Gives(section[k], c) && forall j :: k < j < |section| ==> !Gives(section[j], c)
  }

  /** `m` maps every chain that some line gives to the last such line. */
  ghost predicate Collects(section: seq<string>, m: map<string, string>) {
    && (forall c <- m :: exists k: nat :: LastGives(section, k, c) && m[c] == section[k])
    && (forall k: nat, c :: k < |section| && Gives(section[k], c) ==> c in m)
  }

  ghost predicate SectionScans(section: seq<string>, r: Option<map<string, string>>) {
    match r
    case None => exists line <- section :: Spaceless(line)
    case Some(m) => (forall line <- section :: !Spaceless(line)) && Collects(section, m)
  }

  /** The outcome of scanning `lines` for the chains of `table`; `None` is a panic. */
  ghost predicate Scans(lines: seq<string>, table: string, r: Option<map<string, string>>) {
    SectionScans(Section(AfterHeader(lines, "*" + table)), r)
  }

  // ---------------------------------------------------------------- the scan

  method FirstSpace(line: string) returns (k: int)
    ensures k == -1 ==> ' ' !in line
    ensures k != -1 ==> 0 <= k < |line| && line[k] == ' ' && ' ' !in line[..k]
  {
    k := 0;
    while k < |line|
      invariant 0 <= k <= |line| && ' ' !in line[..k]
    {
      if line[k] == ' ' {
        return;
      }
      assert line[..k + 1] == line[..k] + [line[k]];
      k := k + 1;
    }
    assert line[..k] == line;
    k := -1;
  }

  lemma LongerHasSpace(line: string, c: string, d: string)
    requires ":" + c + " " <= line && ":" + d + " " <= line && |c| < |d|
    ensures ' ' in d
  {
    assert line[1 + |c|] == (":" + c + " ")[1 + |c|];
    assert line[1 + |c|] == (":" + d + " ")[1 + |c|] == d[|c|];
  }

  /** A line gives one chain at most. */
  lemma GivesOne(line: string, c: string, d: string)
    requires Gives(line, c) && Gives(line, d)
    ensures c == d
  {
    if |c| < |d| {
      LongerHasSpace(line, c, d);
    } else if |d| < |c| {
      LongerHasSpace(line, d, c);
    } else {
      assert c == line[1..1 + |c|] && d == line[1..1 + |d|];
    }
  }

  lemma {:induction false} CollectOther(section: seq<string>, line: string, m: map<string, string>)
    requires Collects(section, m) && !IsChainLine(line)
    ensures Collects(section + [line], m)
  {
    var after := section + [line];
    forall c <- m ensures exists k: nat :: LastGives(after, k, c) && m[c] == after[k] {
      var k: nat :| LastGives(section, k, c) && m[c] == section[k];
      assert LastGives(after, k, c) && m[c] == after[k];
    }
  }

  lemma {:induction false} CollectChain(section: seq<string>, line: string, c: string, m: map<string, string>)
    requires Collects(section, m) && Gives(line, c)
    ensures Collects(section + [line], m[c := line])
  {
    var after := section + [line];
    var m' := m[c := line];
    forall d <- m' ensures exists k: nat :: LastGives(after, k, d) && m'[d] == after[k] {
      if d == c {
        assert LastGives(after, |section|, d);
      } else {
        var k: nat :| LastGives(section, k, d) && m[d] == section[k];
        if Gives(line, d) {
          GivesOne(line, c, d);
        }
        assert LastGives(after, k, d) && m[d] == after[k];
      }
    }
    forall k: nat, d | k < |after| && Gives(after[k], d) ensures d in m[c := line] {
      if k == |section| {
        GivesOne(line, c, d);
      } else {
        assert Gives(section[k], d);
      }
    }
  }

  /** How far the scan of the section has come. */
  ghost predicate Scanning(section: seq<string>, done: seq<string>, rest: seq<string>, m: map<string, string>) {
    && section == done + Section(rest)
    && (forall line <- done :: !Spaceless(line))
    && Collects(done, m)
  }

  lemma {:induction false} ScanOn(section: seq<string>, done: seq<string>, rest: seq<string>, m: map<string, string>,
                                  m': map<string, string>)
    requires rest != [] && !EndsTable(rest[0]) && Scanning(section, done, rest, m)
    requires !Spaceless(rest[0]) && Collects(done + [rest[0]], m')
    ensures Scanning(section, done + [rest[0]], rest[1..], m')
  {
    assert done + Section(rest) == done + [rest[0]] + Section(rest[1..]);
  }

  lemma {:induction false} ScanEnds(section: seq<string>, done: seq<string>, rest: seq<string>, m: map<string, string>)
    requires Scanning(section, done, rest, m) && (rest == [] || EndsTable(rest[0]))
    ensures SectionScans(section, Some(m))
  {
    assert done + Section(rest) == done;
  }

  /** Looks at one line of the section; `None` for a panic. */
  method ScanLine(line: string, m: map<string, string>, ghost done: seq<string>) returns (r: Option<map<string, string>>)
    requires Collects(done, m)
    ensures r.None? <==> Spaceless(line)
    ensures r.Some? ==> Collects(done + [line], r.value)
  {
    if |line| == 0 {
      CollectOther(done, line, m);
      return Some(m);
    }
    if "#" <= line {
      assert line[0] == '#';
      CollectOther(done, line, m);
      return Some(m);
    }
    if ":" <= line && |line| > 1 {
      var k := FirstSpace(line);
      if k == -1 {
        return None;
      }
      var chain := line[1..k];
      assert ":" + chain + " " == line[..k + 1];
      assert forall i :: 0 <= i < |chain| ==> chain[i] == line[..k][i + 1];
      CollectChain(done, line, chain, m);
      return Some(m[chain := line]);
    }
    CollectOther(done, line, m);
    return Some(m);
  }

  /** Finds the beginning of the table. */
  method FindTable(header: string, save: string) returns (readIndex: nat)
    ensures readIndex <= |save|
    ensures ReadLines(save, readIndex) == AfterHeader(ReadLines(save, 0), header)
  {
    readIndex := 0;
    while readIndex < |save|
      invariant readIndex <= |save|
      invariant AfterHeader(ReadLines(save, readIndex), header) == AfterHeader(ReadLines(save, 0), header)
    {
      ghost var lines := ReadLines(save, readIndex);
      var line, n := ReadLine(readIndex, save);
      readIndex := n;
      assert lines[0] == line && lines[1..] == ReadLines(save, n);
      if header <= line {
        return;
      }
    }
  }

  method GetChainLines(table: string, save: string) returns (r: Option<map<string, string>>)
    ensures Scans(ReadLines(save, 0), table, r)
    ensures save == "" || save[|save| - 1] == '\n' ==> Scans(TrimmedLines(save), table, r)
  {
    if save == "" || save[|save| - 1] == '\n' {
      TerminatedBufferReads(save);
    }
    var readIndex := FindTable("*" + table, save);
    r := ScanTable(save, readIndex);
  }

  /** Parses the lines of the table. */
  method ScanTable(save: string, start: nat) returns (r: Option<map<string, string>>)
    requires start <= |save|
    ensures SectionScans(Section(ReadLines(save, start)), r)
  {
    var readIndex := start;
    ghost var section := Section(ReadLines(save, start));
    ghost var done: seq<string> := [];
    var m: map<string, string> := map[];
    while readIndex < |save|
      invariant readIndex <= |save|
      invariant Scanning(section, done, ReadLines(save, readIndex), m)
    {
      ghost var lines := ReadLines(save, readIndex);
      var line, n := ReadLine(readIndex, save);
      assert lines[0] == line && lines[1..] == ReadLines(save, n);
      if "COMMIT" <= line || "*" <= line {
        ScanEnds(section, done, lines, m);
        return Some(m);
      }
      var next := ScanLine(line, m, done);
      if next.None? {
        assert section[|done|] == line;
        return None;
      }
      ScanOn(section, done, lines, m, next.value);
      m, done, readIndex := next.value, done + [line], n;
    }
    ScanEnds(section, done, [], m);
    return Some(m);
  }

  // ---------------------------------------------------------------- printing and reading back

  function MakeChainLine(chain: string): string {
    ":" + chain + " - [0:0]"
  }

  function Unlines(lines: seq<string>): string {
    if lines == [] then "" else lines[0] + "\n" + Unlines(lines[1..])
  }

  function ChainLinesOf(chains: seq<string>): seq<string> {
    seq(|chains|, i requires 0 <= i < |chains| => MakeChainLine(chains[i]))
  }

  /** A table with its chains, as it is written for iptables-restore. */
  function TableLines(table: string, chains: seq<string>): seq<string> {
    ["*" + table] + ChainLinesOf(chains) + ["COMMIT"]
  }

  predicate Plain(name: string) {
    ' ' !in name && '\n' !in name
  }

  /** Lines that survive printing and reading: without a break and without spaces around. */
  predicate Tidy(line: string) {
    '\n' !in line && (line == "" || (line[0] != ' ' && line[|line| - 1] != ' '))
  }

  lemma TidyTrims(line: string)
    requires Tidy(line)
    ensures Trim(line) == line
  {
    if line != "" {
      TrimIs(line, 0, |line|);
      assert line[0..|line|] == line;
    }
  }

  lemma {:induction false} UnlinesFirst(lines: seq<string>, rest: string)
    requires lines != []
    ensures Unlines(lines) + rest == lines[0] + "\n" + (Unlines(lines[1..]) + rest)
  {
  }

  /** Reading from `i` yields `lines` and leaves off at `j`. */
  predicate Yields(buf: string, i: nat, lines: seq<string>, j: nat)
    requires i <= |buf|
    decreases |lines|
  {
    if lines == [] then i == j
    else i < |buf| && ReadAt(buf, i).line == lines[0] && Yields(buf, ReadAt(buf, i).next, lines[1..], j)
  }

  lemma {:induction false} YieldFirst(buf: string, i: nat, lines: seq<string>, j: nat, next: nat)
    requires i < |buf| && next <= |buf| && lines != [] && ReadAt(buf, i) == Read(lines[0], next)
    requires Yields(buf, next, lines[1..], j)
    ensures Yields(buf, i, lines, j)
  {
  }

  lemma {:induction false} FirstAndRest(lines: seq<string>, most: seq<string>, tail: seq<string>)
    requires lines != [] && most == lines[1..] + tail
    ensures [lines[0]] + most == lines + tail
  {
  }

  lemma {:induction false} YieldedLines(buf: string, i: nat, lines: seq<string>, j: nat)
    requires i <= |buf| && j <= |buf| && Yields(buf, i, lines, j)
    ensures ReadLines(buf, i) == lines + ReadLines(buf, j)
    decreases |lines|
  {
    if lines != [] {
      var next := ReadAt(buf, i).next;
      YieldedLines(buf, next, lines[1..], j);
      FirstAndRest(lines, ReadLines(buf, next), ReadLines(buf, j));
    }
  }

  lemma {:induction false} Cut(buf: string, i: nat, x: string, more: string)
    requires i <= |buf| && buf[i..] == x + "\n" + more
    ensures |buf| == i + |x| + 1 + |more|
    ensures buf[i..i + |x|] == x && buf[i + |x|] == '\n' && buf[i + |x| + 1..] == more
  {
    var t := x + "\n" + more;
    assert forall k :: i <= k < |buf| ==> buf[k] == buf[i..][k - i];
    assert t[|x|] == '\n';
    assert forall k :: 0 <= k < |x| ==> x[k] == t[k];
    assert forall k :: 0 <= k < |more| ==> more[k] == t[|x| + 1 + k];
  }

  /** `buf` holds `line` and a line break at `i`. */
  predicate LineAt(buf: string, i: nat, line: string) {
    i + |line| < |buf| && buf[i..i + |line|] == line && buf[i + |line|] == '\n'
  }

  /** `buf` holds `lines` from `i` to `j`. */
  predicate LinesAt(buf: string, i: nat, lines: seq<string>, j: nat)
    decreases |lines|
  {
    if lines == [] then i == j
    else LineAt(buf, i, lines[0]) && LinesAt(buf, i + |lines[0]| + 1, lines[1..], j)
  }

  lemma {:induction false} PrintedAt(buf: string, i: nat, lines: seq<string>, rest: string)
    requires i <= |buf| && buf[i..] == Unlines(lines) + rest
    ensures LinesAt(buf, i, lines, |buf| - |rest|)
    decreases |lines|
  {
    if lines == [] {
      assert |buf| - i == |Unlines(lines) + rest| == |rest|;
    } else {
      UnlinesFirst(lines, rest);
      Cut(buf, i, lines[0], Unlines(lines[1..]) + rest);
      PrintedAt(buf, i + |lines[0]| + 1, lines[1..], rest);
    }
  }

  lemma {:induction false} ReadTidy(buf: string, i: nat, x: string)
    requires LineAt(buf, i, x) && Tidy(x)
    ensures ReadAt(buf, i) == Read(x, i + |x| + 1)
  {
    LineEndIs(buf, i, i + |x|);
    TidyTrims(x);
  }

  /** Tidy lines are read back as they are, whatever text follows them. */
  lemma {:induction false} TidyLinesRead(buf: string, i: nat, lines: seq<string>, j: nat)
    requires i <= |buf| && LinesAt(buf, i, lines, j)
    requires forall k :: 0 <= k < |lines| ==> Tidy(lines[k])
    ensures Yields(buf, i, lines, j)
    decreases |lines|
  {
    if lines != [] {
      var next := i + |lines[0]| + 1;
      ReadTidy(buf, i, lines[0]);
      TidyLinesRead(buf, next, lines[1..], j);
      YieldFirst(buf, i, lines, j, next);
    }
  }

  lemma {:induction false} PrintedLinesRead(lines: seq<string>, after: string) returns (rest: seq<string>)
    requires forall k :: 0 <= k < |lines| ==> Tidy(lines[k])
    ensures ReadLines(Unlines(lines) + after, 0) == lines + rest
  {
    var save := Unlines(lines) + after;
    assert save[0..] == save;
    var j := |save| - |after|;
    PrintedAt(save, 0, lines, after);
    TidyLinesRead(save, 0, lines, j);
    YieldedLines(save, 0, lines, j);
    rest := ReadLines(save, j);
  }

  lemma {:induction false} SkipToHeader(before: seq<string>, header: string, lines: seq<string>)
    requires forall line <- before :: !(header <= line)
    requires lines != [] && header <= lines[0]
    ensures AfterHeader(before + lines, header) == lines[1..]
  {
    if before == [] {
      assert before + lines == lines;
    } else {
      assert forall line <- before[1..] :: line in before;
      SkipToHeader(before[1..], header, lines);
      assert (before + lines)[1..] == before[1..] + lines;
      assert (before + lines)[0] == before[0] && before[0] in before;
    }
  }

  lemma {:induction false} SectionStops(lines: seq<string>, end: string, rest: seq<string>)
    requires (forall line <- lines :: !EndsTable(line)) && EndsTable(end)
    ensures Section(lines + [end] + rest) == lines
  {
    var all := lines + [end] + rest;
    if lines == [] {
      assert all[0] == end;
    } else {
      SectionStops(lines[1..], end, rest);
      assert all[0] == lines[0] && all[1..] == lines[1..] + [end] + rest;
    }
  }

  lemma ChainLineGives(c: string, d: string)
    requires Plain(c)
    ensures Gives(MakeChainLine(c), d) <==> c == d
    ensures Tidy(MakeChainLine(c)) && !EndsTable(MakeChainLine(c)) && !Spaceless(MakeChainLine(c))
  {
    var line := MakeChainLine(c);
    assert line[0] == ':' && line[1 + |c|] == ' ' && line[|line| - 1] == ']';
    assert ":" + c + " " <= line;
    if Gives(line, d) {
      GivesOne(line, c, d);
    }
  }

  /** Only one map collects a section. */
  lemma CollectsOne(section: seq<string>, m: map<string, string>, n: map<string, string>)
    requires Collects(section, m) && Collects(section, n)
    ensures m == n
  {
    forall c ensures c in m <==> c in n {}
    forall c <- m ensures m[c] == n[c] {
      var j: nat :| LastGives(section, j, c) && m[c] == section[j];
      var k: nat :| LastGives(section, k, c) && n[c] == section[k];
    }
  }

  lemma {:induction false} ChainLinesCollect(chains: seq<string>)
    requires forall c <- chains :: Plain(c)
    ensures Collects(ChainLinesOf(chains), map c <- chains :: MakeChainLine(c))
  {
    if chains != [] {
      var init := chains[..|chains| - 1];
      var c := chains[|chains| - 1];
      ChainLinesCollect(init);
      ChainLineGives(c, c);
      CollectChain(ChainLinesOf(init), MakeChainLine(c), c, map d <- init :: MakeChainLine(d));
      assert ChainLinesOf(chains) == ChainLinesOf(init) + [MakeChainLine(c)];
      assert chains == init + [c];
      assert (map d <- init :: MakeChainLine(d))[c := MakeChainLine(c)] == map d <- chains :: MakeChainLine(d);
    }
  }

  /** The chains of a printed table, among other lines. */
  lemma {:induction false} TableScans(before: seq<string>, table: string, chains: seq<string>, rest: seq<string>,
                                      r: Option<map<string, string>>)
    requires (forall line <- before :: !("*" + table <= line)) && forall c <- chains :: Plain(c)
    ensures Scans(before + TableLines(table, chains) + rest, table, r) <==>
            r == Some(map c <- chains :: MakeChainLine(c))
  {
    var printed := ChainLinesOf(chains);
    forall k | 0 <= k < |chains| ensures !EndsTable(printed[k]) && !Spaceless(printed[k]) {
      ChainLineGives(chains[k], chains[k]);
    }
    var lines := TableLines(table, chains) + rest;
    assert before + TableLines(table, chains) + rest == before + lines;
    SkipToHeader(before, "*" + table, lines);
    assert lines[1..] == printed + ["COMMIT"] + rest;
    SectionStops(printed, "COMMIT", rest);
    ChainLinesCollect(chains);
    if r.Some? && Collects(printed, r.value) {
      CollectsOne(printed, r.value, map c <- chains :: MakeChainLine(c));
    }
  }

  lemma {:induction false} TableLinesAreTidy(before: seq<string>, table: string, chains: seq<string>)
    requires (forall line <- before :: Tidy(line)) && Tidy("*" + table) && forall c <- chains :: Plain(c)
    ensures var lines := before + TableLines(table, chains);
            forall k :: 0 <= k < |lines| ==> Tidy(lines[k])
  {
    var printed := ChainLinesOf(chains);
    forall k | 0 <= k < |chains| ensures Tidy(printed[k]) {
      ChainLineGives(chains[k], chains[k]);
    }
  }

  /** A table printed with `MakeChainLine`, after lines that do not begin it and before any text,
      parses back to exactly its chains. */
  lemma {:induction false} PrintedTableReadsBack(before: seq<string>, table: string, chains: seq<string>, after: string,
                                                 r: Option<map<string, string>>)
    requires forall line <- before :: Tidy(line) && !("*" + table <= line)
    requires Tidy("*" + table) && forall c <- chains :: Plain(c)
    ensures var save := Unlines(before + TableLines(table, chains)) + after;
            Scans(ReadLines(save, 0), table, r) <==> r == Some(map c <- chains :: ":" + c + " - [0:0]")
  {
    TableLinesAreTidy(before, table, chains);
    var rest := PrintedLinesRead(before + TableLines(table, chains), after);
    TableScans(before, table, chains, rest, r);
    ChainMapIs(chains);
  }

  lemma ChainMapIs(chains: seq<string>)
    ensures (map c <- chains :: MakeChainLine(c)) == map c <- chains :: ":" + c + " - [0:0]"
  {
  }
}
