/** `extract_fcp_data`: cleaning a System_WWPN_Query response and selecting its six-line records. */
module FcpRecords {
  import opened Lists
  import opened Text

  type Lines = seq<string>

  // ---------- text ----------

  /** `s.split('\n')` */
  function Split(s: string): (r: Lines)
    ensures |r| >= 1
  {
    if s == [] then [[]]
    else if s[0] == '\n' then [[]] + Split(s[1..])
    else
      var r := Split(s[1..]);
      [[s[0]] + r[0]] + r[1..]
  }

  /** `'\n'.join(ls)` */
  function Join(ls: Lines): string {
    if ls == [] then [] else if |ls| == 1 then ls[0] else ls[0] + ['\n'] + Join(ls[1..])
  }

  const BLANKS: string := " \n"

  /** A line that survives the cleaning loop unchanged. */
  predicate Clean(s: string) {
    s != [] && s != "#" && '\n' !in s && s[0] !in BLANKS && s[|s| - 1] !in BLANKS
  }

  lemma StripClean(s: string)
    ensures Clean(s) ==> Strip(s, BLANKS) == s
    ensures '\n' !in s && Strip(s, BLANKS) != [] && Strip(s, BLANKS) != "#" ==> Clean(Strip(s, BLANKS))
  {
    var left := StripLeft(s, BLANKS);
    var r := StripRight(left, BLANKS);
    if '\n' !in s && r != [] {
      assert r[0] == left[0];
      forall c | c in r ensures c in left {}
    }
  }

  lemma {:induction false} SplitPlain(a: string)
    requires '\n' !in a
    ensures Split(a) == [a]
  {
    if a != [] {
      SplitPlain(a[1..]);
      assert [a[0]] + a[1..] == a;
    }
  }

  lemma {:induction false} SplitAppend(a: string, rest: string)
    requires '\n' !in a
    ensures Split(a + ['\n'] + rest) == [a] + Split(rest)
  {
    var s := a + ['\n'] + rest;
    if a == [] {
      assert s[1..] == rest;
    } else {
      assert s[1..] == a[1..] + ['\n'] + rest;
      SplitAppend(a[1..], rest);
      assert Split(s[1..])[1..] == Split(rest);
      assert [a[0]] + a[1..] == a;
    }
  }

  lemma {:induction false} SplitJoin(ls: Lines)
    requires ls != [] && forall i :: 0 <= i < |ls| ==> '\n' !in ls[i]
    ensures Split(Join(ls)) == ls
  {
    if |ls| == 1 {
      SplitPlain(ls[0]);
    } else {
      SplitJoin(ls[1..]);
      SplitAppend(ls[0], Join(ls[1..]));
    }
  }

  lemma {:induction false} SplitHasNoBreaks(s: string)
    ensures forall i :: 0 <= i < |Split(s)| ==> '\n' !in Split(s)[i]
  {
    if s != [] { SplitHasNoBreaks(s[1..]); }
  }

  // ---------- cleaning ----------

  /** Stripped lines other than `''` and `'#'`. */
  function CleanLines(ls: Lines): Lines {
    if ls == [] then []
    else
      var init, line := CleanLines(ls[..|ls| - 1]), Strip(ls[|ls| - 1], BLANKS);
      if line == [] || line == "#" then init else init + [line]
  }

  function Data(raw: string): Lines {
    CleanLines(Split(raw))
  }

  ghost predicate AllClean(ls: Lines) {
    forall i :: 0 <= i < |ls| ==> Clean(ls[i])
  }

  lemma {:induction false} CleanLinesClean(ls: Lines)
    requires forall i :: 0 <= i < |ls| ==> '\n' !in ls[i]
    ensures AllClean(CleanLines(ls))
  {
    if ls != [] {
      CleanLinesClean(ls[..|ls| - 1]);
      StripClean(ls[|ls| - 1]);
    }
  }

  lemma {:induction false} CleanLinesSame(ls: Lines)
    requires AllClean(ls)
    ensures CleanLines(ls) == ls
  {
    if ls != [] {
      CleanLinesSame(ls[..|ls| - 1]);
      StripClean(ls[|ls| - 1]);
      assert ls == ls[..|ls| - 1] + [ls[|ls| - 1]];
    }
  }

  lemma DataClean(raw: string)
    ensures AllClean(Data(raw))
  {
    SplitHasNoBreaks(raw);
    CleanLinesClean(Split(raw));
  }

  /** Clean lines, joined, are read back as they are. */
  lemma DataJoin(ls: Lines)
    requires AllClean(ls)
    ensures Data(Join(ls)) == ls
  {
    if ls == [] {
      var one: Lines := [[]];
      assert Split(Join(ls)) == one && one[..0] == [];
    } else {
      SplitJoin(ls);
      CleanLinesSame(ls);
    }
  }

  // ---------- selection ----------

  /** `line.split(':')[-1]` */
  function AfterLastColon(s: string): string {
    if s == [] || s[|s| - 1] == ':' then [] else AfterLastColon(s[..|s| - 1]) + [s[|s| - 1]]
  }

  predicate Matches(line: string, status: string) {
    Lower(status) == "all" || Lower(Strip(AfterLastColon(line), WHITESPACE)) == Lower(status)
  }

  const LINES_PER_ITEM := 6

  /** The lines of the matching complete records; a shorter rest is dropped. */
  function Kept(data: Lines, status: string): Lines {
    if |data| < LINES_PER_ITEM then []
    else (if Matches(data[1], status) then data[..LINES_PER_ITEM] else []) + Kept(data[LINES_PER_ITEM..], status)
  }

  function Extract(raw: string, status: string): string {
    Join(Kept(Data(raw), status))
  }

  method CleanUp(raw: string) returns (data: Lines)
    ensures data == Data(raw)
  {
    var lines := Split(raw);
    data := [];
    for i := 0 to |lines|
      invariant data == CleanLines(lines[..i])
    {
      assert lines[..i + 1][..i] == lines[..i];
      var line := Strip(lines[i], BLANKS);
      if line == [] || line == "#" {
        continue;
      }
      data := data + [line];
    }
    assert lines[..|lines|] == lines;
  }

  method ExtractFcpData(raw: string, status: string) returns (text: string)
    ensures text == Extract(raw, status)
    ensures exists picks :: Selects(Data(raw), status, picks, Data(text))
  {
    var data := CleanUp(raw);
    var results: Lines := [];
    var i := 0;
    assert data[0..] == data && results + Kept(data, status) == Kept(data, status);
    while i < |data|
      invariant 0 <= i <= |data|
      invariant results + Kept(data[i..], status) == Kept(data, status)
      decreases |data| - i
    {
      if i + LINES_PER_ITEM > |data| {
        break;
      }
      KeptStep(results, data, i, status);
      if Matches(data[i + 1], status) {
        results := results + data[i..i + LINES_PER_ITEM];
      }
      i := i + LINES_PER_ITEM;
    }
    assert Kept(data[i..], status) == [];
    assert results + [] == results;
    text := Join(results);
    ghost var picks := OutputSelects(raw, status);
  }

  lemma KeptStep(results: Lines, data: Lines, i: nat, status: string)
    requires i + LINES_PER_ITEM <= |data|
    ensures var more := if Matches(data[i + 1], status) then data[i..i + LINES_PER_ITEM] else [];
            results + Kept(data[i..], status) == (results + more) + Kept(data[i + LINES_PER_ITEM..], status)
    ensures !Matches(data[i + 1], status) ==>
      results + Kept(data[i..], status) == results + Kept(data[i + LINES_PER_ITEM..], status)
  {
    var rest, next := data[i..], data[i + LINES_PER_ITEM..];
    var more := if Matches(data[i + 1], status) then data[i..i + LINES_PER_ITEM] else [];
    assert rest[1] == data[i + 1] && rest[LINES_PER_ITEM..] == next;
    assert rest[..LINES_PER_ITEM] == data[i..i + LINES_PER_ITEM];
    assert Kept(rest, status) == more + Kept(next, status);
    assert results + (more + Kept(next, status)) == (results + more) + Kept(next, status);
    assert results + [] == results;
  }

  // ---------- what is extracted ----------

  /** The complete records of six lines. */
  function Records(data: Lines): (r: seq<Lines>)
    ensures forall i :: 0 <= i < |r| ==> |r[i]| == LINES_PER_ITEM
  {
    if |data| < LINES_PER_ITEM then [] else [data[..LINES_PER_ITEM]] + Records(data[LINES_PER_ITEM..])
  }

  function Flatten(rs: seq<Lines>): Lines {
    if rs == [] then [] else rs[0] + Flatten(rs[1..])
  }

  predicate Wanted(status: string, r: Lines) {
    |r| == LINES_PER_ITEM && Matches(r[1], status)
  }

  /** The kept lines are the matching records, in order. */
  lemma {:induction false} KeptRecords(data: Lines, status: string)
    ensures Kept(data, status) == Flatten(Filter(Records(data), (r: Lines) => Wanted(status, r)))
  {
    if |data| >= LINES_PER_ITEM {
      var first, rest := data[..LINES_PER_ITEM], Records(data[LINES_PER_ITEM..]);
      KeptRecords(data[LINES_PER_ITEM..], status);
      assert Records(data) == [first] + rest;
      assert Records(data)[1..] == rest;
    }
  }

  lemma {:induction false} KeptElements(data: Lines, status: string)
    ensures forall x :: x in Kept(data, status) ==> x in data
  {
    if |data| >= LINES_PER_ITEM { KeptElements(data[LINES_PER_ITEM..], status); }
  }

  /** Selecting from everything selects the same records. */
  lemma {:induction false} KeptTwice(data: Lines, status: string)
    ensures Kept(Kept(data, "all"), status) == Kept(data, status)
  {
    assert Lower("all") == "all";
    if |data| >= LINES_PER_ITEM {
      var first, rest := data[..LINES_PER_ITEM], data[LINES_PER_ITEM..];
      var all := Kept(rest, "all");
      KeptTwice(rest, status);
      assert Kept(data, "all") == first + all;
      assert (first + all)[..LINES_PER_ITEM] == first && (first + all)[LINES_PER_ITEM..] == all;
      assert (first + all)[1] == data[1];
    }
  }

  lemma KeptClean(raw: string, status: string)
    ensures AllClean(Kept(Data(raw), status))
  {
    DataClean(raw);
    KeptElements(Data(raw), status);
    var data, kept := Data(raw), Kept(Data(raw), status);
    forall i | 0 <= i < |kept| ensures Clean(kept[i]) {
      assert kept[i] in kept;
      var j :| 0 <= j < |data| && data[j] == kept[i];
    }
  }

  /** Extracting everything first and a status afterwards gives the same text as extracting the status. */
  lemma ExtractionFuses(raw: string, status: string)
    ensures Extract(Extract(raw, "all"), status) == Extract(raw, status)
  {
    KeptClean(raw, "all");
    DataJoin(Kept(Data(raw), "all"));
    KeptTwice(Data(raw), status);
  }

  /** The extracted text reads back as exactly the matching complete records. */
  lemma ExtractedRecords(raw: string, status: string)
    ensures Data(Extract(raw, status)) == Flatten(Filter(Records(Data(raw)), (r: Lines) => Wanted(status, r)))
  {
    KeptClean(raw, status);
    DataJoin(Kept(Data(raw), status));
    KeptRecords(Data(raw), status);
  }

  // ---------- what the cleaning does to a line ----------

  /** The line without the spaces around it. */
  ghost predicate Trimmed(line: string, left: string, core: string, right: string) {
    && line == left + core + right
    && (forall i :: 0 <= i < |left| ==> left[i] == ' ') && (forall i :: 0 <= i < |right| ==> right[i] == ' ')
    && (core == [] || (core[0] != ' ' && core[|core| - 1] != ' '))
  }

  lemma {:induction false} TrimLeft(s: string) returns (left: string)
    requires '\n' !in s
    ensures s == left + StripLeft(s, BLANKS) && forall i :: 0 <= i < |left| ==> left[i] == ' '
  {
    left := [];
    if s != [] && s[0] in BLANKS {
      var more := TrimLeft(s[1..]);
      left := [s[0]] + more;
    }
  }

  lemma {:induction false} TrimRight(s: string) returns (right: string)
    requires '\n' !in s
    ensures s == StripRight(s, BLANKS) + right && forall i :: 0 <= i < |right| ==> right[i] == ' '
  {
    right := [];
    if s != [] && s[|s| - 1] in BLANKS {
      var more := TrimRight(s[..|s| - 1]);
      right := more + [s[|s| - 1]];
    }
  }

  /** Cleaning removes exactly the spaces around a line. */
  lemma TrimExact(line: string) returns (left: string, right: string)
    requires '\n' !in line
    ensures Trimmed(line, left, Strip(line, BLANKS), right)
  {
    left := TrimLeft(line);
    var rest := StripLeft(line, BLANKS);
    assert forall c :: c in rest ==> c in line;
    right := TrimRight(rest);
    var core := Strip(line, BLANKS);
    assert line == left + (core + right) == left + core + right;
    if core != [] { assert core[0] == rest[0]; }
  }

  predicate Survives(line: string) {
    Strip(line, BLANKS) != "" && Strip(line, BLANKS) != "#"
  }

  /** `at` lists the surviving lines in order, and `output` holds them trimmed. */
  ghost predicate Survivors(ls: Lines, at: seq<nat>, output: Lines) {
    && (forall i, j :: 0 <= i < j < |at| ==> at[i] < at[j])
    && (forall n: nat :: n in at <==> n < |ls| && Survives(ls[n]))
    && |output| == |at| && forall i :: 0 <= i < |at| ==> at[i] < |ls| && output[i] == Strip(ls[at[i]], BLANKS)
  }

  lemma SurvivorsMore(ls: Lines, at: seq<nat>, output: Lines)
    requires ls != [] && Survivors(ls[..|ls| - 1], at, output)
    ensures var n := |ls| - 1;
            if Survives(ls[n]) then Survivors(ls, at + [n], output + [Strip(ls[n], BLANKS)])
            else Survivors(ls, at, output)
  {
    var n := |ls| - 1;
    assert forall m: nat :: m < n ==> ls[..n][m] == ls[m];
    forall m: nat ensures m in at + [n] <==> m in at || m == n {}
  }

  /** The lines that survive are the trimmed ones other than the empty line and a lone '#', in order. */
  lemma {:induction false} CleanLinesExact(ls: Lines) returns (at: seq<nat>)
    ensures Survivors(ls, at, CleanLines(ls))
  {
    at := [];
    if ls != [] {
      var n := |ls| - 1;
      at := CleanLinesExact(ls[..n]);
      SurvivorsMore(ls, at, CleanLines(ls[..n]));
      if Survives(ls[n]) { at := at + [n]; }
    }
  }

  // ---------- which records match ----------

  lemma {:induction false} AfterColon(head: string, tail: string)
    requires ':' !in tail
    ensures AfterLastColon(head + ":" + tail) == tail
    decreases |tail|
  {
    var s := head + ":" + tail;
    if tail != [] {
      var n := |tail| - 1;
      assert s[..|s| - 1] == head + ":" + tail[..n] && s[|s| - 1] == tail[n] != ':';
      AfterColon(head, tail[..n]);
    }
  }

  lemma {:induction false} NoColon(line: string)
    requires ':' !in line
    ensures AfterLastColon(line) == line
  {
    if line != [] {
      assert line[|line| - 1] in line;
      NoColon(line[..|line| - 1]);
    }
  }

  /** What stands behind the last colon of a line, or the whole line if it has none. */
  ghost predicate ValueOf(line: string, value: string) {
    ':' !in value && (line == value || exists head :: line == head + ":" + value)
  }

  /** The value of the line is the status asked for, up to whitespace around it and case; or all are asked for. */
  ghost predicate HasStatus(line: string, status: string) {
    || SameText(status, "all")
    || exists value, core :: ValueOf(line, value) && Stripped(value, core) && SameText(core, status)
  }

  lemma ValueIs(line: string, value: string)
    requires ValueOf(line, value)
    ensures AfterLastColon(line) == value
  {
    if line == value {
      NoColon(line);
    } else {
      var head :| line == head + ":" + value;
      AfterColon(head, value);
    }
  }

  lemma {:induction false} SomeValue(line: string) returns (value: string)
    ensures ValueOf(line, value)
  {
    if ':' !in line {
      value := line;
    } else {
      var n := |line| - 1;
      if line[n] == ':' {
        value := [];
        assert line == line[..n] + ":" + value;
      } else {
        var init := line[..n];
        assert line == init + [line[n]];
        var v := SomeValue(init);
        assert init != v;
        var head :| init == head + ":" + v;
        value := v + [line[n]];
        assert line == head + ":" + value;
      }
    }
  }

  lemma StrippedOnce(s: string, a: string, b: string)
    requires Stripped(s, a) && Stripped(s, b)
    ensures a == b
  {
    var l, r :| StrippedBy(s, l, a, r);
    var k, q :| StrippedBy(s, k, b, q);
    OneCore(s, l, a, r, k, b, q);
  }

  /** The core reaches from the first character that is not blank to the last. */
  lemma CoreEdges(s: string, left: string, core: string, right: string)
    requires StrippedBy(s, left, core, right)
    ensures |left| + |core| <= |s| && core == s[|left|..|left| + |core|]
    ensures forall i :: 0 <= i < |left| ==> Blank(s[i])
    ensures forall i :: |left| + |core| <= i < |s| ==> Blank(s[i])
    ensures core != [] ==> !Blank(s[|left|]) && !Blank(s[|left| + |core| - 1])
  {
    forall i | |left| + |core| <= i < |s| ensures Blank(s[i]) { assert s[i] == right[i - |left| - |core|]; }
  }

  lemma OneCore(s: string, l: string, a: string, r: string, k: string, b: string, q: string)
    requires StrippedBy(s, l, a, r) && StrippedBy(s, k, b, q)
    ensures a == b
  {
    CoreEdges(s, l, a, r);
    CoreEdges(s, k, b, q);
  }

  /** A line matches a status exactly when it has it. */
  lemma MatchesExactly(line: string, status: string)
    ensures Matches(line, status) <==> HasStatus(line, status)
  {
    LowerSame(status, "all");
    assert Lower("all") == "all";
    var value := SomeValue(line);
    ValueIs(line, value);
    var core := Strip(value, WHITESPACE);
    StripExact(value);
    LowerSame(core, status);
    if v, c :| ValueOf(line, v) && Stripped(v, c) && SameText(c, status) {
      ValueIs(line, v);
      StrippedOnce(value, core, c);
    }
  }

  // ---------- the output, record by record ----------

  /** Lines `6 r` to `6 r + 5` are a complete record whose second line has the status. */
  ghost predicate RecordHas(data: Lines, status: string, r: nat) {
    6 * r + 6 <= |data| && HasStatus(data[6 * r + 1], status)
  }

  /** `picks` lists in order the numbers of the complete six-line records with the status, and the output lines
      are those of these records. */
  ghost predicate Selects(data: Lines, status: string, picks: seq<nat>, output: Lines) {
    && (forall i, j :: 0 <= i < j < |picks| ==> picks[i] < picks[j])
    && (forall r: nat :: r in picks <==> RecordHas(data, status, r))
    && |output| == 6 * |picks|
    && forall i: nat, j: nat :: i < |picks| && j < 6 ==> SelectedLine(data, picks, output, i, j)
  }

  ghost predicate SelectedLine(data: Lines, picks: seq<nat>, output: Lines, i: nat, j: nat) {
    && i < |picks| && 6 * i + j < |output| && 6 * picks[i] + j < |data|
    && output[6 * i + j] == data[6 * picks[i] + j]
  }

  function Shifted(picks: seq<nat>): (r: seq<nat>)
    ensures |r| == |picks| && forall i :: 0 <= i < |picks| ==> r[i] == picks[i] + 1
  {
    seq(|picks|, i requires 0 <= i < |picks| => picks[i] + 1)
  }

  lemma ShiftedIn(picks: seq<nat>, r: nat)
    ensures r in Shifted(picks) <==> r > 0 && r - 1 in picks
  {
    if r > 0 && r - 1 in picks {
      var i :| 0 <= i < |picks| && picks[i] == r - 1;
      assert Shifted(picks)[i] == r;
    }
  }

  lemma RecordShift(data: Lines, status: string, r: nat)
    requires |data| >= 6
    ensures RecordHas(data, status, r + 1) <==> RecordHas(data[6..], status, r)
  {
    if 6 * r + 12 <= |data| { assert data[6 * (r + 1) + 1] == data[6..][6 * r + 1]; }
  }

  lemma SelectsMore(data: Lines, status: string, picks: seq<nat>, output: Lines)
    requires |data| >= 6 && Selects(data[6..], status, picks, output)
    ensures RecordHas(data, status, 0) ==> Selects(data, status, [0] + Shifted(picks), data[..6] + output)
    ensures !RecordHas(data, status, 0) ==> Selects(data, status, Shifted(picks), output)
  {
    forall r: nat | r > 0 ensures r in Shifted(picks) <==> RecordHas(data, status, r) {
      ShiftedIn(picks, r);
      RecordShift(data, status, r - 1);
    }
    ShiftedIn(picks, 0);
    if RecordHas(data, status, 0) {
      LinesMore(data, picks, output);
    } else {
      LinesKept(data, picks, output);
    }
  }

  lemma LinesKept(data: Lines, picks: seq<nat>, output: Lines)
    requires |data| >= 6
    requires forall i: nat, j: nat :: i < |picks| && j < 6 ==> SelectedLine(data[6..], picks, output, i, j)
    ensures forall i: nat, j: nat :: i < |picks| && j < 6 ==> SelectedLine(data, Shifted(picks), output, i, j)
  {
    forall i: nat, j: nat | i < |picks| && j < 6 ensures SelectedLine(data, Shifted(picks), output, i, j) {
      assert SelectedLine(data[6..], picks, output, i, j);
    }
  }

  lemma LinesMore(data: Lines, picks: seq<nat>, output: Lines)
    requires |data| >= 6 && |output| == 6 * |picks|
    requires forall i: nat, j: nat :: i < |picks| && j < 6 ==> SelectedLine(data[6..], picks, output, i, j)
    ensures var all, more := [0] + Shifted(picks), data[..6] + output;
            forall i: nat, j: nat :: i < |all| && j < 6 ==> SelectedLine(data, all, more, i, j)
  {
    var all, more := [0] + Shifted(picks), data[..6] + output;
    forall i: nat, j: nat | i < |all| && j < 6 ensures SelectedLine(data, all, more, i, j) {
      if i > 0 {
        assert SelectedLine(data[6..], picks, output, i - 1, j);
        assert more[6 * i + j] == output[6 * (i - 1) + j];
      }
    }
  }

  lemma {:induction false} KeptSelects(data: Lines, status: string) returns (picks: seq<nat>)
    ensures Selects(data, status, picks, Kept(data, status))
  {
    if |data| < LINES_PER_ITEM {
      picks := [];
    } else {
      var rest := KeptSelects(data[6..], status);
      SelectsMore(data, status, rest, Kept(data[6..], status));
      KeptCons(data, status);
      picks := if RecordHas(data, status, 0) then [0] + Shifted(rest) else Shifted(rest);
    }
  }

  lemma KeptCons(data: Lines, status: string)
    requires |data| >= 6
    ensures RecordHas(data, status, 0) ==> Kept(data, status) == data[..6] + Kept(data[6..], status)
    ensures !RecordHas(data, status, 0) ==> Kept(data, status) == Kept(data[6..], status)
  {
    MatchesExactly(data[1], status);
    assert [] + Kept(data[6..], status) == Kept(data[6..], status);
  }

  /** The lines of the output are those of exactly the complete records with the status, in order. */
  lemma OutputSelects(raw: string, status: string) returns (picks: seq<nat>)
    ensures Selects(Data(raw), status, picks, Data(Extract(raw, status)))
  {
    KeptClean(raw, status);
    DataJoin(Kept(Data(raw), status));
    picks := KeptSelects(Data(raw), status);
  }
}
