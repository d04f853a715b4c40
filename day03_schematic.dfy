/**
 * The engine schematic of 2023/day03/schema.py. A schematic is a list of lines. A part
 * number is a maximal run of digits with a symbol (anything but `.` and a digit) in the
 * line above, the same line or the line below, from the column before the run to the
 * column after it. A gear is a `*` next to exactly two part numbers.
 */
module Schematic {
  import Text

  // ---- ranges ----

  /** `Range`: the half-open interval `[start, end)`. */
  datatype Range = Range(start: int, end: int)

  function Max(a: int, b: int): int {
    if a >= b then a else b
  }

  function Min(a: int, b: int): int {
    if a <= b then a else b
  }

  /** `Range.clamp` on a number: the nearest point of `[start, end - 1]`, or `start` when that is empty. */
  function Clamp(r: Range, v: int): (c: int)
    ensures r.start <= r.end - 1 ==> r.start <= c <= r.end - 1
    ensures r.start <= v <= r.end - 1 ==> c == v
    ensures r.end - 1 < r.start ==> c == r.start
  {
    Max(r.start, Min(v, r.end - 1))
  }

  /** `Range.clamp` on a range: the first and the last point clamped separately. */
  function ClampRange(r: Range, v: Range): (c: Range)
    ensures c.start == Clamp(r, v.start) && c.end - 1 == Clamp(r, v.end - 1)
  {
    Range(Clamp(r, v.start), Clamp(r, v.end - 1) + 1)
  }

  /**
   * Clamping a range to the line `[0, n)` that it overlaps gives their intersection;
   * clamping one that lies wholly to the right of the line gives its last column.
   */
  lemma ClampRangeOverlap(n: nat, v: Range)
    requires v.start < v.end
    ensures n >= 1 && v.start < n && v.end > 0 ==>
      ClampRange(Range(0, n), v) == Range(Max(0, v.start), Min(n, v.end))
    ensures n >= 1 && v.start >= n ==> ClampRange(Range(0, n), v) == Range(n - 1, n)
  {
  }

  /** A position in Python's slice `s[a:b]`: negative ones count from the end; all are cut to `[0, n]`. */
  function SliceIndex(n: nat, a: int): (i: nat)
    ensures i <= n
  {
    if a < 0 then Max(0, a + n) else Min(a, n)
  }

  /** Python's `s[a:b]`. */
  function Slice(s: string, a: int, b: int): (r: string)
    ensures var i, j := SliceIndex(|s|, a), SliceIndex(|s|, b);
      (i < j ==> r == s[i..j]) && (j <= i ==> r == [])
  {
    var i, j := SliceIndex(|s|, a), SliceIndex(|s|, b);
    if i < j then s[i..j] else []
  }

  // ---- symbols ----

  /** `Symbol`: equal, and hashed, by all three members, as a datatype value is. */
  datatype Symbol = Symbol(ch: char, lineIndex: int, pos: int)

  /** `symbolPattern`, `[^.0-9]`: anything but a dot and a digit. */
  predicate IsSymbolChar(c: char) {
    c != '.' && !Text.IsDigit(c)
  }

  /** Symbols in strictly increasing column order. */
  predicate ColumnOrder(r: seq<Symbol>) {
    forall i, j :: 0 <= i < j < |r| ==> r[i].pos < r[j].pos
  }

  /** One symbol per symbol character among the first `n` of `s`, at its index plus `offset`. */
  function SymbolsUpTo(s: string, n: nat, lineIndex: int, offset: int): seq<Symbol>
    requires n <= |s|
  {
    if n == 0 then []
    else
      SymbolsUpTo(s, n - 1, lineIndex, offset)
        + (if IsSymbolChar(s[n - 1]) then [Symbol(s[n - 1], lineIndex, n - 1 + offset)] else [])
  }

  /** The symbols listed are exactly the symbol characters, at their index plus `offset`, in order. */
  lemma {:induction false} SymbolsUpToContents(s: string, n: nat, lineIndex: int, offset: int)
    requires n <= |s|
    ensures forall y :: y in SymbolsUpTo(s, n, lineIndex, offset) <==>
      (y.lineIndex == lineIndex && 0 <= y.pos - offset < n && IsSymbolChar(s[y.pos - offset]) && y.ch == s[y.pos - offset])
    ensures ColumnOrder(SymbolsUpTo(s, n, lineIndex, offset))
    decreases n
  {
    if n > 0 {
      SymbolsUpToContents(s, n - 1, lineIndex, offset);
      var r := SymbolsUpTo(s, n, lineIndex, offset);
      var init := SymbolsUpTo(s, n - 1, lineIndex, offset);
      forall i, j | 0 <= i < j < |r|
        ensures r[i].pos < r[j].pos
      {
        if j >= |init| {
          assert r[j].pos == n - 1 + offset;
          assert r[i] == init[i] && r[i] in init;
          assert r[i].pos - offset < n - 1;
        } else {
          assert r[i] == init[i] && r[j] == init[j];
        }
      }
    }
  }

  /** What `Symbol.findAll` returns: the symbols of `line[range.start:range.end]`, placed back on the line. */
  function FindAllSpec(line: string, lineIndex: int, range: Range): seq<Symbol> {
    var s := Slice(line, range.start, range.end);
    SymbolsUpTo(s, |s|, lineIndex, range.start)
  }

  /** `Symbol.findAll`: slice the line and collect its symbols in a loop. */
  method FindAll(line: string, lineIndex: int, range: Range) returns (symbols: seq<Symbol>)
    ensures symbols == FindAllSpec(line, lineIndex, range)
  {
    var s := Slice(line, range.start, range.end);
    symbols := [];
    for k := 0 to |s|
      invariant symbols == SymbolsUpTo(s, k, lineIndex, range.start)
    {
      if IsSymbolChar(s[k]) {
        symbols := symbols + [Symbol(s[k], lineIndex, k + range.start)];
      }
    }
  }

  /**
   * Within the line, for a range that starts at column 0 or later: `findAll` lists exactly
   * the symbol characters of the columns `range.start .. range.end - 1`, in column order.
   */
  lemma FindAllInRange(line: string, lineIndex: int, range: Range)
    requires 0 <= range.start && 0 <= range.end
    ensures forall y :: y in FindAllSpec(line, lineIndex, range) <==>
      (y.lineIndex == lineIndex && range.start <= y.pos < range.end && 0 <= y.pos < |line|
       && IsSymbolChar(line[y.pos]) && y.ch == line[y.pos])
    ensures ColumnOrder(FindAllSpec(line, lineIndex, range))
  {
    var s := Slice(line, range.start, range.end);
    var i, j := SliceIndex(|line|, range.start), SliceIndex(|line|, range.end);
    assert i == Min(range.start, |line|);
    assert |s| == if i < j then j - i else 0;
    SymbolsUpToContents(s, |s|, lineIndex, range.start);
    forall y
      ensures y in FindAllSpec(line, lineIndex, range) <==>
        (y.lineIndex == lineIndex && range.start <= y.pos < range.end && 0 <= y.pos < |line|
         && IsSymbolChar(line[y.pos]) && y.ch == line[y.pos])
    {
      if 0 <= y.pos - range.start < |s| {
        assert y.pos < j && s[y.pos - range.start] == line[y.pos];
      }
      if range.start <= y.pos < range.end && 0 <= y.pos < |line| {
        assert 0 <= y.pos - range.start < |s|;
        assert s[y.pos - range.start] == line[y.pos];
      }
    }
  }

  // ---- digit runs ----

  /** `match.start()` and `match.end()` of one match of `\d+`. */
  datatype Run = Run(start: nat, end: nat)

  /** The end of the digits starting at `i`. */
  function RunEnd(line: string, i: nat): (e: nat)
    requires i <= |line|
    ensures i <= e <= |line| && (e == |line| || !Text.IsDigit(line[e]))
    ensures forall k :: i <= k < e ==> Text.IsDigit(line[k])
    decreases |line| - i
  {
    if i == |line| || !Text.IsDigit(line[i]) then i else RunEnd(line, i + 1)
  }

  /** `re.finditer("\d+", line)` from column `i` on: the maximal digit runs, left to right. */
  function RunsFrom(line: string, i: nat): seq<Run>
    requires i <= |line|
    decreases |line| - i
  {
    if i == |line| then []
    else if Text.IsDigit(line[i]) then
      var e := RunEnd(line, i);
      [Run(i, e)] + RunsFrom(line, e)
    else RunsFrom(line, i + 1)
  }

  function DigitRuns(line: string): seq<Run> {
    RunsFrom(line, 0)
  }

  /** A maximal digit run of the line: digits only, with no digit just before or just after it. */
  predicate Maximal(line: string, r: Run) {
    r.start < r.end <= |line|
    && (forall k :: r.start <= k < r.end ==> Text.IsDigit(line[k]))
    && (r.start == 0 || !Text.IsDigit(line[r.start - 1]))
    && (r.end == |line| || !Text.IsDigit(line[r.end]))
  }

  /** Column `k` lies in some run of `runs`. */
  predicate Covered(runs: seq<Run>, k: int) {
    exists j :: 0 <= j < |runs| && runs[j].start <= k < runs[j].end
  }

  /** Every run is maximal and starts at `i` or later. */
  predicate AllMaximal(line: string, runs: seq<Run>, i: nat) {
    forall j :: 0 <= j < |runs| ==> Maximal(line, runs[j]) && i <= runs[j].start
  }

  /** Each run ends before the next one starts. */
  predicate Separated(runs: seq<Run>) {
    forall j :: 0 <= j < |runs| - 1 ==> runs[j].end < runs[j + 1].start
  }

  /** Every digit from column `i` on lies in a run. */
  predicate CoversFrom(line: string, runs: seq<Run>, i: nat) {
    forall k :: i <= k < |line| && Text.IsDigit(line[k]) ==> Covered(runs, k)
  }

  /**
   * The runs from column `i` (where no run is cut in two) are maximal and left to right,
   * and every digit from `i` on lies in one of them.
   */
  lemma {:induction false} RunsFromMaximal(line: string, i: nat)
    requires i <= |line|
    requires i == 0 || i == |line| || !Text.IsDigit(line[i - 1]) || !Text.IsDigit(line[i])
    ensures AllMaximal(line, RunsFrom(line, i), i)
    ensures Separated(RunsFrom(line, i))
    ensures CoversFrom(line, RunsFrom(line, i), i)
    decreases |line| - i
  {
    if i < |line| {
      if Text.IsDigit(line[i]) {
        var e := RunEnd(line, i);
        RunsFromMaximal(line, e);
        RunCons(line, i, e, RunsFrom(line, e));
      } else {
        RunsFromMaximal(line, i + 1);
      }
    }
  }

  /** A maximal run at `i` followed by the runs after it. */
  lemma RunCons(line: string, i: nat, e: nat, rest: seq<Run>)
    requires i < e <= |line| && Maximal(line, Run(i, e))
    requires e == |line| ==> rest == []
    requires AllMaximal(line, rest, e) && Separated(rest) && CoversFrom(line, rest, e)
    ensures AllMaximal(line, [Run(i, e)] + rest, i)
    ensures Separated([Run(i, e)] + rest)
    ensures CoversFrom(line, [Run(i, e)] + rest, i)
  {
    var runs := [Run(i, e)] + rest;
    forall j | 0 <= j < |runs|
      ensures Maximal(line, runs[j]) && i <= runs[j].start
    {
      if j > 0 {
        assert runs[j] == rest[j - 1];
      }
    }
    forall k | i <= k < |line| && Text.IsDigit(line[k])
      ensures Covered(runs, k)
    {
      if k < e {
        assert runs[0].start <= k < runs[0].end;
      } else {
        assert k != e;
        var j :| 0 <= j < |rest| && rest[j].start <= k < rest[j].end;
        assert runs[j + 1] == rest[j];
      }
    }
    forall j | 0 <= j < |runs| - 1
      ensures runs[j].end < runs[j + 1].start
    {
      if j > 0 {
        assert runs[j] == rest[j - 1] && runs[j + 1] == rest[j];
      } else {
        assert runs[1] == rest[0] && Maximal(line, rest[0]);
        assert Text.IsDigit(line[rest[0].start]);
      }
    }
  }

  /** `finditer` finds every maximal run of digits, each once, left to right. */
  lemma DigitRunsMaximal(line: string)
    ensures AllMaximal(line, DigitRuns(line), 0)
    ensures Separated(DigitRuns(line))
    ensures CoversFrom(line, DigitRuns(line), 0)
  {
    RunsFromMaximal(line, 0);
  }

  /** Each run `finditer` yields is a maximal digit run. */
  lemma RunMaximal(line: string, j: nat)
    requires j < |DigitRuns(line)|
    ensures Maximal(line, DigitRuns(line)[j])
  {
    DigitRunsMaximal(line);
  }

  // ---- adjacency ----

  /** `matchRange`: from the column before the run to the column after it. */
  function Around(run: Run): Range {
    Range(run.start - 1, run.end + 1)
  }

  /** The window `adjacentSymbols` searches in a line, as written: `Range(0, len(line)).clamp(matchRange)`. */
  function ClampedWindow(line: string, m: Range): Range {
    ClampRange(Range(0, |line|), m)
  }

  /** The window as intended: the part of `matchRange` that lies on the line. */
  function Window(line: string, m: Range): (w: Range)
    ensures 0 <= w.start && w.end <= |line| && (m.end >= 0 ==> w.end >= 0)
  {
    Range(Max(0, m.start), Min(|line|, m.end))
  }

  /** `adjacentSymbols` as written: the line above (not for line 0), the line itself, the line below (not for the last). */
  function AdjacentAsWritten(lines: seq<string>, index: nat, run: Run): seq<Symbol>
    requires index < |lines|
  {
    var m := Around(run);
    (if index > 0 then FindAllSpec(lines[index - 1], index - 1, ClampedWindow(lines[index - 1], m)) else [])
    + FindAllSpec(lines[index], index, ClampedWindow(lines[index], m))
    + (if index + 1 < |lines| then FindAllSpec(lines[index + 1], index + 1, ClampedWindow(lines[index + 1], m)) else [])
  }

  /** `adjacentSymbols` with each window cut to its line. */
  function Adjacent(lines: seq<string>, index: nat, run: Run): seq<Symbol>
    requires index < |lines|
  {
    var m := Around(run);
    (if index > 0 then FindAllSpec(lines[index - 1], index - 1, Window(lines[index - 1], m)) else [])
    + FindAllSpec(lines[index], index, Window(lines[index], m))
    + (if index + 1 < |lines| then FindAllSpec(lines[index + 1], index + 1, Window(lines[index + 1], m)) else [])
  }

  /**
   * Symbol `y` of the schematic touches the run on line `index`: it lies on that line or
   * a neighbouring one, between the column before the run and the column after it.
   */
  predicate Touches(lines: seq<string>, index: nat, run: Run, y: Symbol) {
    index - 1 <= y.lineIndex <= index + 1 && Beside(lines, run, y)
  }

  /** Symbol `y` of the schematic lies between the column before the run and the column after it. */
  predicate Beside(lines: seq<string>, run: Run, y: Symbol) {
    0 <= y.lineIndex < |lines|
    && run.start - 1 <= y.pos <= run.end && 0 <= y.pos < |lines[y.lineIndex]|
    && IsSymbolChar(lines[y.lineIndex][y.pos]) && y.ch == lines[y.lineIndex][y.pos]
  }

  /** Symbol `y` lies on line `li` of the schematic, inside window `w`. */
  predicate InWindow(lines: seq<string>, li: int, w: Range, y: Symbol)
    requires 0 <= li < |lines|
  {
    y.lineIndex == li && w.start <= y.pos < w.end && 0 <= y.pos < |lines[li]|
    && IsSymbolChar(lines[li][y.pos]) && y.ch == lines[li][y.pos]
  }

  lemma WindowMembers(lines: seq<string>, li: int, m: Range)
    requires 0 <= li < |lines| && m.end >= 0
    ensures forall y :: y in FindAllSpec(lines[li], li, Window(lines[li], m)) <==>
      InWindow(lines, li, Range(m.start, m.end), y)
  {
    var w := Window(lines[li], m);
    FindAllInRange(lines[li], li, w);
    forall y: Symbol
      ensures (w.start <= y.pos < w.end && 0 <= y.pos < |lines[li]|)
        <==> (m.start <= y.pos < m.end && 0 <= y.pos < |lines[li]|)
    {
    }
  }

  /** The symbols the search of line `li` finds for a run, none for a line off the schematic. */
  function Piece(lines: seq<string>, li: int, run: Run): seq<Symbol> {
    if 0 <= li < |lines| then FindAllSpec(lines[li], li, Window(lines[li], Around(run))) else []
  }

  lemma PieceMembers(lines: seq<string>, li: int, run: Run, y: Symbol)
    ensures y in Piece(lines, li, run) <==> y.lineIndex == li && Beside(lines, run, y)
  {
    if 0 <= li < |lines| {
      WindowMembers(lines, li, Around(run));
    }
  }

  /** The symbols `adjacentSymbols` finds are exactly those touching the run. */
  lemma AdjacentTouches(lines: seq<string>, index: nat, run: Run)
    requires index < |lines|
    ensures forall y :: y in Adjacent(lines, index, run) <==> Touches(lines, index, run, y)
  {
    var above, here, below := Piece(lines, index - 1, run), Piece(lines, index, run), Piece(lines, index + 1, run);
    forall y: Symbol
      ensures y in above + here + below <==> Touches(lines, index, run, y)
    {
      PieceMembers(lines, index - 1, run, y);
      PieceMembers(lines, index, run, y);
      PieceMembers(lines, index + 1, run, y);
    }
    assert Adjacent(lines, index, run) == above + here + below;
  }

  /**
   * On a rectangular schematic, for a run that lies on its line, the window as written
   * and the intended one agree.
   */
  lemma AsWrittenOnRectangular(lines: seq<string>, index: nat, run: Run)
    requires index < |lines| && run.start < run.end <= |lines[index]|
    requires forall i :: 0 <= i < |lines| ==> |lines[i]| == |lines[index]|
    ensures AdjacentAsWritten(lines, index, run) == Adjacent(lines, index, run)
  {
    var m := Around(run);
    var n := |lines[index]|;
    ClampRangeOverlap(n, m);
  }

  /** The schematic `#` over `..5`, with its one digit run. */
  predicate Ragged(lines: seq<string>, run: Run) {
    |lines| == 2 && |lines[0]| == 1 && lines[0][0] == '#'
    && |lines[1]| == 3 && lines[1][0] == '.' && lines[1][1] == '.' && lines[1][2] == '5'
    && run == Run(2, 3)
  }

  /** On the last line (not the first), `adjacentSymbols` as written searches the line above and the line itself. */
  lemma AsWrittenLastLine(lines: seq<string>, index: nat, run: Run)
    requires 0 < index == |lines| - 1
    ensures AdjacentAsWritten(lines, index, run)
      == FindAllSpec(lines[index - 1], index - 1, ClampedWindow(lines[index - 1], Around(run)))
       + FindAllSpec(lines[index], index, ClampedWindow(lines[index], Around(run)))
  {
    var none: seq<Symbol> := [];
    var a := FindAllSpec(lines[index - 1], index - 1, ClampedWindow(lines[index - 1], Around(run)));
    var b := FindAllSpec(lines[index], index, ClampedWindow(lines[index], Around(run)));
    assert a + b + none == a + b;
  }

  lemma RaggedWindow(lines: seq<string>, run: Run)
    requires Ragged(lines, run)
    ensures ClampedWindow(lines[0], Around(run)) == Range(0, 1)
  {
  }

  lemma HashFound(line: string)
    requires |line| == 1 && line[0] == '#'
    ensures Symbol('#', 0, 0) in FindAllSpec(line, 0, Range(0, 1))
  {
    FindAllInRange(line, 0, Range(0, 1));
  }

  /** As written, the window above the `5` of `#` over `..5` is clamped onto column 0, where the `#` is. */
  lemma RaggedClamped(lines: seq<string>, run: Run)
    requires Ragged(lines, run)
    ensures Symbol('#', 0, 0) in AdjacentAsWritten(lines, 1, run)
  {
    AsWrittenLastLine(lines, 1, run);
    RaggedWindow(lines, run);
    HashFound(lines[0]);
  }

  /** Nothing in `#` over `..5` touches the `5`. */
  lemma RaggedUntouched(lines: seq<string>, run: Run, y: Symbol)
    requires Ragged(lines, run)
    ensures !Touches(lines, 1, run, y)
  {
    assert |lines| == 2 && lines[0] == "#" && lines[1] == "..5";
  }

  /**
   * The schematic `#` over `..5`: as written the window above is clamped onto column 0,
   * so the `#` two columns left of the `5` counts as adjacent; nothing touches the `5`.
   */
  lemma RaggedLineAsWritten(lines: seq<string>, run: Run)
    requires Ragged(lines, run)
    ensures Symbol('#', 0, 0) in AdjacentAsWritten(lines, 1, run)
    ensures Adjacent(lines, 1, run) == []
    ensures !Touches(lines, 1, run, Symbol('#', 0, 0))
  {
    RaggedClamped(lines, run);
    AdjacentTouches(lines, 1, run);
    var adj := Adjacent(lines, 1, run);
    if adj != [] {
      RaggedUntouched(lines, run, adj[0]);
    }
    RaggedUntouched(lines, run, Symbol('#', 0, 0));
  }

  // ---- part numbers ----

  /** `PartNumber`: the number of a run and the symbols next to it. */
  datatype PartNumber = PartNumber(number: nat, symbols: seq<Symbol>)

  /** `int(match.group())`: the value of a maximal digit run. */
  function RunValue(line: string, run: Run): nat
    requires Maximal(line, run)
  {
    var digits := line[run.start..run.end];
    assert Text.AllDigits(digits) by {
      forall k | 0 <= k < |digits|
        ensures Text.IsDigit(digits[k])
      {
        assert digits[k] == line[run.start + k];
      }
    }
    Text.NatOf(digits)
  }

  /** The part number a run would make: its value and its adjacent symbols. */
  function PartOf(lines: seq<string>, index: nat, run: Run): PartNumber
    requires index < |lines| && Maximal(lines[index], run)
  {
    PartNumber(RunValue(lines[index], run), Adjacent(lines, index, run))
  }

  /** Every run of line `index` as a part number, whether or not a symbol touches it. */
  function Candidates(lines: seq<string>, index: nat): (c: seq<PartNumber>)
    requires index < |lines|
    ensures |c| == |DigitRuns(lines[index])|
  {
    var runs := DigitRuns(lines[index]);
    seq(|runs|, j requires 0 <= j < |runs| => RunMaximal(lines[index], j); PartOf(lines, index, runs[j]))
  }

  /** The part numbers that have an adjacent symbol. */
  function Keep(c: seq<PartNumber>): seq<PartNumber> {
    if c == [] then [] else Keep(c[..|c| - 1]) + (if c[|c| - 1].symbols != [] then [c[|c| - 1]] else [])
  }

  /** `Keep` keeps exactly the part numbers with a symbol, in order. */
  lemma {:induction false} KeepMembers(c: seq<PartNumber>, p: PartNumber)
    ensures p in Keep(c) <==> p in c && p.symbols != []
    decreases |c|
  {
    if c != [] {
      var init := c[..|c| - 1];
      KeepMembers(init, p);
      assert c == init + [c[|c| - 1]];
    }
  }

  lemma KeepPrefix(c: seq<PartNumber>, k: nat)
    requires k < |c|
    ensures Keep(c[..k + 1]) == Keep(c[..k]) + (if c[k].symbols != [] then [c[k]] else [])
  {
    assert c[..k + 1][..k] == c[..k];
  }

  /** The part numbers of each line in turn, each with its symbols. */
  function Parts(cs: seq<seq<PartNumber>>): seq<PartNumber> {
    if cs == [] then [] else Parts(cs[..|cs| - 1]) + Keep(cs[|cs| - 1])
  }

  /** A part number with a symbol, made by a run of some line, is listed. */
  lemma {:induction false} PartsListed(cs: seq<seq<PartNumber>>, i: nat, p: PartNumber)
    requires i < |cs| && p in cs[i] && p.symbols != []
    ensures p in Parts(cs)
    decreases |cs|
  {
    var init := cs[..|cs| - 1];
    if i < |init| {
      assert init[i] == cs[i];
      PartsListed(init, i, p);
    } else {
      KeepMembers(cs[i], p);
    }
  }

  /** Every listed part number has a symbol and is made by a run of line `i`, for the `i` returned. */
  lemma {:induction false} PartsSource(cs: seq<seq<PartNumber>>, p: PartNumber) returns (i: nat)
    requires p in Parts(cs)
    ensures i < |cs| && p in cs[i] && p.symbols != []
    decreases |cs|
  {
    var init := cs[..|cs| - 1];
    var last := cs[|cs| - 1];
    if p in Keep(last) {
      KeepMembers(last, p);
      i := |cs| - 1;
    } else {
      assert p in Parts(init);
      i := PartsSource(init, p);
      assert init[i] == cs[i];
    }
  }

  lemma PartsPrefix(cs: seq<seq<PartNumber>>, i: nat)
    requires i < |cs|
    ensures Parts(cs[..i + 1]) == Parts(cs[..i]) + Keep(cs[i])
  {
    assert cs[..i + 1][..i] == cs[..i];
  }

  /** The candidates of every line, top to bottom. */
  function AllCandidates(lines: seq<string>): (cs: seq<seq<PartNumber>>)
    ensures |cs| == |lines|
  {
    seq(|lines|, i requires 0 <= i < |lines| => Candidates(lines, i))
  }

  /** `adjacentSymbols`: the three `findAll` calls. */
  method AdjacentSymbols(lines: seq<string>, index: nat, run: Run) returns (symbols: seq<Symbol>)
    requires index < |lines|
    ensures symbols == Adjacent(lines, index, run)
  {
    var m := Around(run);
    var above: seq<Symbol> := [];
    if index > 0 {
      var line := lines[index - 1];
      above := FindAll(line, index - 1, Window(line, m));
    }
    var here := FindAll(lines[index], index, Window(lines[index], m));
    var below: seq<Symbol> := [];
    if index + 1 < |lines| {
      var line := lines[index + 1];
      below := FindAll(line, index + 1, Window(line, m));
    }
    symbols := above + here + below;
  }

  /** The body of the loop over the runs in `partNumbers`: the number of run `k` and its symbols. */
  method RunPart(lines: seq<string>, index: nat, k: nat) returns (part: PartNumber)
    requires index < |lines| && k < |DigitRuns(lines[index])|
    ensures part == Candidates(lines, index)[k]
  {
    var line := lines[index];
    var run := DigitRuns(line)[k];
    RunMaximal(line, k);
    var number := RunValue(line, run);
    var symbols := AdjacentSymbols(lines, index, run);
    part := PartNumber(number, symbols);
  }

  /** The loop over the runs of one line in `partNumbers`. */
  method LinePartNumbers(lines: seq<string>, index: nat) returns (parts: seq<PartNumber>)
    requires index < |lines|
    ensures parts == Keep(Candidates(lines, index))
  {
    ghost var c := Candidates(lines, index);
    var n := |DigitRuns(lines[index])|;
    parts := [];
    for k := 0 to n
      invariant parts == Keep(c[..k])
    {
      var part := RunPart(lines, index, k);
      KeepPrefix(c, k);
      if |part.symbols| > 0 {
        parts := parts + [part];
      }
    }
    assert c[..n] == c;
  }

  /** `partNumbers`: for each line, each digit run with an adjacent symbol, in order. */
  method PartNumbers(lines: seq<string>) returns (result: seq<PartNumber>)
    ensures result == Parts(AllCandidates(lines))
  {
    ghost var cs := AllCandidates(lines);
    result := [];
    for index := 0 to |lines|
      invariant result == Parts(cs[..index])
    {
      var parts := LinePartNumbers(lines, index);
      PartsPrefix(cs, index);
      result := result + parts;
    }
    assert cs[..|lines|] == cs;
  }

  /**
   * `partNumbers` lists the part number of a maximal digit run exactly when some symbol
   * touches the run: on its line or a neighbouring one, from the column before it to the
   * column after.
   */
  lemma PartNumberIff(lines: seq<string>, index: nat, j: nat)
    requires index < |lines| && j < |DigitRuns(lines[index])|
    ensures Candidates(lines, index)[j] in Parts(AllCandidates(lines))
      <==> exists y: Symbol :: Touches(lines, index, DigitRuns(lines[index])[j], y)
  {
    var cs := AllCandidates(lines);
    var run := DigitRuns(lines[index])[j];
    var p: PartNumber := cs[index][j];
    var adj := Adjacent(lines, index, run);
    RunMaximal(lines[index], j);
    assert p.symbols == adj;
    AdjacentTouches(lines, index, run);
    if exists y :: Touches(lines, index, run, y) {
      var y: Symbol :| Touches(lines, index, run, y);
      assert y in adj;
      assert p in cs[index];
      PartsListed(cs, index, p);
    }
    if p in Parts(cs) {
      var i := PartsSource(cs, p);
      assert adj[0] in adj;
    }
  }
}
