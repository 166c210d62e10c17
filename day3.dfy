/*
 * Day 3 (engine schematic). Each row is scanned into its part numbers
 * (maximal runs of digits) and its symbol columns. Part numbers next to a
 * symbol (part 1), and gears next to two or more part numbers (part 2),
 * are summed over a window of three rows.
 */
module Day3 {
  import opened Text
  import opened Seqs

  /** A part number: the column of its first digit, its end column and its value. */
  datatype Part = Part(start: int, end: int, value: nat)

  /** A scanned row: its part numbers and its symbol columns, left to right. */
  datatype Line = Line(parts: seq<Part>, symbols: seq<int>)

  // ---------------------------------------------------------------------
  // The scan of one row, as a specification
  // ---------------------------------------------------------------------

  /**
   * A non-digit that counts as a symbol: `symbolChar` itself when one is
   * given, otherwise anything but '.'.
   */
  predicate IsSymbol(c: char, symbolChar: Option<char>) {
    !IsDigit(c) && (if symbolChar.Some? then c == symbolChar.value else c != '.')
  }

  /** The end (exclusive) of the digit run starting at `i`. */
  function RunEnd(s: string, i: nat): (e: nat)
    requires i <= |s|
    ensures i <= e <= |s|
    ensures forall k :: i <= k < e ==> IsDigit(s[k])
    ensures e == |s| || !IsDigit(s[e])
    decreases |s| - i
  {
    if i == |s| || !IsDigit(s[i]) then i else RunEnd(s, i + 1)
  }

  /** A run of digits from `i` to `e`, stopped by a non-digit or the end of the row, ends at `e`. */
  lemma {:induction false} RunEndAt(s: string, i: nat, e: nat)
    requires i <= e <= |s|
    requires forall k :: i <= k < e ==> IsDigit(s[k])
    requires e == |s| || !IsDigit(s[e])
    ensures RunEnd(s, i) == e
    decreases e - i
  {
    if i < e {
      RunEndAt(s, i + 1, e);
    }
  }

  lemma DigitsSlice(s: string, i: nat, e: nat)
    requires i <= e <= |s|
    requires forall k :: i <= k < e ==> IsDigit(s[k])
    ensures AllDigits(s[i..e])
  {
    forall k | 0 <= k < e - i
      ensures IsDigit(s[i..e][k])
    {
      assert s[i..e][k] == s[i + k];
    }
  }

  /**
   * The part for the digit run `s[start..e]`: its end column is the last
   * digit's, except that a run reaching the end of the row records the
   * row length.
   */
  function MakePart(s: string, start: nat, e: nat): Part
    requires start < e <= |s| && AllDigits(s[start..e])
  {
    Part(start, if e == |s| then |s| else e - 1, Decimal(s[start..e]))
  }

  /** A part's value is what `parse` reads from its digit run, leading zeros and all. */
  lemma MakePartValue(s: string, start: nat, e: nat)
    requires start < e <= |s| && AllDigits(s[start..e])
    ensures ParseNat(s[start..e]) == Some(MakePart(s, start, e).value)
  {
    ParseDigits(s[start..e]);
  }

  /** The parts of `s` from column `i` on: one per digit run, left to right. */
  function PartsFrom(s: string, i: nat): seq<Part>
    requires i <= |s|
    decreases |s| - i
  {
    if i == |s| then []
    else if !IsDigit(s[i]) then PartsFrom(s, i + 1)
    else
      var e := RunEnd(s, i);
      DigitsSlice(s, i, e);
      [MakePart(s, i, e)] + PartsFrom(s, e)
  }

  /** The symbol columns of `s` from column `i` on, left to right. */
  function SymbolsFrom(s: string, symbolChar: Option<char>, i: nat): seq<int>
    requires i <= |s|
    decreases |s| - i
  {
    if i == |s| then []
    else (if IsSymbol(s[i], symbolChar) then [i] else []) + SymbolsFrom(s, symbolChar, i + 1)
  }

  /** What scanning a row must give: its parts and its symbols. */
  function Scan(s: string, symbolChar: Option<char>): Line {
    Line(PartsFrom(s, 0), SymbolsFrom(s, symbolChar, 0))
  }

  // ---------------------------------------------------------------------
  // Properties of the scan
  // ---------------------------------------------------------------------

  /** `p` is the part recorded for the digit run that starts at its start column. */
  predicate IsRunPart(s: string, p: Part) {
    0 <= p.start < |s| && IsDigit(s[p.start]) &&
    var e := RunEnd(s, p.start);
    DigitsSlice(s, p.start, e);
    p == MakePart(s, p.start, e)
  }

  /** Column `j` lies in the digit run of `p`. */
  predicate InRun(s: string, p: Part, j: int) {
    0 <= p.start <= j < |s| && j < RunEnd(s, p.start)
  }

  /** Every part is the part recorded for a digit run, starting at or after `i`. */
  lemma {:induction false} PartsAreRuns(s: string, i: nat)
    requires i <= |s|
    ensures forall k :: 0 <= k < |PartsFrom(s, i)| ==>
      IsRunPart(s, PartsFrom(s, i)[k]) && i <= PartsFrom(s, i)[k].start
    decreases |s| - i
  {
    if i < |s| {
      if !IsDigit(s[i]) {
        PartsAreRuns(s, i + 1);
      } else {
        var e := RunEnd(s, i);
        PartsAreRuns(s, e);
        var r := PartsFrom(s, i);
        var rest := PartsFrom(s, e);
        DigitsSlice(s, i, e);
        assert r == [MakePart(s, i, e)] + rest;
        forall k | 0 <= k < |r|
          ensures IsRunPart(s, r[k]) && i <= r[k].start
        {
          if k > 0 {
            assert r[k] == rest[k - 1];
          }
        }
      }
    }
  }

  /** Each part after column `i` starts a run that is maximal on the left. */
  lemma {:induction false} PartsAreMaximal(s: string, i: nat)
    requires i <= |s|
    ensures forall k :: 0 <= k < |PartsFrom(s, i)| && PartsFrom(s, i)[k].start > i ==>
      PartsFrom(s, i)[k].start <= |s| && !IsDigit(s[PartsFrom(s, i)[k].start - 1])
    decreases |s| - i
  {
    if i < |s| {
      if !IsDigit(s[i]) {
        PartsAreMaximal(s, i + 1);
        PartsAreRuns(s, i + 1);
      } else {
        var e := RunEnd(s, i);
        PartsAreMaximal(s, e);
        PartsAreRuns(s, e);
        var r := PartsFrom(s, i);
        var rest := PartsFrom(s, e);
        DigitsSlice(s, i, e);
        assert r == [MakePart(s, i, e)] + rest;
        forall k | 0 <= k < |r| && r[k].start > i
          ensures r[k].start <= |s| && !IsDigit(s[r[k].start - 1])
        {
          assert k > 0;
          assert r[k] == rest[k - 1];
          // a part starts on a digit, and the run from i stopped at a non-digit
          assert IsDigit(s[r[k].start]);
          assert r[k].start != e;
        }
      }
    }
  }

  /** Parts are in strictly increasing column order and never overlap. */
  lemma {:induction false} PartsOrdered(s: string, i: nat)
    requires i <= |s|
    ensures forall k, l :: 0 <= k < l < |PartsFrom(s, i)| ==>
      PartsFrom(s, i)[k].end < PartsFrom(s, i)[l].start
    decreases |s| - i
  {
    if i < |s| {
      if !IsDigit(s[i]) {
        PartsOrdered(s, i + 1);
      } else {
        var e := RunEnd(s, i);
        PartsOrdered(s, e);
        PartsAreRuns(s, e);
        if e < |s| {
          ConsOrdered(MakePart(s, i, e), PartsFrom(s, e), e);
        }
      }
    }
  }

  /** A part ending before column `e`, then ordered parts starting at `e` or later: still ordered. */
  lemma ConsOrdered(first: Part, rest: seq<Part>, e: int)
    requires first.end < e
    requires forall k :: 0 <= k < |rest| ==> e <= rest[k].start
    requires forall k, l :: 0 <= k < l < |rest| ==> rest[k].end < rest[l].start
    ensures forall k, l :: 0 <= k < l < |[first] + rest| ==> ([first] + rest)[k].end < ([first] + rest)[l].start
  {
    var r := [first] + rest;
    forall k, l | 0 <= k < l < |r|
      ensures r[k].end < r[l].start
    {
      assert r[l] == rest[l - 1];
      if k > 0 {
        assert r[k] == rest[k - 1];
      }
    }
  }

  /** Every digit at or after `i` belongs to the run of some part. */
  lemma {:induction false} PartsCoverDigits(s: string, i: nat, j: nat)
    requires i <= j < |s| && IsDigit(s[j])
    ensures exists k :: 0 <= k < |PartsFrom(s, i)| && InRun(s, PartsFrom(s, i)[k], j)
    decreases |s| - i
  {
    if !IsDigit(s[i]) {
      PartsCoverDigits(s, i + 1, j);
      var k :| 0 <= k < |PartsFrom(s, i + 1)| && InRun(s, PartsFrom(s, i + 1)[k], j);
      assert PartsFrom(s, i) == PartsFrom(s, i + 1);
    } else {
      var e := RunEnd(s, i);
      var r := PartsFrom(s, i);
      if j < e {
        assert InRun(s, r[0], j);
      } else {
        PartsCoverDigits(s, e, j);
        var k :| 0 <= k < |PartsFrom(s, e)| && InRun(s, PartsFrom(s, e)[k], j);
        assert r[k + 1] == PartsFrom(s, e)[k];
      }
    }
  }

  /**
   * The symbols from column `i` on are exactly the columns at or after `i`
   * holding a symbol, in strictly increasing order.
   */
  lemma SymbolsExact(s: string, symbolChar: Option<char>, i: nat)
    requires i <= |s|
    ensures forall k :: 0 <= k < |SymbolsFrom(s, symbolChar, i)| ==>
      i <= SymbolsFrom(s, symbolChar, i)[k] < |s| && IsSymbol(s[SymbolsFrom(s, symbolChar, i)[k]], symbolChar)
    ensures forall j :: i <= j < |s| && IsSymbol(s[j], symbolChar) ==> j in SymbolsFrom(s, symbolChar, i)
    ensures forall k, l :: 0 <= k < l < |SymbolsFrom(s, symbolChar, i)| ==>
      SymbolsFrom(s, symbolChar, i)[k] < SymbolsFrom(s, symbolChar, i)[l]
  {
    SymbolsAreSymbols(s, symbolChar, i);
    SymbolsComplete(s, symbolChar, i);
    SymbolsIncreasing(s, symbolChar, i);
  }

  lemma {:induction false} SymbolsAreSymbols(s: string, symbolChar: Option<char>, i: nat)
    requires i <= |s|
    ensures forall k :: 0 <= k < |SymbolsFrom(s, symbolChar, i)| ==>
      i <= SymbolsFrom(s, symbolChar, i)[k] < |s| && IsSymbol(s[SymbolsFrom(s, symbolChar, i)[k]], symbolChar)
    decreases |s| - i
  {
    if i < |s| {
      SymbolsAreSymbols(s, symbolChar, i + 1);
      var rest := SymbolsFrom(s, symbolChar, i + 1);
      var head := if IsSymbol(s[i], symbolChar) then [i] else [];
      var r := SymbolsFrom(s, symbolChar, i);
      assert r == head + rest;
      forall k | 0 <= k < |r|
        ensures i <= r[k] < |s| && IsSymbol(s[r[k]], symbolChar)
      {
        if k >= |head| {
          assert r[k] == rest[k - |head|];
        } else {
          assert r[k] == head[k];
        }
      }
    }
  }

  lemma {:induction false} SymbolsComplete(s: string, symbolChar: Option<char>, i: nat)
    requires i <= |s|
    ensures forall j :: i <= j < |s| && IsSymbol(s[j], symbolChar) ==> j in SymbolsFrom(s, symbolChar, i)
    decreases |s| - i
  {
    if i < |s| {
      SymbolsComplete(s, symbolChar, i + 1);
      var rest := SymbolsFrom(s, symbolChar, i + 1);
      var head := if IsSymbol(s[i], symbolChar) then [i] else [];
      assert SymbolsFrom(s, symbolChar, i) == head + rest;
    }
  }

  lemma {:induction false} SymbolsIncreasing(s: string, symbolChar: Option<char>, i: nat)
    requires i <= |s|
    ensures forall k, l :: 0 <= k < l < |SymbolsFrom(s, symbolChar, i)| ==>
      SymbolsFrom(s, symbolChar, i)[k] < SymbolsFrom(s, symbolChar, i)[l]
    decreases |s| - i
  {
    if i < |s| {
      SymbolsIncreasing(s, symbolChar, i + 1);
      SymbolsAreSymbols(s, symbolChar, i + 1);
      var rest := SymbolsFrom(s, symbolChar, i + 1);
      var head := if IsSymbol(s[i], symbolChar) then [i] else [];
      var r := SymbolsFrom(s, symbolChar, i);
      assert r == head + rest;
      forall k, l | 0 <= k < l < |r|
        ensures r[k] < r[l]
      {
        assert r[l] == rest[l - |head|];
        if k >= |head| {
          assert r[k] == rest[k - |head|];
        }
      }
    }
  }

  /**
   * The symbols of a scanned row are exactly the columns holding a symbol,
   * in strictly increasing order; a digit is never one.
   */
  lemma ScanSymbols(s: string, symbolChar: Option<char>)
    ensures forall j :: j in Scan(s, symbolChar).symbols <==> 0 <= j < |s| && IsSymbol(s[j], symbolChar)
    ensures forall j :: 0 <= j < |s| && IsDigit(s[j]) ==> j !in Scan(s, symbolChar).symbols
    ensures forall k, l :: 0 <= k < l < |Scan(s, symbolChar).symbols| ==>
      Scan(s, symbolChar).symbols[k] < Scan(s, symbolChar).symbols[l]
  {
    SymbolsExact(s, symbolChar, 0);
    var r := Scan(s, symbolChar).symbols;
    forall j | j in r
      ensures 0 <= j < |s| && IsSymbol(s[j], symbolChar)
    {
      var k :| 0 <= k < |r| && r[k] == j;
    }
  }

  // ---------------------------------------------------------------------
  // The scan as the source performs it
  // ---------------------------------------------------------------------

  /** Stepping over a non-digit leaves the parts still to come unchanged. */
  lemma PartsFromSkip(s: string, i: nat)
    requires i < |s| && !IsDigit(s[i])
    ensures PartsFrom(s, i) == PartsFrom(s, i + 1)
  {
  }

  /** The parts from the start of a run: the run's part, then the parts after it. */
  lemma PartsFromRun(s: string, start: nat, e: nat)
    requires start < e <= |s|
    requires forall k :: start <= k < e ==> IsDigit(s[k])
    requires e == |s| || !IsDigit(s[e])
    ensures AllDigits(s[start..e])
    ensures PartsFrom(s, start) == [MakePart(s, start, e)] + PartsFrom(s, e)
  {
    RunEndAt(s, start, e);
    DigitsSlice(s, start, e);
  }

  /**
   * Where the scan stands before column `index`: the symbols found so far
   * and the parts pushed so far, followed by what is still to come, make
   * up the whole row's; `startPart` is the start of the digit run in
   * progress, if any (after the last column, that run has been pushed).
   */
  predicate ScanInv(chars: string, symbolChar: Option<char>, index: nat,
                    parts: seq<Part>, symbols: seq<int>, startPart: Option<nat>) {
    index <= |chars| &&
    symbols + SymbolsFrom(chars, symbolChar, index) == SymbolsFrom(chars, symbolChar, 0) &&
    (startPart.None? ==> parts + PartsFrom(chars, index) == PartsFrom(chars, 0)) &&
    (startPart.Some? && index < |chars| ==>
       startPart.value < index &&
       (forall k :: startPart.value <= k < index ==> IsDigit(chars[k])) &&
       parts + PartsFrom(chars, startPart.value) == PartsFrom(chars, 0)) &&
    (startPart.Some? && index == |chars| ==> parts == PartsFrom(chars, 0))
  }

  /** The symbol list still to come, one column on. */
  lemma SymbolsStep(chars: string, symbolChar: Option<char>, index: nat, symbols: seq<int>)
    requires index < |chars|
    ensures IsSymbol(chars[index], symbolChar) ==>
      (symbols + [index]) + SymbolsFrom(chars, symbolChar, index + 1) ==
      symbols + SymbolsFrom(chars, symbolChar, index)
    ensures !IsSymbol(chars[index], symbolChar) ==>
      symbols + SymbolsFrom(chars, symbolChar, index + 1) == symbols + SymbolsFrom(chars, symbolChar, index)
  {
    var rest := SymbolsFrom(chars, symbolChar, index + 1);
    if IsSymbol(chars[index], symbolChar) {
      assert SymbolsFrom(chars, symbolChar, index) == [index] + rest;
      assert (symbols + [index]) + rest == symbols + ([index] + rest);
    } else {
      assert SymbolsFrom(chars, symbolChar, index) == [] + rest;
      assert [] + rest == rest;
    }
  }

  /** A digit run closed by the non-digit at `index`: its part goes on the list. */
  lemma CloseRun(chars: string, index: nat, parts: seq<Part>, start: nat)
    requires start < index < |chars| && !IsDigit(chars[index])
    requires forall k :: start <= k < index ==> IsDigit(chars[k])
    ensures AllDigits(chars[start..index])
    ensures (parts + [Part(start, index - 1, Decimal(chars[start..index]))]) + PartsFrom(chars, index + 1) ==
            parts + PartsFrom(chars, start)
  {
    PartsFromRun(chars, start, index);
    PartsFromSkip(chars, index);
  }

  /** A digit run still open at the last column: its part, with end column `|chars|`, completes the list. */
  lemma CloseLastRun(chars: string, parts: seq<Part>, start: nat)
    requires start < |chars|
    requires forall k :: start <= k < |chars| ==> IsDigit(chars[k])
    ensures AllDigits(chars[start..])
    ensures parts + [Part(start, |chars|, Decimal(chars[start..]))] == parts + PartsFrom(chars, start)
  {
    PartsFromRun(chars, start, |chars|);
    assert chars[start..] == chars[start..|chars|];
  }

  /**
   * The body of the fold in `Line::from_str`, for the character at
   * `index`: a digit opens (or continues) a run; a non-digit closes the
   * open run and may be a symbol; at the last column an open run is pushed
   * with end column `|chars|`.
   */
  method ScanStep(chars: string, symbolChar: Option<char>, index: nat,
                  parts: seq<Part>, symbols: seq<int>, startPart: Option<nat>)
    returns (parts': seq<Part>, symbols': seq<int>, startPart': Option<nat>)
    requires index < |chars| && ScanInv(chars, symbolChar, index, parts, symbols, startPart)
    ensures ScanInv(chars, symbolChar, index + 1, parts', symbols', startPart')
  {
    parts', symbols', startPart' := parts, symbols, startPart;
    var c := chars[index];
    SymbolsStep(chars, symbolChar, index, symbols);
    if '0' <= c <= '9' {
      if startPart'.None? {
        startPart' := Some(index);
      }
    } else {
      if startPart'.Some? {
        var start := startPart'.value;
        CloseRun(chars, index, parts', start);
        parts' := parts' + [Part(start, index - 1, Decimal(chars[start..index]))];
      } else {
        PartsFromSkip(chars, index);
      }
      startPart' := None;
      var isSymbol := if symbolChar.Some? then c == symbolChar.value else c != '.';
      if isSymbol {
        symbols' := symbols' + [index];
      }
    }
    if index == |chars| - 1 {
      if startPart'.Some? {
        var start := startPart'.value;
        CloseLastRun(chars, parts', start);
        parts' := parts' + [Part(start, |chars|, Decimal(chars[start..]))];
      }
    }
  }

  /**
   * `Line::from_str`: one pass over the row's characters, tracking where
   * the current digit run started, pushing a part when a run ends and a
   * column when a symbol is seen; a run still open at the last character
   * is pushed with end column `|chars|`. The result is the row's scan.
   */
  method FromStr(chars: string, symbolChar: Option<char>) returns (line: Line)
    ensures line == Scan(chars, symbolChar)
  {
    var parts: seq<Part> := [];
    var symbols: seq<int> := [];
    var startPart: Option<nat> := None;
    var index := 0;
    assert [] + PartsFrom(chars, 0) == PartsFrom(chars, 0);
    assert [] + SymbolsFrom(chars, symbolChar, 0) == SymbolsFrom(chars, symbolChar, 0);
    while index < |chars|
      invariant ScanInv(chars, symbolChar, index, parts, symbols, startPart)
    {
      parts, symbols, startPart := ScanStep(chars, symbolChar, index, parts, symbols, startPart);
      index := index + 1;
    }
    assert parts + [] == parts;
    assert symbols + [] == symbols;
    line := Line(parts, symbols);
  }

  // ---------------------------------------------------------------------
  // Part 1: part numbers next to a symbol
  // ---------------------------------------------------------------------

  /** `part_matches`: column `col` is within one column of the part's span. */
  predicate Adjacent(p: Part, col: int) {
    p.start - 1 <= col <= p.end + 1
  }

  /** The `find(..).is_some()` inside `find_parts`: some symbol column touches the part. */
  function Touched(p: Part, symbols: seq<int>): (b: bool)
    ensures b <==> exists k :: 0 <= k < |symbols| && Adjacent(p, symbols[k])
  {
    if symbols == [] then false
    else Adjacent(p, symbols[0]) || Touched(p, symbols[1..])
  }

  /** The values of all parts, summed. */
  function TotalValue(parts: seq<Part>): nat {
    if parts == [] then 0 else parts[0].value + TotalValue(parts[1..])
  }

  /** `find_parts`: the sum of the values of the parts that some symbol touches, each once. */
  function FindParts(parts: seq<Part>, symbols: seq<int>): (r: nat)
    ensures r <= TotalValue(parts)
  {
    if parts == [] then 0
    else (if Touched(parts[0], symbols) then parts[0].value else 0) + FindParts(parts[1..], symbols)
  }

  /** `find_parts` works part by part: the sum over a concatenation is the sum of the two sums. */
  lemma {:induction false} FindPartsAppend(a: seq<Part>, b: seq<Part>, symbols: seq<int>)
    ensures FindParts(a + b, symbols) == FindParts(a, symbols) + FindParts(b, symbols)
  {
    if a == [] {
      assert a + b == b;
    } else {
      FindPartsAppend(a[1..], b, symbols);
      assert (a + b)[1..] == a[1..] + b;
    }
  }

  /** A single part adds its value exactly when a symbol touches it, and nothing otherwise. */
  lemma FindPartsOne(p: Part, symbols: seq<int>)
    ensures FindParts([p], symbols) == if Touched(p, symbols) then p.value else 0
  {
    assert [p][1..] == [];
  }

  /** Every part counts when all are touched, none when none is, and none without symbols. */
  lemma {:induction false} FindPartsExtremes(parts: seq<Part>, symbols: seq<int>)
    ensures symbols == [] ==> FindParts(parts, symbols) == 0
    ensures (forall k :: 0 <= k < |parts| ==> Touched(parts[k], symbols)) ==> FindParts(parts, symbols) == TotalValue(parts)
    ensures (forall k :: 0 <= k < |parts| ==> !Touched(parts[k], symbols)) ==> FindParts(parts, symbols) == 0
  {
    if parts != [] {
      FindPartsExtremes(parts[1..], symbols);
      assert forall k :: 1 <= k < |parts| ==> parts[k] == parts[1..][k - 1];
    }
  }

  /** A part is touched by a concatenation of symbol lists exactly when one of them touches it. */
  lemma TouchedAppend(p: Part, a: seq<int>, b: seq<int>)
    ensures Touched(p, a + b) <==> Touched(p, a) || Touched(p, b)
  {
    if Touched(p, a + b) {
      var k :| 0 <= k < |a + b| && Adjacent(p, (a + b)[k]);
      if k >= |a| {
        assert (a + b)[k] == b[k - |a|];
      }
    }
    if Touched(p, a) {
      var k :| 0 <= k < |a| && Adjacent(p, a[k]);
      assert (a + b)[k] == a[k];
    }
    if Touched(p, b) {
      var k :| 0 <= k < |b| && Adjacent(p, b[k]);
      assert (a + b)[|a| + k] == b[k];
    }
  }

  /** Only which parts are touched matters, not which symbols touch them. */
  lemma {:induction false} FindPartsSameTouch(parts: seq<Part>, a: seq<int>, b: seq<int>)
    requires forall k :: 0 <= k < |parts| ==> (Touched(parts[k], a) <==> Touched(parts[k], b))
    ensures FindParts(parts, a) == FindParts(parts, b)
  {
    if parts != [] {
      FindPartsSameTouch(parts[1..], a, b);
    }
  }

  /** Touching more parts never lowers the sum. */
  lemma {:induction false} FindPartsMonotone(parts: seq<Part>, a: seq<int>, b: seq<int>)
    requires forall k :: 0 <= k < |parts| ==> (Touched(parts[k], a) ==> Touched(parts[k], b))
    ensures FindParts(parts, a) <= FindParts(parts, b)
  {
    if parts != [] {
      FindPartsMonotone(parts[1..], a, b);
    }
  }

  /** The symbols of a neighbouring row, none when there is no such row. */
  function RowSymbols(row: Option<Line>): seq<int> {
    if row.Some? then row.value.symbols else []
  }

  /** `sum_line_p1`: the current row's parts touched by a symbol in the previous, current or next row. */
  function SumLineP1(prev: Option<Line>, curr: Line, next: Option<Line>): (r: nat)
    ensures r <= TotalValue(curr.parts)
  {
    FindParts(curr.parts, RowSymbols(prev) + curr.symbols + RowSymbols(next))
  }

  /**
   * Previous and next rows play the same part, and a missing neighbour
   * adds no symbols: a lone row counts the parts its own symbols touch.
   */
  lemma SumLineP1Neighbours(prev: Option<Line>, curr: Line, next: Option<Line>)
    ensures SumLineP1(prev, curr, next) == SumLineP1(next, curr, prev)
    ensures SumLineP1(None, curr, None) == FindParts(curr.parts, curr.symbols)
    ensures SumLineP1(prev, curr, next) >= FindParts(curr.parts, curr.symbols)
  {
    var p, c, n := RowSymbols(prev), curr.symbols, RowSymbols(next);
    TouchedRowsAll(curr.parts, p, c, n);
    FindPartsSameTouch(curr.parts, p + c + n, n + c + p);
    FindPartsMonotone(curr.parts, c, p + c + n);
    assert [] + c + [] == c;
  }

  /** Some symbol in the previous, current or next row is within one column of the part. */
  predicate TouchedNear(p: Part, prev: Option<Line>, curr: Line, next: Option<Line>) {
    Touched(p, RowSymbols(prev)) || Touched(p, curr.symbols) || Touched(p, RowSymbols(next))
  }

  /** A row's part-1 score is the sum of its parts' scores, taken part by part. */
  lemma SumLineP1Split(prev: Option<Line>, a: seq<Part>, b: seq<Part>, symbols: seq<int>, next: Option<Line>)
    ensures SumLineP1(prev, Line(a + b, symbols), next) ==
      SumLineP1(prev, Line(a, symbols), next) + SumLineP1(prev, Line(b, symbols), next)
  {
    FindPartsAppend(a, b, RowSymbols(prev) + symbols + RowSymbols(next));
  }

  /** A row with one part scores its value exactly when a symbol of one of the three rows touches it. */
  lemma SumLineP1OnePart(prev: Option<Line>, p: Part, symbols: seq<int>, next: Option<Line>)
    ensures SumLineP1(prev, Line([p], symbols), next) ==
      if TouchedNear(p, prev, Line([p], symbols), next) then p.value else 0
  {
    FindPartsOne(p, RowSymbols(prev) + symbols + RowSymbols(next));
    TouchedAppend(p, RowSymbols(prev) + symbols, RowSymbols(next));
    TouchedAppend(p, RowSymbols(prev), symbols);
  }

  lemma TouchedRowsAll(parts: seq<Part>, p: seq<int>, c: seq<int>, n: seq<int>)
    ensures forall k :: 0 <= k < |parts| ==> (Touched(parts[k], p + c + n) <==> Touched(parts[k], n + c + p))
    ensures forall k :: 0 <= k < |parts| ==> (Touched(parts[k], c) ==> Touched(parts[k], p + c + n))
  {
    forall k | 0 <= k < |parts|
      ensures Touched(parts[k], p + c + n) <==> Touched(parts[k], n + c + p)
      ensures Touched(parts[k], c) ==> Touched(parts[k], p + c + n)
    {
      TouchedRows(parts[k], p, c, n);
    }
  }

  /** Touching by three rows' symbols does not depend on the outer rows' order, and includes the middle row's. */
  lemma TouchedRows(part: Part, p: seq<int>, c: seq<int>, n: seq<int>)
    ensures Touched(part, p + c + n) <==> Touched(part, n + c + p)
    ensures Touched(part, c) ==> Touched(part, p + c + n)
  {
    TouchedAppend(part, p + c, n);
    TouchedAppend(part, p, c);
    TouchedAppend(part, n + c, p);
    TouchedAppend(part, n, c);
  }

  // ---------------------------------------------------------------------
  // Part 2: gears
  // ---------------------------------------------------------------------

  /** The values of the parts next to column `col`, in order. */
  function Matching(parts: seq<Part>, col: int): (r: seq<nat>)
    ensures |r| <= |parts|
    ensures (forall k :: 0 <= k < |parts| ==> !Adjacent(parts[k], col)) <==> r == []
  {
    if parts == [] then []
    else (if Adjacent(parts[0], col) then [parts[0].value] else []) + Matching(parts[1..], col)
  }

  /** The filter works part by part: matches in a concatenation are the two lists of matches, in order. */
  lemma {:induction false} MatchingAppend(a: seq<Part>, b: seq<Part>, col: int)
    ensures Matching(a + b, col) == Matching(a, col) + Matching(b, col)
  {
    if a == [] {
      assert a + b == b;
    } else {
      var head := if Adjacent(a[0], col) then [a[0].value] else [];
      assert (a + b)[0] == a[0] && (a + b)[1..] == a[1..] + b;
      assert Matching(a + b, col) == head + Matching(a[1..] + b, col);
      MatchingAppend(a[1..], b, col);
      assert head + (Matching(a[1..], col) + Matching(b, col)) == (head + Matching(a[1..], col)) + Matching(b, col);
    }
  }

  /** A single part gives its value exactly when it is within one column of `col`, and nothing otherwise. */
  lemma MatchingOne(p: Part, col: int)
    ensures Matching([p], col) == if Adjacent(p, col) then [p.value] else []
  {
    assert [p][1..] == [];
  }

  /** The product fold `fold(1, |a, b| a * b)`. */
  function Product(vals: seq<nat>): nat {
    if vals == [] then 1 else vals[0] * Product(vals[1..])
  }

  lemma {:induction false} ProductAppend(a: seq<nat>, b: seq<nat>)
    ensures Product(a + b) == Product(a) * Product(b)
  {
    if a == [] {
      assert a + b == b;
    } else {
      ProductAppend(a[1..], b);
      assert (a + b)[1..] == a[1..] + b;
    }
  }

  /** The parts of a neighbouring row, none when there is no such row. */
  function RowParts(row: Option<Line>): seq<Part> {
    if row.Some? then row.value.parts else []
  }

  /** The part values next to symbol column `col`: previous row, next row, current row. */
  function GearValues(prev: Option<Line>, curr: Line, next: Option<Line>, col: int): seq<nat> {
    Matching(RowParts(prev), col) + Matching(RowParts(next), col) + Matching(curr.parts, col)
  }

  /** A symbol's contribution: the product of its adjacent part values when there are at least two. */
  function GearRatio(vals: seq<nat>): (r: nat)
    ensures |vals| < 2 ==> r == 0
    ensures |vals| == 2 ==> r == vals[0] * vals[1]
    ensures |vals| >= 2 ==> r == Product(vals)
  {
    if |vals| >= 2 then
      assert |vals| == 2 ==> vals[1..][1..] == [] && Product(vals[1..]) == vals[1];
      Product(vals)
    else 0
  }

  /** `sum_line_p2`, over the symbol columns `symbols` of the current row. */
  function SumGears(prev: Option<Line>, curr: Line, next: Option<Line>, symbols: seq<int>): nat {
    if symbols == [] then 0
    else GearRatio(GearValues(prev, curr, next, symbols[0])) + SumGears(prev, curr, next, symbols[1..])
  }

  /** `sum_line_p2`: the gear ratios of all symbols of the current row. */
  function SumLineP2(prev: Option<Line>, curr: Line, next: Option<Line>): (r: nat)
    ensures curr.symbols == [] ==> r == 0
  {
    SumGears(prev, curr, next, curr.symbols)
  }

  /** The symbols are scored one by one: the score over a concatenation is the sum of the two scores. */
  lemma {:induction false} SumGearsAppend(prev: Option<Line>, curr: Line, next: Option<Line>, a: seq<int>, b: seq<int>)
    ensures SumGears(prev, curr, next, a + b) == SumGears(prev, curr, next, a) + SumGears(prev, curr, next, b)
  {
    if a == [] {
      assert a + b == b;
    } else {
      assert (a + b)[0] == a[0] && (a + b)[1..] == a[1..] + b;
      assert SumGears(prev, curr, next, a + b) ==
        GearRatio(GearValues(prev, curr, next, a[0])) + SumGears(prev, curr, next, a[1..] + b);
      SumGearsAppend(prev, curr, next, a[1..], b);
    }
  }

  /**
   * A row's part-2 score is the sum, over its symbols, of each symbol's score:
   * the symbols of the row split anywhere score the sum of the two halves, and
   * one symbol scores the product of the values adjacent to it in the previous,
   * next and current rows when there are at least two of them, and 0 otherwise.
   */
  lemma SumLineP2PerSymbol(prev: Option<Line>, parts: seq<Part>, a: seq<int>, b: seq<int>, col: int, next: Option<Line>)
    ensures SumLineP2(prev, Line(parts, a + b), next) ==
      SumLineP2(prev, Line(parts, a), next) + SumLineP2(prev, Line(parts, b), next)
    ensures var vals := Matching(RowParts(prev), col) + Matching(RowParts(next), col) + Matching(parts, col);
      SumLineP2(prev, Line(parts, [col]), next) == if |vals| >= 2 then Product(vals) else 0
  {
    var l := Line(parts, a + b);
    SumGearsAppend(prev, l, next, a, b);
    assert SumGears(prev, l, next, a) == SumGears(prev, Line(parts, a), next, a) by {
      SumGearsSameParts(prev, l, Line(parts, a), next, a);
    }
    assert SumGears(prev, l, next, b) == SumGears(prev, Line(parts, b), next, b) by {
      SumGearsSameParts(prev, l, Line(parts, b), next, b);
    }
    var one := Line(parts, [col]);
    assert [col][1..] == [];
    assert SumGears(prev, one, next, [col]) == GearRatio(GearValues(prev, one, next, col));
  }

  /** Only the current row's parts, not its symbol list, enter a symbol's score. */
  lemma {:induction false} SumGearsSameParts(prev: Option<Line>, c1: Line, c2: Line, next: Option<Line>, symbols: seq<int>)
    requires c1.parts == c2.parts
    ensures SumGears(prev, c1, next, symbols) == SumGears(prev, c2, next, symbols)
  {
    if symbols != [] {
      SumGearsSameParts(prev, c1, c2, next, symbols[1..]);
    }
  }

  /** Swapping the previous and next rows changes no gear ratio, so no sum. */
  lemma {:induction false} SumGearsSymmetric(prev: Option<Line>, curr: Line, next: Option<Line>, symbols: seq<int>)
    ensures SumGears(prev, curr, next, symbols) == SumGears(next, curr, prev, symbols)
  {
    if symbols != [] {
      SumGearsSymmetric(prev, curr, next, symbols[1..]);
      var col := symbols[0];
      var p, n, c := Matching(RowParts(prev), col), Matching(RowParts(next), col), Matching(curr.parts, col);
      ProductAppend(p + n, c);
      ProductAppend(n + p, c);
      ProductAppend(p, n);
      ProductAppend(n, p);
    }
  }

  /** `sum_line_p2` treats the two neighbouring rows alike. */
  lemma SumLineP2Symmetric(prev: Option<Line>, curr: Line, next: Option<Line>)
    ensures SumLineP2(prev, curr, next) == SumLineP2(next, curr, prev)
  {
    SumGearsSymmetric(prev, curr, next, curr.symbols);
  }

  /** A symbol touching fewer than two parts in the three rows adds nothing. */
  lemma LoneSymbolAddsNothing(prev: Option<Line>, curr: Line, next: Option<Line>, col: int)
    requires |Matching(RowParts(prev), col)| + |Matching(RowParts(next), col)| + |Matching(curr.parts, col)| < 2
    ensures SumGears(prev, curr, next, [col]) == 0
  {
  }

  // ---------------------------------------------------------------------
  // The three-row window
  // ---------------------------------------------------------------------

  /** How one row is scored, given its previous row (if any) and its next row (if any). */
  type RowScore = (Option<Line>, Line, Option<Line>) -> nat

  /**
   * The `try_fold` over the rows: the state is the running sum, the row
   * before the pending one, and the pending row, which is scored once its
   * successor `rows[i]` is known.
   */
  function FoldRows(rows: seq<Line>, score: RowScore, i: nat, sum: nat, prev: Option<Line>, curr: Option<Line>): (nat, Option<Line>, Option<Line>)
    requires i <= |rows|
    decreases |rows| - i
  {
    if i == |rows| then (sum, prev, curr)
    else
      var next := Some(rows[i]);
      var lineSum := if curr.Some? then score(prev, curr.value, next) else 0;
      FoldRows(rows, score, i + 1, sum + lineSum, curr, next)
  }

  /** `p1`/`p2` after the scan: the fold, then the last pending row scored with no successor. */
  function Window(rows: seq<Line>, score: RowScore): nat {
    var (out, prev, curr) := FoldRows(rows, score, 0, 0, None, None);
    out + if curr.Some? then score(prev, curr.value, None) else 0
  }

  /** Row `k` scored with its predecessor and successor, when they exist. */
  function Term(rows: seq<Line>, score: RowScore, k: nat): nat
    requires k < |rows|
  {
    score(if k > 0 then Some(rows[k - 1]) else None, rows[k], if k + 1 < |rows| then Some(rows[k + 1]) else None)
  }

  /** The sum of the terms of the first `n` rows. */
  function SumOfTerms(rows: seq<Line>, score: RowScore, n: nat): nat
    requires n <= |rows|
  {
    if n == 0 then 0 else SumOfTerms(rows, score, n - 1) + Term(rows, score, n - 1)
  }

  /** Where the fold stands before row `i`: rows before `i - 1` scored, the last two rows held. */
  lemma {:induction false} FoldRowsState(rows: seq<Line>, score: RowScore, i: nat)
    requires i <= |rows|
    ensures var before := if i >= 2 then Some(rows[i - 2]) else None;
            var pending := if i >= 1 then Some(rows[i - 1]) else None;
            FoldRows(rows, score, i, if i >= 1 then SumOfTerms(rows, score, i - 1) else 0, before, pending) ==
            FoldRows(rows, score, 0, 0, None, None)
    decreases i
  {
    if i > 0 {
      FoldRowsState(rows, score, i - 1);
    }
  }

  /**
   * The window visits every row exactly once, with its predecessor and
   * successor: the first row has none before it and the last none after.
   */
  lemma WindowIsSumOfTerms(rows: seq<Line>, score: RowScore)
    ensures Window(rows, score) == SumOfTerms(rows, score, |rows|)
  {
    FoldRowsState(rows, score, |rows|);
  }

  /** Part 1 of the puzzle over the rows' text: symbols are any non-digit but '.'. */
  function Part1(lines: seq<string>): nat {
    Window(seq(|lines|, k requires 0 <= k < |lines| => Scan(lines[k], None)), SumLineP1)
  }

  /** Part 2 of the puzzle over the rows' text: only '*' is a symbol. */
  function Part2(lines: seq<string>): nat {
    Window(seq(|lines|, k requires 0 <= k < |lines| => Scan(lines[k], Some('*'))), SumLineP2)
  }
}
