/*
 * Day 1 (calibration values). Each line's value is ten times the value of
 * the table entry that occurs first in the line plus the value of the entry
 * that occurs last; the answer is the sum over the lines. Part 1's table
 * holds the digits, part 2's the digit names as well.
 */
module Day1 {
  import opened Text
  import opened Seqs

  /** A name-to-value table: each entry is a text to look for and its value. */
  type Table = seq<(string, int)>

  const DigitTable: Table :=
    [("1", 1), ("2", 2), ("3", 3), ("4", 4), ("5", 5), ("6", 6), ("7", 7), ("8", 8), ("9", 9)]

  const WordTable: Table :=
    [("one", 1), ("two", 2), ("three", 3), ("four", 4), ("five", 5), ("six", 6), ("seven", 7),
     ("eight", 8), ("nine", 9)] + DigitTable

  // ---------------------------------------------------------------------
  // The leftmost entry
  // ---------------------------------------------------------------------

  /** Each entry's value with the position of its first occurrence in the line, if any. */
  function Firsts(table: Table, line: string): (ps: seq<(int, Option<nat>)>)
    ensures |ps| == |table|
    ensures forall k :: 0 <= k < |ps| ==> ps[k] == (table[k].1, Find(line, table[k].0))
  {
    seq(|table|, k requires 0 <= k < |table| => (table[k].1, Find(line, table[k].0)))
  }

  /** One step of the fold in `first`: a found entry replaces the best so far unless that lies strictly before it. */
  function PickFirst(acc: Option<(int, nat)>, entry: (int, Option<nat>)): Option<(int, nat)> {
    match acc
    case Some(best) =>
      (match entry.1
       case Some(pos) => Some(if best.1 < pos then best else (entry.0, pos))
       case None => Some(best))
    case None =>
      (match entry.1
       case Some(pos) => Some((entry.0, pos))
       case None => None)
  }

  /** The fold from `None` over the entries in order. */
  function FoldFirst(ps: seq<(int, Option<nat>)>): Option<(int, nat)>
    decreases |ps|
  {
    if ps == [] then None else PickFirst(FoldFirst(ps[..|ps| - 1]), ps[|ps| - 1])
  }

  /**
   * Entry `k` wins the search for the leftmost occurrence: it occurs, no
   * entry occurs before it, and every later entry occurs strictly after it
   * (on a tie the later entry wins).
   */
  predicate FirstWinner(ps: seq<(int, Option<nat>)>, k: int) {
    0 <= k < |ps| && ps[k].1.Some? &&
    (forall j :: 0 <= j < |ps| && ps[j].1.Some? ==> ps[k].1.value <= ps[j].1.value) &&
    (forall j :: k < j < |ps| && ps[j].1.Some? ==> ps[k].1.value < ps[j].1.value)
  }

  /** The fold finds nothing exactly when no entry occurs, and otherwise picks the one winner. */
  lemma {:induction false} FoldFirstWinner(ps: seq<(int, Option<nat>)>)
    ensures FoldFirst(ps).None? <==> forall k :: 0 <= k < |ps| ==> ps[k].1.None?
    ensures FoldFirst(ps).Some? ==>
      exists k :: FirstWinner(ps, k) && FoldFirst(ps).value == (ps[k].0, ps[k].1.value)
    decreases |ps|
  {
    if ps != [] {
      var n := |ps| - 1;
      var init := ps[..n];
      FoldFirstWinner(init);
      assert forall j :: 0 <= j < n ==> init[j] == ps[j];
      var acc := FoldFirst(init);
      if acc.Some? {
        var k :| FirstWinner(init, k) && acc.value == (init[k].0, init[k].1.value);
        if ps[n].1.Some? && ps[n].1.value <= acc.value.1 {
          FirstWinnerTakes(ps, k);
        } else {
          FirstWinnerStays(ps, k);
        }
      } else if ps[n].1.Some? {
        assert FirstWinner(ps, n);
      }
    }
  }

  /** A last entry found at or before the winner of the others takes over. */
  lemma FirstWinnerTakes(ps: seq<(int, Option<nat>)>, k: int)
    requires |ps| > 0 && FirstWinner(ps[..|ps| - 1], k)
    requires ps[|ps| - 1].1.Some? && ps[|ps| - 1].1.value <= ps[k].1.value
    ensures FirstWinner(ps, |ps| - 1)
  {
    assert forall j :: 0 <= j < |ps| - 1 ==> ps[..|ps| - 1][j] == ps[j];
  }

  /** Otherwise the winner of the others stays the winner. */
  lemma FirstWinnerStays(ps: seq<(int, Option<nat>)>, k: int)
    requires |ps| > 0 && FirstWinner(ps[..|ps| - 1], k)
    requires ps[|ps| - 1].1.Some? ==> ps[k].1.value < ps[|ps| - 1].1.value
    ensures FirstWinner(ps, k)
  {
    assert forall j :: 0 <= j < |ps| - 1 ==> ps[..|ps| - 1][j] == ps[j];
  }

  /** There is at most one winner. */
  lemma FirstWinnerUnique(ps: seq<(int, Option<nat>)>, k1: int, k2: int)
    requires FirstWinner(ps, k1) && FirstWinner(ps, k2)
    ensures k1 == k2
  {
  }

  /** Whichever entry wins is what the fold returns. */
  lemma FoldFirstOfWinner(ps: seq<(int, Option<nat>)>, k: int)
    requires FirstWinner(ps, k)
    ensures FoldFirst(ps) == Some((ps[k].0, ps[k].1.value))
  {
    FoldFirstWinner(ps);
    var k' :| FirstWinner(ps, k') && FoldFirst(ps).value == (ps[k'].0, ps[k'].1.value);
    FirstWinnerUnique(ps, k, k');
  }

  /** `first`: the value of the entry that occurs leftmost in the line. */
  function First(table: Table, line: string): Result<int> {
    match FoldFirst(Firsts(table, line))
    case None => Err("No first")
    case Some(best) => Ok(best.0)
  }

  /**
   * `first` fails exactly when no entry occurs in the line; otherwise its
   * value is that of the entry whose first occurrence is leftmost, the
   * latest such entry on a tie.
   */
  lemma FirstIsLeftmost(table: Table, line: string)
    ensures First(table, line).Err? <==> forall k :: 0 <= k < |table| ==> Find(line, table[k].0).None?
    ensures First(table, line).Ok? ==>
      exists k :: FirstWinner(Firsts(table, line), k) && First(table, line).value == table[k].1
  {
    FoldFirstWinner(Firsts(table, line));
  }

  // ---------------------------------------------------------------------
  // The rightmost entry
  // ---------------------------------------------------------------------

  /** Each entry's value with the start of its last occurrence in the line, if any. */
  function Lasts(table: Table, line: string): (ps: seq<(int, Option<nat>)>)
    ensures |ps| == |table|
    ensures forall k :: 0 <= k < |ps| ==> ps[k] == (table[k].1, RFind(line, table[k].0))
  {
    seq(|table|, k requires 0 <= k < |table| => (table[k].1, RFind(line, table[k].0)))
  }

  /** One step of the fold in `last`: a found entry replaces the best so far unless that lies strictly after it. */
  function PickLast(acc: Option<(int, nat)>, entry: (int, Option<nat>)): Option<(int, nat)> {
    match acc
    case Some(best) =>
      (match entry.1
       case Some(pos) => Some(if best.1 > pos then best else (entry.0, pos))
       case None => Some(best))
    case None =>
      (match entry.1
       case Some(pos) => Some((entry.0, pos))
       case None => None)
  }

  function FoldLast(ps: seq<(int, Option<nat>)>): Option<(int, nat)>
    decreases |ps|
  {
    if ps == [] then None else PickLast(FoldLast(ps[..|ps| - 1]), ps[|ps| - 1])
  }

  /** Entry `k` wins the search for the rightmost occurrence (on a tie the later entry wins). */
  predicate LastWinner(ps: seq<(int, Option<nat>)>, k: int) {
    0 <= k < |ps| && ps[k].1.Some? &&
    (forall j :: 0 <= j < |ps| && ps[j].1.Some? ==> ps[j].1.value <= ps[k].1.value) &&
    (forall j :: k < j < |ps| && ps[j].1.Some? ==> ps[j].1.value < ps[k].1.value)
  }

  lemma {:induction false} FoldLastWinner(ps: seq<(int, Option<nat>)>)
    ensures FoldLast(ps).None? <==> forall k :: 0 <= k < |ps| ==> ps[k].1.None?
    ensures FoldLast(ps).Some? ==>
      exists k :: LastWinner(ps, k) && FoldLast(ps).value == (ps[k].0, ps[k].1.value)
    decreases |ps|
  {
    if ps != [] {
      var n := |ps| - 1;
      var init := ps[..n];
      FoldLastWinner(init);
      assert forall j :: 0 <= j < n ==> init[j] == ps[j];
      var acc := FoldLast(init);
      if acc.Some? {
        var k :| LastWinner(init, k) && acc.value == (init[k].0, init[k].1.value);
        if ps[n].1.Some? && ps[n].1.value >= acc.value.1 {
          LastWinnerTakes(ps, k);
        } else {
          LastWinnerStays(ps, k);
        }
      } else if ps[n].1.Some? {
        assert LastWinner(ps, n);
      }
    }
  }

  /** A last entry found at or after the winner of the others takes over. */
  lemma LastWinnerTakes(ps: seq<(int, Option<nat>)>, k: int)
    requires |ps| > 0 && LastWinner(ps[..|ps| - 1], k)
    requires ps[|ps| - 1].1.Some? && ps[|ps| - 1].1.value >= ps[k].1.value
    ensures LastWinner(ps, |ps| - 1)
  {
    assert forall j :: 0 <= j < |ps| - 1 ==> ps[..|ps| - 1][j] == ps[j];
  }

  /** Otherwise the winner of the others stays the winner. */
  lemma LastWinnerStays(ps: seq<(int, Option<nat>)>, k: int)
    requires |ps| > 0 && LastWinner(ps[..|ps| - 1], k)
    requires ps[|ps| - 1].1.Some? ==> ps[|ps| - 1].1.value < ps[k].1.value
    ensures LastWinner(ps, k)
  {
    assert forall j :: 0 <= j < |ps| - 1 ==> ps[..|ps| - 1][j] == ps[j];
  }

  /** There is at most one winner. */
  lemma LastWinnerUnique(ps: seq<(int, Option<nat>)>, k1: int, k2: int)
    requires LastWinner(ps, k1) && LastWinner(ps, k2)
    ensures k1 == k2
  {
  }

  /** Whichever entry wins is what the fold returns. */
  lemma FoldLastOfWinner(ps: seq<(int, Option<nat>)>, k: int)
    requires LastWinner(ps, k)
    ensures FoldLast(ps) == Some((ps[k].0, ps[k].1.value))
  {
    FoldLastWinner(ps);
    var k' :| LastWinner(ps, k') && FoldLast(ps).value == (ps[k'].0, ps[k'].1.value);
    LastWinnerUnique(ps, k, k');
  }

  /** `last`: the value of the entry that occurs rightmost in the line. */
  function Last(table: Table, line: string): Result<int> {
    match FoldLast(Lasts(table, line))
    case None => Err("No first")
    case Some(best) => Ok(best.0)
  }

  /**
   * `last` fails exactly when no entry occurs in the line; otherwise its
   * value is that of the entry whose last occurrence starts rightmost, the
   * latest such entry on a tie.
   */
  lemma LastIsRightmost(table: Table, line: string)
    ensures Last(table, line).Err? <==> forall k :: 0 <= k < |table| ==> Find(line, table[k].0).None?
    ensures Last(table, line).Ok? ==>
      exists k :: LastWinner(Lasts(table, line), k) && Last(table, line).value == table[k].1
  {
    FoldLastWinner(Lasts(table, line));
    forall k | 0 <= k < |table|
      ensures RFind(line, table[k].0).None? <==> Find(line, table[k].0).None?
    {
    }
  }

  // ---------------------------------------------------------------------
  // The digit table
  // ---------------------------------------------------------------------

  predicate IsNonZeroDigit(c: char) {
    '1' <= c <= '9'
  }

  /** Entry `k` of the digit table is the digit `k + 1` and its value. */
  lemma DigitEntries()
    ensures |DigitTable| == 9
    ensures forall k :: 0 <= k < 9 ==> DigitTable[k] == ([DigitChar(k + 1)], k + 1)
  {
  }

  /** A digit of the line is found by its own entry, at or before it by `find` and at or after it by `rfind`. */
  lemma DigitFound(line: string, j: nat)
    requires j < |line| && IsNonZeroDigit(line[j])
    ensures var k := DigitValue(line[j]) - 1;
      0 <= k < 9 && DigitTable[k] == ([line[j]], k + 1) &&
      Find(line, DigitTable[k].0).Some? && Find(line, DigitTable[k].0).value <= j &&
      RFind(line, DigitTable[k].0).Some? && RFind(line, DigitTable[k].0).value >= j
  {
    DigitEntries();
    var k := DigitValue(line[j]) - 1;
    assert DigitChar(k + 1) == line[j];
    assert OccursAt(line, [line[j]], j) by {
      assert line[j..j + 1] == [line[j]];
    }
  }

  /** Where a digit entry occurs, the line holds that digit. */
  lemma DigitAt(line: string, k: nat, p: nat)
    requires k < 9 && OccursAt(line, DigitTable[k].0, p)
    ensures p < |line| && IsNonZeroDigit(line[p]) && DigitValue(line[p]) == k + 1
  {
    DigitEntries();
    assert line[p] == line[p..p + 1][0];
  }

  /** `i` is the leftmost non-zero digit of the line. */
  predicate FirstDigitAt(line: string, i: int) {
    0 <= i < |line| && IsNonZeroDigit(line[i]) && forall j :: 0 <= j < i ==> !IsNonZeroDigit(line[j])
  }

  /** `i` is the rightmost non-zero digit of the line. */
  predicate LastDigitAt(line: string, i: int) {
    0 <= i < |line| && IsNonZeroDigit(line[i]) && forall j :: i < j < |line| ==> !IsNonZeroDigit(line[j])
  }

  /** With the digit table, `first` is the value of the line's leftmost digit (a '0' is no entry). */
  lemma DigitTableFirst(line: string)
    ensures First(DigitTable, line).Ok? <==> exists i :: 0 <= i < |line| && IsNonZeroDigit(line[i])
    ensures First(DigitTable, line).Ok? ==>
      exists i :: FirstDigitAt(line, i) && First(DigitTable, line).value == DigitValue(line[i])
  {
    DigitEntries();
    FirstIsLeftmost(DigitTable, line);
    if i :| 0 <= i < |line| && IsNonZeroDigit(line[i]) {
      DigitFound(line, i);
    }
    if First(DigitTable, line).Ok? {
      var fs := Firsts(DigitTable, line);
      var k :| FirstWinner(fs, k) && First(DigitTable, line).value == DigitTable[k].1;
      var p := fs[k].1.value;
      DigitAt(line, k, p);
      forall j | 0 <= j < |line| && IsNonZeroDigit(line[j])
        ensures p <= j
      {
        DigitFound(line, j);
      }
      assert FirstDigitAt(line, p);
    }
  }

  /** With the digit table, `last` is the value of the line's rightmost digit. */
  lemma DigitTableLast(line: string)
    ensures Last(DigitTable, line).Ok? <==> exists i :: 0 <= i < |line| && IsNonZeroDigit(line[i])
    ensures Last(DigitTable, line).Ok? ==>
      exists i :: LastDigitAt(line, i) && Last(DigitTable, line).value == DigitValue(line[i])
  {
    DigitEntries();
    LastIsRightmost(DigitTable, line);
    if i :| 0 <= i < |line| && IsNonZeroDigit(line[i]) {
      DigitFound(line, i);
    }
    if Last(DigitTable, line).Ok? {
      var ls := Lasts(DigitTable, line);
      var k :| LastWinner(ls, k) && Last(DigitTable, line).value == DigitTable[k].1;
      var p := ls[k].1.value;
      DigitAt(line, k, p);
      forall j | 0 <= j < |line| && IsNonZeroDigit(line[j])
        ensures j <= p
      {
        DigitFound(line, j);
      }
      assert LastDigitAt(line, p);
    }
  }

  /**
   * The searches are independent: with the word table, "oneight" starts
   * with "one" and ends with "eight", which share their 'e'.
   */
  lemma OverlappingWords()
    ensures First(WordTable, "oneight") == Ok(1)
    ensures Last(WordTable, "oneight") == Ok(8)
  {
    OneightFirst();
    OneightLast();
  }

  lemma OneightFirst()
    ensures First(WordTable, "oneight") == Ok(1)
  {
    var line := "oneight";
    var fs := Firsts(WordTable, line);
    assert FirstWinner(fs, 0) by {
      assert fs[0].1 == Some(0) by {
        assert OccursAt(line, "one", 0);
      }
      forall j | 1 <= j < |fs| && fs[j].1.Some?
        ensures fs[j].1.value > 0
      {
        var name, v := WordTable[j].0, fs[j].1.value;
        assert name[0] != 'o' by {
          NoOtherO(j);
        }
        assert line[v] == name[0] by {
          assert OccursAt(line, name, v);
          assert line[v..v + |name|][0] == name[0];
        }
      }
    }
    FoldFirstOfWinner(fs, 0);
  }

  lemma NoOtherO(j: nat)
    requires 1 <= j < |WordTable|
    ensures WordTable[j].0 != [] && WordTable[j].0[0] != 'o'
  {
    assert WordTable[j] in WordTable[1..];
  }

  lemma OneightLast()
    ensures Last(WordTable, "oneight") == Ok(8)
  {
    var line := "oneight";
    var ls := Lasts(WordTable, line);
    assert LastWinner(ls, 7) by {
      assert ls[7].1 == Some(2) by {
        assert OccursAt(line, "eight", 2);
      }
      forall j | 0 <= j < |ls| && ls[j].1.Some?
        ensures ls[j].1.value <= 2 && (j > 7 ==> ls[j].1.value < 2)
      {
        assert OccursAt(line, WordTable[j].0, ls[j].1.value);
        OneightOccurrence(j, ls[j].1.value);
      }
    }
    FoldLastOfWinner(ls, 7);
  }

  /** Where a table entry can occur in "oneight": no later than "eight", and the entries after it nowhere past 'n'. */
  lemma OneightOccurrence(j: nat, v: nat)
    requires j < |WordTable| && OccursAt("oneight", WordTable[j].0, v)
    ensures v <= 2 && (j > 7 ==> v < 2)
  {
    var line, name := "oneight", WordTable[j].0;
    assert line[v] == name[0] by {
      assert line[v..v + |name|][0] == name[0];
    }
    assert |name| >= 2 ==> line[v + 1] == name[1] by {
      if |name| >= 2 {
        assert line[v..v + |name|][1] == name[1];
      }
    }
    assert WordTable[j] in WordTable;
    if j > 7 {
      assert WordTable[j] in WordTable[8..];
    }
    assert v == 0 || v == 1 || v == 2 || v == 3 || v == 4 || v == 5 || v == 6;
  }

  // ---------------------------------------------------------------------
  // The sum over the lines
  // ---------------------------------------------------------------------

  /** A line's calibration value: ten times the first value plus the last. */
  function LineValue(table: Table, line: string): (r: Result<int>)
    ensures r.Err? ==> r.msg == "No first"
  {
    var first :- First(table, line);
    var last :- Last(table, line);
    Ok(first * 10 + last)
  }

  /** A line fails exactly when no entry occurs in it; with values from 1 to 9 a value is two digits. */
  lemma LineValueRange(table: Table, line: string)
    requires forall k :: 0 <= k < |table| ==> 1 <= table[k].1 <= 9
    ensures LineValue(table, line).Err? <==> forall k :: 0 <= k < |table| ==> Find(line, table[k].0).None?
    ensures LineValue(table, line).Ok? ==> 11 <= LineValue(table, line).value <= 99
  {
    FirstIsLeftmost(table, line);
    LastIsRightmost(table, line);
  }

  /** Every line's value (the lazy `map` over the lines). */
  function LineValues(table: Table, lines: seq<string>): seq<Result<int>> {
    seq(|lines|, k requires 0 <= k < |lines| => LineValue(table, lines[k]))
  }

  /** `day1_do`: the `try_fold` sum of the line values. */
  function Day1Do(table: Table, lines: seq<string>): Result<int> {
    AddUp(0, LineValues(table, lines))
  }

  /**
   * `day1_do` fails exactly when some line holds no entry of the table, and
   * then with "No first"; otherwise, with values from 1 to 9, it adds one
   * two-digit number per line.
   */
  lemma Day1DoSum(table: Table, lines: seq<string>)
    requires forall k :: 0 <= k < |table| ==> 1 <= table[k].1 <= 9
    ensures Day1Do(table, lines).Err? <==>
      exists i :: 0 <= i < |lines| && forall k :: 0 <= k < |table| ==> Find(lines[i], table[k].0).None?
    ensures Day1Do(table, lines).Err? ==> Day1Do(table, lines).msg == "No first"
    ensures Day1Do(table, lines).Ok? ==>
      Day1Do(table, lines).value == OkTotal(LineValues(table, lines)) &&
      11 * |lines| <= Day1Do(table, lines).value <= 99 * |lines|
  {
    var vs := LineValues(table, lines);
    AddUpIsTotal(0, vs);
    forall i | 0 <= i < |lines|
      ensures vs[i].Err? <==> forall k :: 0 <= k < |table| ==> Find(lines[i], table[k].0).None?
      ensures vs[i].Ok? ==> 11 <= vs[i].value <= 99
      ensures vs[i].Err? ==> vs[i].msg == "No first"
    {
      LineValueRange(table, lines[i]);
    }
    if Day1Do(table, lines).Ok? {
      OkTotalBounds(vs, 11, 99);
    }
  }

  function Part1(lines: seq<string>): Result<int> {
    Day1Do(DigitTable, lines)
  }

  function Part2(lines: seq<string>): Result<int> {
    Day1Do(WordTable, lines)
  }
}
