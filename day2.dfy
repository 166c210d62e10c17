/*
 * Day 2 (cube games). A game line is "Game n: r1; r2; ..." where each round
 * is a comma-separated list of "<count> <colour>" tokens. Part 1 adds up the
 * ids of the games in which no round shows more than 12 red, 13 green or
 * 14 blue cubes; part 2 adds up, over the games, the product of the
 * colour-wise maxima of the rounds.
 */
module Day2 {
  import opened Text
  import opened Seqs

  // ---------------------------------------------------------------------
  // Rounds
  // ---------------------------------------------------------------------

  /** The cubes of one round, per colour (`Round`, built by `Round::new`). */
  datatype Round = Round(red: int, green: int, blue: int)

  predicate IsColour(colour: string) {
    colour == "red" || colour == "green" || colour == "blue"
  }

  /** The number of cubes of a colour in a round; 0 for a word that is no colour. */
  function Count(r: Round, colour: string): int {
    if colour == "red" then r.red
    else if colour == "green" then r.green
    else if colour == "blue" then r.blue
    else 0
  }

  /**
   * `Round::add_round`: adds a parsed cube token to the named colour. A
   * failed token passes its error on; a word that is no colour panics.
   */
  function AddRound(r: Round, cube: Result<(string, int)>): (res: Result<Round>)
    ensures cube.Err? ==> res == Err(cube.msg)
    ensures res.Ok? <==> cube.Ok? && IsColour(cube.value.0)
    ensures res.Ok? ==> res.value.red == r.red + (if cube.value.0 == "red" then cube.value.1 else 0)
    ensures res.Ok? ==> res.value.green == r.green + (if cube.value.0 == "green" then cube.value.1 else 0)
    ensures res.Ok? ==> res.value.blue == r.blue + (if cube.value.0 == "blue" then cube.value.1 else 0)
  {
    var (colour, n) :- cube;
    if colour == "red" then Ok(r.(red := r.red + n))
    else if colour == "green" then Ok(r.(green := r.green + n))
    else if colour == "blue" then Ok(r.(blue := r.blue + n))
    else Err("not a good day")
  }

  /** One cube token: trimmed, the count before the first space and the colour after it. */
  function ParseCube(token: string): Result<(string, int)> {
    var t := Trim(token);
    match FindChar(t, ' ')
    case None => Err("no space")
    case Some(space) =>
      match ParseInt(t[..space])
      case None => Err("invalid digit found in string")
      case Some(n) => Ok((t[space + 1..], n))
  }

  /**
   * The three outcomes of a cube token, after trimming: no space is the
   * "no space" error; otherwise the text before the first space is the count,
   * an error when it is not a number, and the text after it is the colour.
   */
  lemma ParseCubeCases(token: string)
    ensures var t := Trim(token);
      FindChar(t, ' ').None? ==> ParseCube(token) == Err("no space")
    ensures var t := Trim(token);
      FindChar(t, ' ').Some? && ParseInt(t[..FindChar(t, ' ').value]).None? ==>
        ParseCube(token) == Err("invalid digit found in string")
    ensures var t := Trim(token);
      FindChar(t, ' ').Some? && ParseInt(t[..FindChar(t, ' ').value]).Some? ==>
        ParseCube(token) == Ok((t[FindChar(t, ' ').value + 1..], ParseInt(t[..FindChar(t, ' ').value]).value))
  {
  }

  /** The cube tokens of a round's text, each parsed (the lazy `map` over `split(",")`). */
  function ParseCubes(part: string): seq<Result<(string, int)>> {
    var toks := Split(part, ',');
    seq(|toks|, k requires 0 <= k < |toks| => ParseCube(toks[k]))
  }

  /** The `try_fold` of `add_round` over the parsed cube tokens, stopping at the first failure. */
  function FoldCubes(acc: Round, cs: seq<Result<(string, int)>>): Result<Round>
    decreases |cs|
  {
    if cs == [] then Ok(acc)
    else
      var next :- AddRound(acc, cs[0]);
      FoldCubes(next, cs[1..])
  }

  /** A round's text: its comma-separated cubes added up from no cubes. */
  function ParseRound(part: string): Result<Round> {
    FoldCubes(Round(0, 0, 0), ParseCubes(part))
  }

  /** The rounds of a game, one per `;`-separated part. */
  function ParseRounds(text: string): seq<Result<Round>> {
    var parts := Split(text, ';');
    seq(|parts|, k requires 0 <= k < |parts| => ParseRound(parts[k]))
  }

  /** How many cubes of a colour the parsed tokens name altogether. */
  function ColourTotal(cs: seq<Result<(string, int)>>, colour: string): int {
    if cs == [] then 0
    else (if cs[0].Ok? && cs[0].value.0 == colour then cs[0].value.1 else 0) + ColourTotal(cs[1..], colour)
  }

  /**
   * Folding the tokens succeeds exactly when every token parses and names a
   * colour, and then each colour grows by the total the tokens name for it,
   * so repeated mentions of a colour add up.
   */
  lemma {:induction false} FoldCubesTotals(acc: Round, cs: seq<Result<(string, int)>>)
    ensures FoldCubes(acc, cs).Ok? <==> forall k :: 0 <= k < |cs| ==> cs[k].Ok? && IsColour(cs[k].value.0)
    ensures FoldCubes(acc, cs).Ok? ==> forall colour :: IsColour(colour) ==>
      Count(FoldCubes(acc, cs).value, colour) == Count(acc, colour) + ColourTotal(cs, colour)
    decreases |cs|
  {
    if cs != [] {
      var step := AddRound(acc, cs[0]);
      assert forall k :: 1 <= k < |cs| ==> cs[k] == cs[1..][k - 1];
      if step.Ok? {
        FoldCubesTotals(step.value, cs[1..]);
      }
    }
  }

  /** Token `k` is the first that fails or names no colour, and fails with `msg`. */
  predicate FirstBadCube(cs: seq<Result<(string, int)>>, k: int, msg: string) {
    0 <= k < |cs| && AddRound(Round(0, 0, 0), cs[k]) == Err(msg) &&
    forall j :: 0 <= j < k ==> cs[j].Ok? && IsColour(cs[j].value.0)
  }

  /** The fold stops at the first token that fails or names no colour, with that token's error. */
  lemma {:induction false} FoldCubesFails(acc: Round, cs: seq<Result<(string, int)>>)
    ensures FoldCubes(acc, cs).Err? ==> exists k :: FirstBadCube(cs, k, FoldCubes(acc, cs).msg)
    decreases |cs|
  {
    if cs != [] {
      var step := AddRound(acc, cs[0]);
      if step.Err? {
        assert FirstBadCube(cs, 0, step.msg);
      } else {
        var tail := cs[1..];
        FoldCubesFails(step.value, tail);
        var r := FoldCubes(step.value, tail);
        if r.Err? {
          var k :| FirstBadCube(tail, k, r.msg);
          assert FirstBadCube(cs, k + 1, r.msg) by {
            assert cs[k + 1] == tail[k];
            assert forall j :: 1 <= j <= k ==> cs[j] == tail[j - 1];
          }
        }
      }
    }
  }

  // ---------------------------------------------------------------------
  // Parsing a cube token back
  // ---------------------------------------------------------------------

  /** The text of a cube token: the count, one space, the colour. */
  function ShowCube(n: nat, colour: string): string {
    ShowNat(n) + [' '] + colour
  }

  /** Text that starts and ends with no whitespace is its own trim. */
  lemma TrimUntouched(s: string)
    requires s != [] && !IsWhitespace(s[0]) && !IsWhitespace(s[|s| - 1])
    ensures Trim(s) == s
  {
    assert TrimStart(s) == s;
    assert TrimOffset(s) == 0;
  }

  /** A printed cube token parses back to its count and colour. */
  lemma ParseShowCube(n: nat, colour: string)
    requires colour != [] && !IsWhitespace(colour[|colour| - 1])
    ensures ParseCube(ShowCube(n, colour)) == Ok((colour, n as int))
  {
    var digits := ShowNat(n);
    var t := ShowCube(n, colour);
    assert t[0] == digits[0] && IsDigit(digits[0]);
    assert t[|t| - 1] == colour[|colour| - 1];
    TrimUntouched(t);
    assert ' ' !in digits by {
      ParseShowNat(n);
      ParsedHasNoSpace(digits);
    }
    PieceThenSeparator(digits, ' ', colour);
    ParseShowNat(n);
  }

  // ---------------------------------------------------------------------
  // Part 1
  // ---------------------------------------------------------------------

  /** Whether a round shows more cubes than the bag holds: 12 red, 13 green, 14 blue. */
  predicate Exceeds(r: Round) {
    r.red > 12 || r.green > 13 || r.blue > 14
  }

  /** The rounds the part-1 filter keeps: the failed ones and the impossible ones. */
  function Suspect(rs: seq<Result<Round>>): seq<Result<Round>> {
    if rs == [] then []
    else (if rs[0].Err? || Exceeds(rs[0].value) then [rs[0]] else []) + Suspect(rs[1..])
  }

  /** The `try_fold` that counts the kept rounds, stopping at the first failed one. */
  function CountFrom(count: nat, rs: seq<Result<Round>>): Result<nat>
    decreases |rs|
  {
    if rs == [] then Ok(count)
    else if rs[0].Err? then Err(rs[0].msg)
    else CountFrom(count + 1, rs[1..])
  }

  /** The number of rounds that parsed and are impossible. */
  function NumExceeding(rs: seq<Result<Round>>): nat {
    if rs == [] then 0
    else (if rs[0].Ok? && Exceeds(rs[0].value) then 1 else 0) + NumExceeding(rs[1..])
  }

  /**
   * Counting the kept rounds fails exactly when some round failed, with the
   * first failure; otherwise it counts the impossible rounds.
   */
  lemma {:induction false} CountSuspect(count: nat, rs: seq<Result<Round>>)
    ensures CountFrom(count, Suspect(rs)).Ok? <==> forall k :: 0 <= k < |rs| ==> rs[k].Ok?
    ensures CountFrom(count, Suspect(rs)).Ok? ==> CountFrom(count, Suspect(rs)).value == count + NumExceeding(rs)
    ensures CountFrom(count, Suspect(rs)).Err? ==> exists k :: FirstFailure(rs, k, CountFrom(count, Suspect(rs)).msg)
    decreases |rs|
  {
    if rs != [] {
      var tail := rs[1..];
      assert forall k :: 1 <= k < |rs| ==> rs[k] == tail[k - 1];
      var kept := Suspect(tail);
      if rs[0].Err? {
        assert Suspect(rs) == [rs[0]] + kept;
        assert CountFrom(count, Suspect(rs)) == Err(rs[0].msg);
        assert FirstFailure(rs, 0, rs[0].msg);
      } else if Exceeds(rs[0].value) {
        assert Suspect(rs) == [rs[0]] + kept;
        assert ([rs[0]] + kept)[1..] == kept;
        CountSuspect(count + 1, tail);
        if CountFrom(count + 1, kept).Err? {
          var k :| FirstFailure(tail, k, CountFrom(count + 1, kept).msg);
          FirstFailureCons(rs, k, CountFrom(count + 1, kept).msg);
        }
      } else {
        assert Suspect(rs) == [] + kept;
        assert [] + kept == kept;
        CountSuspect(count, tail);
        if CountFrom(count, kept).Err? {
          var k :| FirstFailure(tail, k, CountFrom(count, kept).msg);
          FirstFailureCons(rs, k, CountFrom(count, kept).msg);
        }
      }
    }
  }

  /** No round is impossible exactly when none of those that parsed exceeds the bag. */
  lemma {:induction false} NoneExceeding(rs: seq<Result<Round>>)
    ensures NumExceeding(rs) == 0 <==> forall k :: 0 <= k < |rs| && rs[k].Ok? ==> !Exceeds(rs[k].value)
    decreases |rs|
  {
    if rs != [] {
      NoneExceeding(rs[1..]);
      assert forall k :: 1 <= k < |rs| ==> rs[k] == rs[1..][k - 1];
    }
  }

  /** The game id of a part-1 line: the text from offset 5 up to the first ':'. */
  function GameId(line: string): Result<int> {
    match FindChar(line, ':')
    case None => Err("called `Option::unwrap()` on a `None` value")
    case Some(colon) =>
      if colon < 5 then Err("byte index out of range")
      else
        match ParseInt(line[5..colon])
        case None => Err("called `Result::unwrap()` on an `Err` value")
        case Some(game) => Ok(game)
  }

  /** A game header "Game n:" gives the id `n`, whatever follows. */
  lemma GameIdOfHeader(n: nat, rest: string)
    ensures GameId("Game " + ShowNat(n) + ":" + rest) == Ok(n as int)
  {
    var head := "Game " + ShowNat(n);
    var line := "Game " + ShowNat(n) + ":" + rest;
    assert FindChar(line, ':') == Some(|head|) && line[5..|head|] == ShowNat(n) by {
      assert ':' !in head by {
        ParseShowNat(n);
        assert forall k :: 5 <= k < |head| ==> head[k] == ShowNat(n)[k - 5];
      }
      assert line == head + [':'] + rest;
      PieceThenSeparator(head, ':', rest);
      assert head[5..] == ShowNat(n);
    }
    assert ParseInt(ShowNat(n)) == Some(n as int) by {
      ParseShowNat(n);
    }
  }

  /** One line of part 1: the game id and the number of impossible rounds. */
  function GameOutcome(line: string): Result<(int, nat)> {
    var game :- GameId(line);
    var colon := FindChar(line, ':').value;
    var count :- CountFrom(0, Suspect(ParseRounds(line[colon + 1..])));
    Ok((game, count))
  }

  /** A line that parses is counted exactly when none of its rounds exceeds the bag. */
  lemma GameCountedIff(line: string)
    requires GameOutcome(line).Ok?
    ensures FindChar(line, ':').Some?
    ensures var rs := ParseRounds(line[FindChar(line, ':').value + 1..]);
      (forall k :: 0 <= k < |rs| ==> rs[k].Ok?) &&
      (GameOutcome(line).value.1 == 0 <==> forall k :: 0 <= k < |rs| ==> !Exceeds(rs[k].value))
  {
    var rs := ParseRounds(line[FindChar(line, ':').value + 1..]);
    CountSuspect(0, rs);
    NoneExceeding(rs);
  }

  /** Every line of part 1, parsed (the lazy `map` over the lines). */
  function Outcomes(lines: seq<string>): seq<Result<(int, nat)>> {
    seq(|lines|, k requires 0 <= k < |lines| => GameOutcome(lines[k]))
  }

  /** The `try_fold` that adds the ids of the games with no impossible round. */
  function SumIds(sum: int, os: seq<Result<(int, nat)>>): Result<int>
    decreases |os|
  {
    if os == [] then Ok(sum)
    else
      var outcome :- os[0];
      SumIds(if outcome.1 > 0 then sum else sum + outcome.0, os[1..])
  }

  /** Part 1 over the lines of the input. */
  function Part1(lines: seq<string>): Result<int> {
    SumIds(0, Outcomes(lines))
  }

  /** The sum of the ids of the parsed games with no impossible round. */
  function PossibleIds(os: seq<Result<(int, nat)>>): int {
    if os == [] then 0
    else (if os[0].Ok? && os[0].value.1 == 0 then os[0].value.0 else 0) + PossibleIds(os[1..])
  }

  /**
   * The fold fails exactly when some line failed, with the first failure;
   * otherwise it adds up the ids of the possible games.
   */
  lemma {:induction false} SumIdsIsSum(sum: int, os: seq<Result<(int, nat)>>)
    ensures SumIds(sum, os).Ok? <==> forall k :: 0 <= k < |os| ==> os[k].Ok?
    ensures SumIds(sum, os).Ok? ==> SumIds(sum, os).value == sum + PossibleIds(os)
    ensures SumIds(sum, os).Err? ==> exists k :: FirstFailure(os, k, SumIds(sum, os).msg)
    decreases |os|
  {
    if os != [] && os[0].Ok? {
      var tail := os[1..];
      var o := os[0].value;
      var next := if o.1 > 0 then sum else sum + o.0;
      SumIdsIsSum(next, tail);
      assert forall k :: 1 <= k < |os| ==> os[k] == tail[k - 1];
      if SumIds(next, tail).Err? {
        var k :| FirstFailure(tail, k, SumIds(next, tail).msg);
        FirstFailureCons(os, k, SumIds(next, tail).msg);
      }
    } else if os != [] {
      assert FirstFailure(os, 0, os[0].msg);
    }
  }

  // ---------------------------------------------------------------------
  // Part 2
  // ---------------------------------------------------------------------

  function MaxInt(a: int, b: int): int {
    if a >= b then a else b
  }

  /** `u` holds at least as many cubes as `r` of every colour. */
  predicate Covers(u: Round, r: Round) {
    r.red <= u.red && r.green <= u.green && r.blue <= u.blue
  }

  /** The `try_fold` of the colour-wise maximum over the rounds, stopping at the first failed one. */
  function MaxFold(acc: Round, rs: seq<Result<Round>>): Result<Round>
    decreases |rs|
  {
    if rs == [] then Ok(acc)
    else if rs[0].Err? then Err(rs[0].msg)
    else
      var r := rs[0].value;
      MaxFold(Round(MaxInt(r.red, acc.red), MaxInt(r.green, acc.green), MaxInt(r.blue, acc.blue)), rs[1..])
  }

  /** The fold fails exactly when some round failed, with the first failure. */
  lemma {:induction false} MaxFoldFails(acc: Round, rs: seq<Result<Round>>)
    ensures MaxFold(acc, rs).Ok? <==> forall k :: 0 <= k < |rs| ==> rs[k].Ok?
    ensures MaxFold(acc, rs).Err? ==> exists k :: FirstFailure(rs, k, MaxFold(acc, rs).msg)
    decreases |rs|
  {
    if rs != [] && rs[0].Ok? {
      var r := rs[0].value;
      var next := Round(MaxInt(r.red, acc.red), MaxInt(r.green, acc.green), MaxInt(r.blue, acc.blue));
      MaxFoldFails(next, rs[1..]);
      assert forall k :: 1 <= k < |rs| ==> rs[k] == rs[1..][k - 1];
      if MaxFold(next, rs[1..]).Err? {
        var k :| FirstFailure(rs[1..], k, MaxFold(next, rs[1..]).msg);
        FirstFailureCons(rs, k, MaxFold(next, rs[1..]).msg);
      }
    } else if rs != [] {
      assert FirstFailure(rs, 0, rs[0].msg);
    }
  }

  /** The result of the fold covers the start and every round. */
  lemma {:induction false} MaxFoldCovers(acc: Round, rs: seq<Result<Round>>)
    requires MaxFold(acc, rs).Ok?
    ensures Covers(MaxFold(acc, rs).value, acc)
    ensures forall k :: 0 <= k < |rs| ==> rs[k].Ok? && Covers(MaxFold(acc, rs).value, rs[k].value)
    decreases |rs|
  {
    if rs != [] {
      var r := rs[0].value;
      var next := Round(MaxInt(r.red, acc.red), MaxInt(r.green, acc.green), MaxInt(r.blue, acc.blue));
      MaxFoldCovers(next, rs[1..]);
      assert forall k :: 1 <= k < |rs| ==> rs[k] == rs[1..][k - 1];
    }
  }

  /** It is the least such round: anything that covers the start and every round covers it. */
  lemma {:induction false} MaxFoldLeast(acc: Round, rs: seq<Result<Round>>, u: Round)
    requires MaxFold(acc, rs).Ok?
    requires Covers(u, acc)
    requires forall k :: 0 <= k < |rs| ==> rs[k].Ok? && Covers(u, rs[k].value)
    ensures Covers(u, MaxFold(acc, rs).value)
    decreases |rs|
  {
    if rs != [] {
      var r := rs[0].value;
      var next := Round(MaxInt(r.red, acc.red), MaxInt(r.green, acc.green), MaxInt(r.blue, acc.blue));
      assert forall k :: 1 <= k < |rs| ==> rs[k] == rs[1..][k - 1];
      MaxFoldLeast(next, rs[1..], u);
    }
  }

  /** `Round::power`: the product of the three counts. */
  function Power(r: Round): int {
    r.red * r.green * r.blue
  }

  /** The power vanishes exactly when some colour has no cubes. */
  lemma PowerZero(r: Round)
    ensures Power(r) == 0 <==> r.red == 0 || r.green == 0 || r.blue == 0
  {
    if r.red != 0 && r.green != 0 {
      ProductNonZero(r.red, r.green);
      if r.blue != 0 {
        ProductNonZero(r.red * r.green, r.blue);
      }
    }
  }

  lemma ProductNonZero(a: int, b: int)
    requires a != 0 && b != 0
    ensures a * b != 0
  {
    if a > 0 && b > 0 {
      assert a * b >= b;
    } else if a > 0 {
      assert a * b <= b;
    } else if b > 0 {
      assert a * b <= a;
    } else {
      assert a * b >= 0 - b;
    }
  }

  /** One line of part 2: the power of the colour-wise maxima of its rounds. */
  function GamePower(line: string): Result<int> {
    match FindChar(line, ':')
    case None => Err("no colon")
    case Some(colon) =>
      var least :- MaxFold(Round(0, 0, 0), ParseRounds(line[colon + 1..]));
      Ok(Power(least))
  }

  /**
   * A colour that no round shows a positive number of makes the power of the
   * maxima 0, since the maxima start from no cubes.
   */
  lemma MissingColourPower(rs: seq<Result<Round>>, colour: string)
    requires MaxFold(Round(0, 0, 0), rs).Ok? && IsColour(colour)
    requires forall k :: 0 <= k < |rs| ==> rs[k].Ok? && Count(rs[k].value, colour) <= 0
    ensures Power(MaxFold(Round(0, 0, 0), rs).value) == 0
  {
    var zero := Round(0, 0, 0);
    var v := MaxFold(zero, rs).value;
    MaxFoldCovers(zero, rs);
    var u := if colour == "red" then v.(red := 0) else if colour == "green" then v.(green := 0) else v.(blue := 0);
    assert forall k :: 0 <= k < |rs| ==> Covers(u, rs[k].value);
    MaxFoldLeast(zero, rs, u);
    PowerZero(v);
  }

  /** Every line of part 2, parsed and powered (the lazy `map` over the lines). */
  function Powers(lines: seq<string>): (ps: seq<Result<int>>)
    ensures |ps| == |lines|
    ensures forall k :: 0 <= k < |ps| ==> ps[k] == GamePower(lines[k])
  {
    seq(|lines|, k requires 0 <= k < |lines| => GamePower(lines[k]))
  }

  /** Part 2 over the lines of the input: the `try_fold` sum of the powers. */
  function Part2(lines: seq<string>): Result<int> {
    AddUp(0, Powers(lines))
  }

  /**
   * Part 2 fails exactly when some line fails, with the first failing line's
   * error; otherwise it is the sum of the lines' powers.
   */
  lemma Part2IsSumOfPowers(lines: seq<string>)
    ensures Part2(lines).Ok? <==> forall k :: 0 <= k < |lines| ==> GamePower(lines[k]).Ok?
    ensures Part2(lines).Ok? ==> Part2(lines).value == OkTotal(Powers(lines))
    ensures Part2(lines).Err? ==> exists k :: FirstFailure(Powers(lines), k, Part2(lines).msg)
  {
    AddUpIsTotal(0, Powers(lines));
  }
}
