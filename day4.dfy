/*
 * Day 4 (scratch cards). A card line is "Card n: winners | drawn". Part 1
 * scores each card by its matches; part 2 keeps a backlog of card copies,
 * where each card's matches hand copies of itself to the cards after it.
 */
module Day4 {
  import opened Text
  import opened Seqs

  // ---------------------------------------------------------------------
  // Parsing
  // ---------------------------------------------------------------------

  /** The tokens that are not empty, in order (`filter(|l| l.len() != 0)`). */
  function NonEmpty(toks: seq<string>): (r: seq<string>)
    ensures |r| <= |toks|
  {
    if toks == [] then []
    else (if toks[0] != [] then [toks[0]] else []) + NonEmpty(toks[1..])
  }

  /** The kept tokens are exactly the non-empty ones. */
  lemma {:induction false} NonEmptyMembers(toks: seq<string>)
    ensures forall k :: 0 <= k < |NonEmpty(toks)| ==> NonEmpty(toks)[k] != []
    ensures forall t :: t in NonEmpty(toks) <==> t in toks && t != []
  {
    if toks != [] {
      NonEmptyMembers(toks[1..]);
      assert toks == [toks[0]] + toks[1..];
    }
  }

  /**
   * `numbers_in`: the space-separated numbers of `chars`; runs of spaces
   * give empty tokens, which are skipped; any other token must parse.
   */
  function NumbersIn(chars: string): Result<seq<nat>> {
    ParseNats(NonEmpty(Split(chars, ' ')))
  }

  /** `numbers_in` fails exactly when some non-empty token is not a number. */
  lemma NumbersInFails(chars: string)
    ensures NumbersIn(chars).Ok? <==> forall t :: t in Split(chars, ' ') && t != [] ==> ParseNat(t).Some?
    ensures NumbersIn(chars).Ok? ==> |NumbersIn(chars).value| <= |Split(chars, ' ')|
  {
    var toks := NonEmpty(Split(chars, ' '));
    NonEmptyMembers(Split(chars, ' '));
    ParseNatsAll(toks);
    assert forall t :: t in toks <==> exists k :: 0 <= k < |toks| && toks[k] == t;
  }

  /** Tokens glued with single spaces read back as the numbers of the non-empty tokens. */
  lemma NumbersInOfTokens(toks: seq<string>)
    requires |toks| >= 1 && forall k :: 0 <= k < |toks| ==> ' ' !in toks[k]
    ensures NumbersIn(JoinWith(toks, ' ')) == ParseNats(NonEmpty(toks))
  {
    SplitOfJoin(toks, ' ');
  }

  /** Numbers printed with single spaces read back as themselves. */
  lemma NumbersInRoundTrip(ns: seq<nat>)
    requires |ns| >= 1
    ensures NumbersIn(JoinWith(ShowNats(ns), ' ')) == Ok(ns)
  {
    var shown := ShowNats(ns);
    forall k | 0 <= k < |shown|
      ensures ' ' !in shown[k] && shown[k] != []
    {
      ParseShowNat(ns[k]);
      ParsedHasNoSpace(shown[k]);
    }
    NonEmptyKeepsAll(shown);
    NumbersInOfTokens(shown);
    ParseShowNats(ns);
    SplitOfJoin(shown, ' ');
  }

  lemma {:induction false} NonEmptyKeepsAll(toks: seq<string>)
    requires forall k :: 0 <= k < |toks| ==> toks[k] != []
    ensures NonEmpty(toks) == toks
  {
    if toks != [] {
      NonEmptyKeepsAll(toks[1..]);
      assert toks == [toks[0]] + toks[1..];
    }
  }

  /** A card line split at ':' and '|': its winning numbers and its drawn numbers. */
  function ParseCard(line: string): Result<(seq<nat>, seq<nat>)> {
    match FindChar(line, ':')
    case None => Err("Colon?")
    case Some(colon) =>
      match FindChar(line, '|')
      case None => Err("Pipe?")
      case Some(pipe) =>
        if colon + 1 > pipe then Err("slice index starts after its end")
        else
          var winners :- NumbersIn(line[colon + 1..pipe]);
          var drawn :- NumbersIn(line[pipe + 1..]);
          Ok((winners, drawn))
  }

  /**
   * A card needs a ':' and then a '|'; the winners are the numbers between
   * the first of each, the drawn numbers those after the first '|'.
   */
  lemma ParseCardShape(line: string)
    ensures ParseCard(line).Ok? ==> ':' in line && '|' in line
    ensures ':' !in line ==> ParseCard(line) == Err("Colon?")
    ensures ':' in line && '|' !in line ==> ParseCard(line) == Err("Pipe?")
    ensures ParseCard(line).Ok? ==>
      var colon := FindChar(line, ':').value;
      var pipe := FindChar(line, '|').value;
      colon < pipe &&
      NumbersIn(line[colon + 1..pipe]) == Ok(ParseCard(line).value.0) &&
      NumbersIn(line[pipe + 1..]) == Ok(ParseCard(line).value.1)
  {
  }

  // ---------------------------------------------------------------------
  // Matches and the part 1 score
  // ---------------------------------------------------------------------

  /** `winners_in_p2`: how many drawn numbers, counted with repeats, are among the winners. */
  function MatchCount(winners: seq<nat>, drawn: seq<nat>): (r: nat)
    ensures r <= |drawn|
  {
    if drawn == [] then 0
    else (if drawn[0] in winners then 1 else 0) + MatchCount(winners, drawn[1..])
  }

  /** No match when no drawn number wins; every drawn number matches when all win. */
  lemma {:induction false} MatchCountExtremes(winners: seq<nat>, drawn: seq<nat>)
    ensures MatchCount(winners, drawn) == 0 <==> forall k :: 0 <= k < |drawn| ==> drawn[k] !in winners
    ensures MatchCount(winners, drawn) == |drawn| <==> forall k :: 0 <= k < |drawn| ==> drawn[k] in winners
  {
    if drawn != [] {
      MatchCountExtremes(winners, drawn[1..]);
      assert forall k :: 1 <= k < |drawn| ==> drawn[k] == drawn[1..][k - 1];
    }
  }

  lemma {:induction false} MatchCountAppend(winners: seq<nat>, a: seq<nat>, b: seq<nat>)
    ensures MatchCount(winners, a + b) == MatchCount(winners, a) + MatchCount(winners, b)
  {
    if a == [] {
      assert a + b == b;
    } else {
      MatchCountAppend(winners, a[1..], b);
      assert (a + b)[1..] == a[1..] + b;
    }
  }

  /** Removing the drawn number at `k` removes its match, if it was one. */
  lemma MatchCountRemove(winners: seq<nat>, drawn: seq<nat>, k: nat)
    requires k < |drawn|
    ensures MatchCount(winners, drawn) ==
      MatchCount(winners, drawn[..k] + drawn[k + 1..]) + (if drawn[k] in winners then 1 else 0)
  {
    assert drawn == drawn[..k] + ([drawn[k]] + drawn[k + 1..]);
    MatchCountAppend(winners, drawn[..k], [drawn[k]] + drawn[k + 1..]);
    MatchCountAppend(winners, drawn[..k], drawn[k + 1..]);
  }

  /** The count depends on which numbers were drawn, not on their order. */
  lemma {:induction false} MatchCountPermutation(winners: seq<nat>, a: seq<nat>, b: seq<nat>)
    requires multiset(a) == multiset(b)
    ensures MatchCount(winners, a) == MatchCount(winners, b)
    decreases |a|
  {
    if a != [] {
      var b' := TakeOut(winners, a, b);
      MatchCountPermutation(winners, a[1..], b');
    }
  }

  /** Takes the first number of `a` out of its permutation `b`. */
  lemma TakeOut(winners: seq<nat>, a: seq<nat>, b: seq<nat>) returns (b': seq<nat>)
    requires a != [] && multiset(a) == multiset(b)
    ensures multiset(a[1..]) == multiset(b')
    ensures MatchCount(winners, b) == MatchCount(winners, b') + (if a[0] in winners then 1 else 0)
  {
    var k := PositionIn(b, a[0]) by {
      assert a[0] in multiset(a);
    }
    b' := b[..k] + b[k + 1..];
    assert multiset(b') == multiset(b) - multiset{a[0]} by {
      MultisetRemove(b, k);
    }
    assert multiset(a[1..]) == multiset(a) - multiset{a[0]} by {
      assert a == [a[0]] + a[1..];
    }
    MatchCountRemove(winners, b, k);
  }

  lemma PositionIn(s: seq<nat>, x: nat) returns (k: nat)
    requires x in s
    ensures k < |s| && s[k] == x
  {
    k :| 0 <= k < |s| && s[k] == x;
  }

  lemma MultisetRemove(s: seq<nat>, k: nat)
    requires k < |s|
    ensures multiset(s[..k] + s[k + 1..]) == multiset(s) - multiset{s[k]}
  {
    assert s == s[..k] + [s[k]] + s[k + 1..];
    assert multiset(s) == multiset(s[..k] + s[k + 1..]) + multiset{s[k]};
  }

  /** The count depends on which numbers win, not on how they are listed. */
  lemma {:induction false} MatchCountSameWinners(w1: seq<nat>, w2: seq<nat>, drawn: seq<nat>)
    requires forall x :: x in w1 <==> x in w2
    ensures MatchCount(w1, drawn) == MatchCount(w2, drawn)
  {
    if drawn != [] {
      MatchCountSameWinners(w1, w2, drawn[1..]);
    }
  }

  function Pow2(e: nat): (r: nat)
    ensures r >= 1
  {
    if e == 0 then 1 else 2 * Pow2(e - 1)
  }

  /** `winners_in`: no points without a match, one point for the first, doubled for each further one. */
  function Score(count: nat): (r: nat)
    ensures r == 0 <==> count == 0
    ensures count == 1 ==> r == 1
  {
    if count > 0 then Pow2(count - 1) else 0
  }

  /** Each match past the first doubles the score. */
  lemma ScoreDoubles(count: nat)
    requires count >= 1
    ensures Score(count + 1) == 2 * Score(count)
  {
  }

  /** One line's score, or its error. */
  function CardScore(line: string): Result<nat> {
    var card :- ParseCard(line);
    Ok(Score(MatchCount(card.0, card.1)))
  }

  /**
   * The part 1 total (`p1`'s `try_fold`): the scores of the lines added up,
   * stopping at the first line that fails.
   */
  function TotalScore(lines: seq<string>): Result<nat> {
    TrySum(CardScore, lines)
  }

  /**
   * The part 1 total is the sum of the lines' scores; it fails exactly when
   * some line fails, and then with the first failing line's error.
   */
  lemma TotalScoreIsSum(lines: seq<string>)
    ensures TotalScore(lines).Ok? <==> TryMap(CardScore, lines).Ok?
    ensures TotalScore(lines).Ok? <==> forall k :: 0 <= k < |lines| ==> CardScore(lines[k]).Ok?
    ensures TotalScore(lines).Ok? ==>
      TotalScore(lines).value == Sum(TryMap(CardScore, lines).value) &&
      forall k :: 0 <= k < |lines| ==> TryMap(CardScore, lines).value[k] == CardScore(lines[k]).value
    ensures TotalScore(lines).Err? ==>
      exists k :: (0 <= k < |lines| && CardScore(lines[k]).Err? &&
        TotalScore(lines).msg == CardScore(lines[k]).msg && forall j :: 0 <= j < k ==> CardScore(lines[j]).Ok?)
  {
    TrySumIsSumOfMap(CardScore, lines);
    TryMapAll(CardScore, lines);
  }

  // ---------------------------------------------------------------------
  // Part 2: the backlog of card copies
  // ---------------------------------------------------------------------

  /** Entry `j` of the backlog, where slots past its end count as 0. */
  function At(b: seq<nat>, j: nat): nat {
    if j < |b| then b[j] else 0
  }

  /**
   * The backlog after card `i` with `res` matches: grown (with zeros) to
   * hold `i + 1 + res` slots, slot `i` up by one for the original card,
   * and each of the next `res` slots up by the new count of card `i`.
   */
  function Step(b: seq<nat>, i: nat, res: nat): seq<nat> {
    seq(Max(i + 1 + res, |b|), j requires 0 <= j < Max(i + 1 + res, |b|) =>
      if j == i then At(b, i) + 1
      else if i < j <= i + res then At(b, j) + At(b, i) + 1
      else At(b, j))
  }

  function Max(a: nat, b: nat): nat {
    if a >= b then a else b
  }

  /** The backlog never shrinks, card `i` is held at least once, and new slots out of reach start at 0. */
  lemma StepShape(b: seq<nat>, i: nat, res: nat)
    ensures |Step(b, i, res)| >= |b| && |Step(b, i, res)| >= i + 1 + res
    ensures Step(b, i, res)[i] >= 1
    ensures forall j :: |b| <= j < |Step(b, i, res)| && j > i + res ==> Step(b, i, res)[j] == 0
    ensures forall j :: 0 <= j < |b| && (j < i || j > i + res) ==> Step(b, i, res)[j] == b[j]
  {
  }

  /**
   * The `p2` fold body for card `i` with `res` matches, in place: resize,
   * count the original, then add its copies to each of the next `res` cards.
   */
  method ProcessCard(backlog: seq<nat>, i: nat, res: nat) returns (b: seq<nat>)
    ensures b == Step(backlog, i, res)
  {
    var size := Max(i + 1 + res, |backlog|);
    b := backlog + seq(size - |backlog|, _ => 0);
    b := b[i := b[i] + 1];
    var win := b[i];
    if res > 0 {
      for j := i + 1 to i + 1 + res
        invariant |b| == size
        invariant b[i] == win == At(backlog, i) + 1
        invariant forall k :: 0 <= k < size && k != i ==>
          b[k] == if i < k < j then At(backlog, k) + win else At(backlog, k)
      {
        b := b[j := b[j] + win];
      }
    }
  }

  /** The backlog after the first `n` cards, whose match counts are `ms`. */
  function Backlog(ms: seq<nat>, n: nat): seq<nat>
    requires n <= |ms|
  {
    if n == 0 then [] else Step(Backlog(ms, n - 1), n - 1, ms[n - 1])
  }

  /**
   * The copies of card `k` handed out by cards before `n`: each card `j`
   * whose matches reach `k` hands over one copy per copy of itself.
   */
  function Contrib(ms: seq<nat>, n: nat, k: nat): nat
    requires n <= |ms|
    decreases n, 0
  {
    if n == 0 then 0
    else Contrib(ms, n - 1, k) + (if n - 1 < k <= n - 1 + ms[n - 1] then Copies(ms, n - 1) else 0)
  }

  /** How many copies of card `k` there are in the end: the original plus those won from earlier cards. */
  function Copies(ms: seq<nat>, k: nat): nat
    requires k < |ms|
    decreases k, 1
  {
    1 + Contrib(ms, k, k)
  }

  /** Later cards never hand copies to earlier ones. */
  lemma {:induction false} ContribSettled(ms: seq<nat>, n: nat, k: nat)
    requires k <= n <= |ms|
    ensures Contrib(ms, n, k) == Contrib(ms, k, k)
    decreases n
  {
    if n > k {
      ContribSettled(ms, n - 1, k);
    }
  }

  /** After `n` cards, every slot holds its original (if processed) plus the copies won so far. */
  lemma {:induction false} BacklogCounts(ms: seq<nat>, n: nat, k: nat)
    requires n <= |ms|
    ensures At(Backlog(ms, n), k) == (if k < n then 1 else 0) + Contrib(ms, n, k)
    decreases n
  {
    if n > 0 {
      var i := n - 1;
      var b := Backlog(ms, i);
      BacklogCounts(ms, i, k);
      if k == i {
        ContribSettled(ms, i, i);
      } else if i < k <= i + ms[i] {
        BacklogCounts(ms, i, i);
      }
    }
  }

  /** After all cards, slot `k` of the backlog is the number of copies of card `k`; there is at least one. */
  lemma BacklogIsCopies(ms: seq<nat>, k: nat)
    requires k < |ms|
    ensures k < |Backlog(ms, |ms|)|
    ensures Backlog(ms, |ms|)[k] == Copies(ms, k) >= 1
  {
    BacklogCounts(ms, |ms|, k);
    ContribSettled(ms, |ms|, k);
    BacklogLength(ms, |ms|);
  }

  lemma {:induction false} BacklogLength(ms: seq<nat>, n: nat)
    requires n <= |ms|
    ensures |Backlog(ms, n)| >= n
  {
    if n > 0 {
      BacklogLength(ms, n - 1);
    }
  }

  /** One line's match count, or its error. */
  function CardMatches(line: string): Result<nat> {
    var card :- ParseCard(line);
    Ok(MatchCount(card.0, card.1))
  }

  /** The match counts of all cards, or the first line's error. */
  function MatchCounts(lines: seq<string>): (r: Result<seq<nat>>)
    ensures r.Ok? ==> |r.value| == |lines|
  {
    TryMap(CardMatches, lines)
  }

  /** Part 2 as a function of the lines: the sum of the final backlog. */
  function TotalCards(lines: seq<string>): Result<nat> {
    var ms :- MatchCounts(lines);
    Ok(Sum(Backlog(ms, |ms|)))
  }

  /** Every card is counted at least once, so the total is at least the number of cards. */
  lemma TotalCardsAtLeastCards(lines: seq<string>)
    requires TotalCards(lines).Ok?
    ensures TotalCards(lines).value >= |lines|
  {
    var ms := MatchCounts(lines).value;
    var b := Backlog(ms, |ms|);
    BacklogLength(ms, |ms|);
    forall k | 0 <= k < |ms|
      ensures b[k] >= 1
    {
      BacklogIsCopies(ms, k);
    }
    SumAtLeastPrefix(b, |ms|);
  }

  /** With every term of a prefix at least 1, a sum of naturals is at least that prefix's length. */
  lemma {:induction false} SumAtLeastPrefix(b: seq<nat>, n: nat)
    requires n <= |b|
    requires forall k :: 0 <= k < n ==> b[k] >= 1
    ensures Sum(b) >= n
  {
    if n > 0 {
      SumAtLeastPrefix(b[1..], n - 1);
    } else {
      assert forall k :: 0 <= k < |b| ==> b[k] >= 0;
    }
  }

  /**
   * The `p2` fold closure for card `i`: parse the line, count its matches
   * and update the backlog, or give the line's error.
   */
  method FoldCard(line: string, i: nat, backlog: seq<nat>) returns (r: Result<seq<nat>>)
    ensures r.Ok? <==> CardMatches(line).Ok?
    ensures r.Err? ==> r.msg == CardMatches(line).msg
    ensures r.Ok? ==> r.value == Step(backlog, i, CardMatches(line).value)
  {
    var card := ParseCard(line);
    if card.Err? {
      return Err(card.msg);
    }
    var res := MatchCount(card.value.0, card.value.1);
    var b := ProcessCard(backlog, i, res);
    return Ok(b);
  }

  /**
   * `p2` without the file and the printing: each line's card is parsed,
   * its matches counted and the backlog updated; then the backlog summed.
   */
  method CountCards(lines: seq<string>) returns (r: Result<nat>)
    ensures r == TotalCards(lines)
  {
    var backlog: seq<nat> := [];
    var i := 0;
    ghost var ms: seq<nat> := [];
    while i < |lines|
      invariant i <= |lines| && |ms| == i
      invariant MatchCounts(lines[..i]) == Ok(ms)
      invariant backlog == Backlog(ms, i)
    {
      var next := FoldCard(lines[i], i, backlog);
      if next.Err? {
        assert TotalCards(lines) == Err(next.msg) by {
          TryMapStep(CardMatches, lines, i, ms);
        }
        return Err(next.msg);
      }
      ghost var m := CardMatches(lines[i]).value;
      assert MatchCounts(lines[..i + 1]) == Ok(ms + [m]) by {
        TryMapStep(CardMatches, lines, i, ms);
      }
      assert next.value == Backlog(ms + [m], i + 1) by {
        BacklogExtend(ms, m);
      }
      backlog := next.value;
      ms := ms + [m];
      i := i + 1;
    }
    assert lines[..i] == lines;
    r := Ok(Sum(backlog));
  }

  lemma BacklogExtend(ms: seq<nat>, res: nat)
    ensures Backlog(ms + [res], |ms| + 1) == Step(Backlog(ms, |ms|), |ms|, res)
  {
    BacklogPrefix(ms + [res], ms, |ms|);
  }

  /** The backlog after `n` cards depends only on the first `n` match counts. */
  lemma {:induction false} BacklogPrefix(a: seq<nat>, b: seq<nat>, n: nat)
    requires n <= |a| && n <= |b| && a[..n] == b[..n]
    ensures Backlog(a, n) == Backlog(b, n)
  {
    if n > 0 {
      assert a[..n - 1] == b[..n - 1] by {
        assert a[..n - 1] == a[..n][..n - 1];
        assert b[..n - 1] == b[..n][..n - 1];
      }
      assert a[n - 1] == a[..n][n - 1] == b[..n][n - 1] == b[n - 1];
      BacklogPrefix(a, b, n - 1);
    }
  }
}
