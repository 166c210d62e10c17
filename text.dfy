/*
 * Text helpers shared by the puzzle solvers: the small part of Rust's
 * `str` and `Option`/`Result` API that the solvers rely on, over ASCII
 * strings (one char per byte, so char indices are byte indices).
 */
module Text {

  datatype Option<+T> = None | Some(value: T)

  /** An error or panic of the source, carrying its message. */
  datatype Result<+T> = Ok(value: T) | Err(msg: string) {
    predicate IsFailure() { Err? }
    function PropagateFailure<U>(): Result<U>
      requires Err?
    {
      Err(msg)
    }
    function Extract(): T
      requires Ok?
    {
      value
    }
  }

  // ---------------------------------------------------------------------
  // Substring search: `str::find` and `str::rfind`
  // ---------------------------------------------------------------------

  /** `pat` occurs in `s` starting at index `i`. */
  predicate OccursAt(s: string, pat: string, i: int) {
    0 <= i && i + |pat| <= |s| && s[i..i + |pat|] == pat
  }

  /** Leftmost occurrence of `pat` at or after index `i`. */
  function FindFrom(s: string, pat: string, i: nat): (r: Option<nat>)
    ensures r.Some? ==> i <= r.value && OccursAt(s, pat, r.value)
    ensures r.Some? ==> forall j :: i <= j < r.value ==> !OccursAt(s, pat, j)
    ensures r.None? ==> forall j :: i <= j ==> !OccursAt(s, pat, j)
    decreases |s| - i
  {
    if i + |pat| > |s| then None
    else if s[i..i + |pat|] == pat then Some(i)
    else FindFrom(s, pat, i + 1)
  }

  /** `s.find(pat)`: the index of the leftmost occurrence, if any. */
  function Find(s: string, pat: string): (r: Option<nat>)
    ensures r.Some? ==> OccursAt(s, pat, r.value)
    ensures r.Some? ==> forall j :: 0 <= j < r.value ==> !OccursAt(s, pat, j)
    ensures r.None? <==> forall j :: !OccursAt(s, pat, j)
  {
    FindFrom(s, pat, 0)
  }

  /** Rightmost occurrence of `pat` starting at or before index `i`. */
  function RFindDown(s: string, pat: string, i: int): (r: Option<nat>)
    ensures r.Some? ==> r.value <= i && OccursAt(s, pat, r.value)
    ensures r.Some? ==> forall j :: r.value < j <= i ==> !OccursAt(s, pat, j)
    ensures r.None? ==> forall j :: j <= i ==> !OccursAt(s, pat, j)
    decreases i + 1
  {
    if i < 0 then None
    else if OccursAt(s, pat, i) then Some(i)
    else RFindDown(s, pat, i - 1)
  }

  /** `s.rfind(pat)`: the start index of the rightmost occurrence, if any. */
  function RFind(s: string, pat: string): (r: Option<nat>)
    ensures r.Some? ==> OccursAt(s, pat, r.value)
    ensures r.Some? ==> forall j :: r.value < j ==> !OccursAt(s, pat, j)
    ensures r.None? <==> forall j :: !OccursAt(s, pat, j)
  {
    RFindDown(s, pat, |s| - |pat|)
  }

  /** The first index at or after `i` holding `c`, if any. */
  function FindCharFrom(s: string, c: char, i: nat): (r: Option<nat>)
    ensures r.Some? ==> i <= r.value < |s| && s[r.value] == c
    ensures r.Some? ==> forall j :: i <= j < r.value ==> s[j] != c
    ensures r.None? ==> forall j :: i <= j < |s| ==> s[j] != c
    decreases |s| - i
  {
    if i >= |s| then None
    else if s[i] == c then Some(i)
    else FindCharFrom(s, c, i + 1)
  }

  /** `s.find(c)` for a single character. */
  function FindChar(s: string, c: char): (r: Option<nat>)
    ensures r.Some? ==> r.value < |s| && s[r.value] == c
    ensures r.Some? ==> forall j :: 0 <= j < r.value ==> s[j] != c
    ensures r.None? <==> c !in s
  {
    FindCharFrom(s, c, 0)
  }

  // ---------------------------------------------------------------------
  // Splitting: `str::split(c)` and `str::splitn(n, c)`
  // ---------------------------------------------------------------------

  /** The pieces of `s` between occurrences of `c`, as `s.split(c)` yields them. */
  function Split(s: string, c: char): (r: seq<string>)
    ensures |r| >= 1
    ensures forall k :: 0 <= k < |r| ==> c !in r[k]
    decreases |s|
  {
    match FindChar(s, c)
    case None => [s]
    case Some(i) => [s[..i]] + Split(s[i + 1..], c)
  }

  /** At most `n` pieces; the last one holds the rest of `s`, as `s.splitn(n, c)`. */
  function SplitN(s: string, n: nat, c: char): (r: seq<string>)
    requires n >= 1
    ensures 1 <= |r| <= n
    ensures forall k :: 0 <= k < |r| - 1 ==> c !in r[k]
    decreases n
  {
    if n == 1 then [s]
    else
      match FindChar(s, c)
      case None => [s]
      case Some(i) => [s[..i]] + SplitN(s[i + 1..], n - 1, c)
  }

  /** The pieces glued back together with the separator between them. */
  function JoinWith(pieces: seq<string>, c: char): string
    requires |pieces| >= 1
  {
    if |pieces| == 1 then pieces[0]
    else pieces[0] + [c] + JoinWith(pieces[1..], c)
  }

  lemma JoinWithCons(p: string, ps: seq<string>, c: char)
    requires |ps| >= 1
    ensures JoinWith([p] + ps, c) == p + [c] + JoinWith(ps, c)
  {
    assert ([p] + ps)[0] == p && ([p] + ps)[1..] == ps;
  }

  /** A text is what comes before position `i`, the character there, and what follows. */
  lemma Around(s: string, i: nat)
    requires i < |s|
    ensures s == s[..i] + [s[i]] + s[i + 1..]
  {
  }

  /** Splitting loses nothing: the pieces and separators give back the input. */
  lemma {:induction false} SplitJoin(s: string, c: char)
    ensures JoinWith(Split(s, c), c) == s
    decreases |s|
  {
    match FindChar(s, c)
    case None =>
    case Some(i) =>
      var rest := s[i + 1..];
      SplitJoin(rest, c);
      SplitStep(s, c);
      JoinWithCons(s[..i], Split(rest, c), c);
      Around(s, i);
  }

  /** The same holds for the bounded split. */
  lemma {:induction false} SplitNJoin(s: string, n: nat, c: char)
    requires n >= 1
    ensures JoinWith(SplitN(s, n, c), c) == s
    decreases n
  {
    if n > 1 && FindChar(s, c).Some? {
      var i := FindChar(s, c).value;
      var rest := s[i + 1..];
      SplitNJoin(rest, n - 1, c);
      SplitNStep(s, n, c);
      JoinWithCons(s[..i], SplitN(rest, n - 1, c), c);
      Around(s, i);
    }
  }

  lemma SplitStep(s: string, c: char)
    requires FindChar(s, c).Some?
    ensures Split(s, c) == [s[..FindChar(s, c).value]] + Split(s[FindChar(s, c).value + 1..], c)
  {
  }

  lemma SplitNStep(s: string, n: nat, c: char)
    requires n > 1 && FindChar(s, c).Some?
    ensures SplitN(s, n, c) == [s[..FindChar(s, c).value]] + SplitN(s[FindChar(s, c).value + 1..], n - 1, c)
  {
  }

  // ---------------------------------------------------------------------
  // Trimming: `str::trim`
  // ---------------------------------------------------------------------

  /** The ASCII characters Rust's `char::is_whitespace` accepts. */
  predicate IsWhitespace(c: char) {
    c == ' ' || c == '\t' || c == '\n' || c == '\r' || c == '\U{0B}' || c == '\U{0C}'
  }

  function TrimStart(s: string): (r: string)
    ensures |r| <= |s| && r == s[|s| - |r|..]
    ensures r == [] || !IsWhitespace(r[0])
    ensures forall k :: 0 <= k < |s| - |r| ==> IsWhitespace(s[k])
  {
    if s != [] && IsWhitespace(s[0]) then TrimStart(s[1..]) else s
  }

  function TrimEnd(s: string): (r: string)
    ensures |r| <= |s| && r == s[..|r|]
    ensures r == [] || !IsWhitespace(r[|r| - 1])
    ensures forall k :: |r| <= k < |s| ==> IsWhitespace(s[k])
  {
    if s != [] && IsWhitespace(s[|s| - 1]) then TrimEnd(s[..|s| - 1]) else s
  }

  /** How many characters `s.trim()` cuts off the front. */
  function TrimOffset(s: string): nat {
    |s| - |TrimStart(s)|
  }

  /** `s.trim()`: a slice of `s` with no whitespace at either end, only whitespace cut off. */
  function Trim(s: string): (r: string)
    ensures TrimOffset(s) + |r| <= |s| && r == s[TrimOffset(s)..TrimOffset(s) + |r|]
    ensures forall k :: 0 <= k < TrimOffset(s) ==> IsWhitespace(s[k])
    ensures forall k :: TrimOffset(s) + |r| <= k < |s| ==> IsWhitespace(s[k])
    ensures r == [] || (!IsWhitespace(r[0]) && !IsWhitespace(r[|r| - 1]))
  {
    var t := TrimStart(s);
    var r := TrimEnd(t);
    var a := |s| - |t|;
    assert r == s[a..a + |r|];
    r
  }

  // ---------------------------------------------------------------------
  // Integer parsing: `str::parse::<u32/u64>()` and `str::parse::<i32>()`
  // ---------------------------------------------------------------------

  predicate IsDigit(c: char) { '0' <= c <= '9' }

  predicate AllDigits(s: string) {
    forall k :: 0 <= k < |s| ==> IsDigit(s[k])
  }

  function DigitValue(c: char): (d: nat)
    requires IsDigit(c)
    ensures d < 10
  {
    (c as int) - ('0' as int)
  }

  function DigitChar(d: nat): (c: char)
    requires d < 10
    ensures IsDigit(c) && DigitValue(c) == d
  {
    (('0' as int) + d) as char
  }

  /** The value of a run of decimal digits, most significant first. */
  function Decimal(ds: string): nat
    requires AllDigits(ds)
  {
    if ds == [] then 0 else Decimal(ds[..|ds| - 1]) * 10 + DigitValue(ds[|ds| - 1])
  }

  /** The decimal text of `n`, without leading zeros. */
  function ShowNat(n: nat): (s: string)
    ensures s != [] && AllDigits(s)
  {
    if n < 10 then [DigitChar(n)] else ShowNat(n / 10) + [DigitChar(n % 10)]
  }

  /**
   * Parsing an unsigned integer: the text is non-empty, may start with one
   * '+', and the rest is a non-empty run of digits. Width overflow is not
   * modelled.
   */
  function ParseNat(s: string): Option<nat> {
    if s == [] then None
    else
      var ds := if s[0] == '+' then s[1..] else s;
      if ds != [] && AllDigits(ds) then Some(Decimal(ds)) else None
  }

  /** Parsing a signed integer: as `ParseNat`, and a leading '-' negates. */
  function ParseInt(s: string): Option<int> {
    if s == [] then None
    else if s[0] == '-' then
      var ds := s[1..];
      if ds != [] && AllDigits(ds) then Some(0 - (Decimal(ds) as int)) else None
    else
      match ParseNat(s)
      case None => None
      case Some(n) => Some(n as int)
  }

  lemma {:induction false} DecimalShowNat(n: nat)
    ensures Decimal(ShowNat(n)) == n
  {
    if n >= 10 {
      DecimalShowNat(n / 10);
      var s := ShowNat(n);
      assert s[..|s| - 1] == ShowNat(n / 10);
    }
  }

  /** Printing a number and parsing it back gives the number. */
  lemma ParseShowNat(n: nat)
    ensures ParseNat(ShowNat(n)) == Some(n)
    ensures ParseInt(ShowNat(n)) == Some(n as int)
  {
    DecimalShowNat(n);
  }

  /** A digit run of any length is an accepted number (leading zeros included). */
  lemma ParseDigits(ds: string)
    requires ds != [] && AllDigits(ds)
    ensures ParseNat(ds) == Some(Decimal(ds))
    ensures ParseInt(ds) == Some(Decimal(ds) as int)
  {
  }

  /** A signed integer text is a number text with an optional '-' in front. */
  lemma ParseIntNonNegative(s: string)
    requires s != [] && s[0] != '-'
    ensures ParseInt(s).Some? <==> ParseNat(s).Some?
    ensures ParseInt(s).Some? ==> ParseInt(s).value == ParseNat(s).value as int
  {
  }

  /** No text that the unsigned parser accepts contains a space. */
  lemma ParsedHasNoSpace(s: string)
    requires ParseNat(s).Some?
    ensures ' ' !in s
  {
    var ds := if s[0] == '+' then s[1..] else s;
    forall k | 0 <= k < |s|
      ensures s[k] != ' '
    {
      if s[0] == '+' && k > 0 {
        assert s[k] == ds[k - 1];
      } else if s[0] != '+' {
        assert s[k] == ds[k];
      }
    }
  }

  // ---------------------------------------------------------------------
  // Lists of numbers
  // ---------------------------------------------------------------------

  /** Parsing every token, stopping at the first that is not a number (`collect::<Result<Vec<_>>>`). */
  function ParseNats(toks: seq<string>): (r: Result<seq<nat>>)
    ensures r.Ok? ==> |r.value| == |toks|
  {
    if toks == [] then Ok([])
    else
      match ParseNat(toks[0])
      case None => Err("invalid digit found in string")
      case Some(n) =>
        var rest :- ParseNats(toks[1..]);
        Ok([n] + rest)
  }

  /** The list parses exactly when every token does, and then to the tokens' values in order. */
  lemma {:induction false} ParseNatsAll(toks: seq<string>)
    ensures ParseNats(toks).Ok? <==> forall k :: 0 <= k < |toks| ==> ParseNat(toks[k]).Some?
    ensures ParseNats(toks).Ok? ==> forall k :: 0 <= k < |toks| ==> ParseNats(toks).value[k] == ParseNat(toks[k]).value
  {
    if toks != [] {
      ParseNatsAll(toks[1..]);
      assert forall k :: 1 <= k < |toks| ==> toks[k] == toks[1..][k - 1];
    }
  }

  /** The decimal texts of a list of numbers. */
  function ShowNats(ns: seq<nat>): seq<string> {
    seq(|ns|, k requires 0 <= k < |ns| => ShowNat(ns[k]))
  }

  /** Splitting text that was glued from separator-free pieces gives back the pieces. */
  lemma {:induction false} SplitOfJoin(pieces: seq<string>, c: char)
    requires |pieces| >= 1
    requires forall k :: 0 <= k < |pieces| ==> c !in pieces[k]
    ensures Split(JoinWith(pieces, c), c) == pieces
  {
    if |pieces| > 1 {
      var p, tail := pieces[0], pieces[1..];
      assert Split(JoinWith(pieces, c), c) == [p] + Split(JoinWith(tail, c), c) by {
        var rest := JoinWith(tail, c);
        assert JoinWith(pieces, c) == p + [c] + rest;
        PieceThenSeparator(p, c, rest);
        SplitStep(p + [c] + rest, c);
      }
      assert forall k :: 0 <= k < |tail| ==> tail[k] == pieces[k + 1];
      SplitOfJoin(tail, c);
      assert pieces == [p] + tail;
    }
  }

  /** In a piece free of `c`, then `c`, then anything, the first `c` is right after the piece. */
  lemma PieceThenSeparator(p: string, c: char, rest: string)
    requires c !in p
    ensures FindChar(p + [c] + rest, c) == Some(|p|)
    ensures (p + [c] + rest)[..|p|] == p && (p + [c] + rest)[|p| + 1..] == rest
  {
    var s := p + [c] + rest;
    assert forall j :: 0 <= j < |p| ==> s[j] == p[j];
    FindCharAt(s, c, |p|);
  }

  /** `find` stops at the first occurrence. */
  lemma FindCharAt(s: string, c: char, i: nat)
    requires i < |s| && s[i] == c
    requires forall j :: 0 <= j < i ==> s[j] != c
    ensures FindChar(s, c) == Some(i)
  {
  }

  /** The same for the bounded split, when there are exactly `n` pieces. */
  lemma SplitNOfJoin(pieces: seq<string>, n: nat, c: char)
    requires n >= 1 && |pieces| == n
    requires forall k :: 0 <= k < |pieces| ==> c !in pieces[k]
    ensures SplitN(JoinWith(pieces, c), n, c) == pieces
  {
    SplitOfJoin(pieces, c);
    SplitNAgrees(JoinWith(pieces, c), n, c);
  }

  /** With no more than `n` pieces to give, the bounded split is the plain one. */
  lemma {:induction false} SplitNAgrees(s: string, n: nat, c: char)
    requires n >= 1 && |Split(s, c)| <= n
    ensures SplitN(s, n, c) == Split(s, c)
    decreases n
  {
    if FindChar(s, c).Some? {
      var i := FindChar(s, c).value;
      SplitStep(s, c);
      assert n > 1;
      SplitNStep(s, n, c);
      SplitNAgrees(s[i + 1..], n - 1, c);
    }
  }

  /** Printing a list of numbers with single spaces and parsing it back gives the list. */
  lemma ParseShowNats(ns: seq<nat>)
    requires |ns| >= 1
    ensures ParseNats(Split(JoinWith(ShowNats(ns), ' '), ' ')) == Ok(ns)
  {
    var shown := ShowNats(ns);
    forall k | 0 <= k < |shown|
      ensures ' ' !in shown[k] && ParseNat(shown[k]) == Some(ns[k])
    {
      ParseShowNat(ns[k]);
      ParsedHasNoSpace(shown[k]);
    }
    SplitOfJoin(shown, ' ');
    ParseNatsAll(shown);
    var r := ParseNats(shown);
    assert r.Ok?;
    assert r.value == ns;
  }
}
