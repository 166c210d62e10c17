/*
 * The almanac solver (src/day5.rs): ranges of values, translation rules
 * that shift a source range to a destination, first-match rule lists,
 * the seven-stage seed-to-location chain, and the almanac parsers.
 *
 * Values are u64 in the source; here they are unbounded naturals.
 */
module Day5 {
  import opened Text
  import opened Seqs

  // ---------------------------------------------------------------------
  // Categories
  // ---------------------------------------------------------------------

  datatype Category = Seed | Soil | Fertilizer | Water | Light | Temperature | Humidity | Location

  /** The name an almanac title uses for each category. */
  function CategoryName(c: Category): string {
    match c
    case Seed => "seed"
    case Soil => "soil"
    case Fertilizer => "fertilizer"
    case Water => "water"
    case Light => "light"
    case Temperature => "temperature"
    case Humidity => "humidity"
    case Location => "location"
  }

  /** `Category::of`: the category with that name; any other name panics (here: an error). */
  function CategoryOf(name: string): (r: Result<Category>)
    ensures r.Ok? ==> CategoryName(r.value) == name
    ensures r.Err? <==> forall c: Category :: CategoryName(c) != name
  {
    if name == "seed" then Ok(Seed)
    else if name == "soil" then Ok(Soil)
    else if name == "fertilizer" then Ok(Fertilizer)
    else if name == "water" then Ok(Water)
    else if name == "light" then Ok(Light)
    else if name == "temperature" then Ok(Temperature)
    else if name == "humidity" then Ok(Humidity)
    else if name == "location" then Ok(Location)
    else Err("category?")
  }

  // ---------------------------------------------------------------------
  // Ranges
  // ---------------------------------------------------------------------

  function Max(a: int, b: int): int { if a >= b then a else b }
  function MinOf(a: int, b: int): int { if a <= b then a else b }

  /** `size` consecutive values starting at `from`. */
  datatype Range = Range(from: nat, size: nat) {

    /** `to()`: the last value in the range. */
    function To(): int { from + size - 1 }

    predicate Contains(v: int) { from <= v <= To() }

    /** `Range::start_end`: the range from `start` to `end` inclusive, if not empty. */
    static function StartEnd(start: nat, end: int): (r: Option<Range>)
      ensures r.Some? <==> start <= end
      ensures r.Some? ==> r.value.from == start && r.value.To() == end && r.value.size > 0
    {
      if start <= end then Some(Range(start, end + 1 - start)) else None
    }

    /** `Range::start_size`: a range of `size` values, refused when `size` is 0. */
    static function StartSize(from: nat, size: nat): (r: Option<Range>)
      ensures r.Some? <==> size > 0
      ensures r.Some? ==> r.value.from == from && r.value.size == size
    {
      if size > 0 then Some(Range(from, size)) else None
    }

    /** `intersect`: the values in both ranges, `None` when they share none. */
    function Intersect(other: Range): (r: Option<Range>)
      ensures r.None? <==> forall v :: !(Contains(v) && other.Contains(v))
      ensures r.Some? ==> r.value.size > 0
      ensures r.Some? ==> forall v :: r.value.Contains(v) <==> Contains(v) && other.Contains(v)
    {
      var start := Max(from, other.from);
      var end := MinOf(To(), other.To());
      if start <= end then
        assert Contains(start) && other.Contains(start);
        StartEnd(start, end)
      else
        StartEnd(start, end)
    }

    /** `tr`: the value's image when the range is moved to start at `dest`. */
    function Tr(value: nat, dest: nat): (r: Option<nat>)
      ensures r.Some? <==> Contains(value)
      ensures r.Some? ==> r.value == value + dest - from
      ensures r.Some? ==> dest <= r.value <= dest + size - 1
      ensures r.Some? ==> r.value - dest + from == value
    {
      if from <= value && value <= To() then Some(value + dest - from) else None
    }

    /** `tr_range`: a sub-range moved by the same shift that moves this range to `dest`. */
    function TrRange(range: Range, dest: nat): (r: Range)
      requires range.from + dest >= from
      ensures r.size == range.size
      ensures forall w :: r.Contains(w) <==> range.Contains(w - dest + from)
    {
      Range(range.from + dest - from, range.size)
    }
  }

  lemma IntersectCommutes(a: Range, b: Range)
    ensures a.Intersect(b) == b.Intersect(a)
  {
  }

  // ---------------------------------------------------------------------
  // Translation rules
  // ---------------------------------------------------------------------

  /** A rule: every value of `source` moves by the same amount so that `source.from` lands on `dest`. */
  datatype TranslationRange = TranslationRange(source: Range, dest: nat) {

    /** The amount the rule adds to each value it covers. */
    function Offset(): int { dest - source.from }

    /** `tr`: the translated value, `None` when the rule does not cover it. */
    function Tr(val: nat): (r: Option<nat>)
      ensures r.Some? <==> source.Contains(val)
      ensures r.Some? ==> r.value == val + Offset()
    {
      source.Tr(val, dest)
    }

    /** `tr_range`: the image of the part of `range` the rule covers, `None` when it covers none. */
    function TrRange(range: Range): (r: Option<Range>)
      ensures r.None? <==> forall v :: !(source.Contains(v) && range.Contains(v))
      ensures r.Some? ==> r.value.size > 0
      ensures r.Some? ==> forall w :: r.value.Contains(w) <==>
        source.Contains(w - Offset()) && range.Contains(w - Offset())
    {
      match source.Intersect(range)
      case None => None
      case Some(intr) =>
        assert intr.Contains(intr.from);
        Some(source.TrRange(intr, dest))
    }

    /**
     * `join`: built from this rule's image of the overlap of the two
     * SOURCE ranges, keeping this rule's destination. It is not the
     * composition of the two rules (see JoinIsNotComposition).
     */
    function Join(other: TranslationRange): (r: Option<TranslationRange>)
      ensures r.None? <==> forall v :: !(source.Contains(v) && other.source.Contains(v))
      ensures r.Some? ==> r.value.dest == dest && r.value.source.size > 0
      ensures r.Some? ==> forall w :: r.value.source.Contains(w) <==>
        source.Contains(w - Offset()) && other.source.Contains(w - Offset())
    {
      match TrRange(other.source)
      case None => None
      case Some(inter) => Some(TranslationRange(inter, dest))
    }
  }

  /**
   * Joining a rule that sends 0..9 to 100..109 with a rule that sends
   * 100..109 to 200..209 gives nothing, although applying one after the
   * other sends 5 to 205.
   */
  lemma JoinIsNotComposition()
    ensures var a := TranslationRange(Range(0, 10), 100);
            var b := TranslationRange(Range(100, 10), 200);
            a.Join(b).None? && a.Tr(5) == Some(105) && b.Tr(105) == Some(205)
  {
    var a := TranslationRange(Range(0, 10), 100);
    var b := TranslationRange(Range(100, 10), 200);
    assert a.source.Intersect(b.source).None?;
  }

  // ---------------------------------------------------------------------
  // Rule lists
  // ---------------------------------------------------------------------

  /** The rules of one almanac map, in the order they were read. */
  datatype TranslationRanges = TranslationRanges(ranges: seq<TranslationRange>) {

    /** `intersect`: each rule of this list joined with `other`, where the join exists, in order. */
    function Intersect(other: TranslationRange): (r: seq<TranslationRange>)
      ensures |r| <= |ranges|
    {
      FilterSome(seq(|ranges|, i requires 0 <= i < |ranges| => ranges[i].Join(other)))
    }

    /** `Intersect` with each of `others`, in order. */
    function IntersectEach(others: seq<TranslationRange>): (r: seq<seq<TranslationRange>>)
      ensures |r| == |others|
      ensures forall j :: 0 <= j < |others| ==> r[j] == Intersect(others[j])
    {
      seq(|others|, j requires 0 <= j < |others| => Intersect(others[j]))
    }

    /** `join`: for each rule of `other` in turn, `Intersect` with it; the pieces concatenated. */
    function Join(other: TranslationRanges): (r: TranslationRanges)
      ensures |r.ranges| <= |ranges| * |other.ranges|
    {
      var pieces := IntersectEach(other.ranges);
      ConcatShape(pieces);
      TotalLengthBound(pieces, |ranges|);
      TranslationRanges(Concat(pieces))
    }

    /** The index of the first rule covering `val`, or `|ranges|` if none does. */
    function FirstRule(val: nat): (k: nat)
      ensures k <= |ranges|
      ensures forall j :: 0 <= j < k ==> !ranges[j].source.Contains(val)
      ensures k < |ranges| ==> ranges[k].source.Contains(val)
    {
      FirstRuleFrom(val, 0)
    }

    function FirstRuleFrom(val: nat, i: nat): (k: nat)
      requires i <= |ranges|
      ensures i <= k <= |ranges|
      ensures forall j :: i <= j < k ==> !ranges[j].source.Contains(val)
      ensures k < |ranges| ==> ranges[k].source.Contains(val)
      decreases |ranges| - i
    {
      if i == |ranges| || ranges[i].source.Contains(val) then i else FirstRuleFrom(val, i + 1)
    }

    /** `tr`: the translation by the first rule, in list order, that covers `val`. */
    function Tr(val: nat): (r: Option<nat>)
      ensures var k := FirstRule(val);
              r == if k < |ranges| then Some(val + ranges[k].Offset()) else None
    {
      var os := seq(|ranges|, i requires 0 <= i < |ranges| => ranges[i].Tr(val));
      FirstSomeIndexUnique(os, FirstRule(val));
      FirstSome(os)
    }
  }

  /** A rule is in `self.Intersect(y)` exactly when some rule of `self` joins with `y` to give it. */
  lemma IntersectMember(self: TranslationRanges, y: TranslationRange, x: TranslationRange)
    ensures x in self.Intersect(y) <==>
      exists i :: 0 <= i < |self.ranges| && self.ranges[i].Join(y) == Some(x)
  {
    var os := seq(|self.ranges|, i requires 0 <= i < |self.ranges| => self.ranges[i].Join(y));
    FilterSomeMember(os, x);
    if Some(x) in os {
      var i :| 0 <= i < |os| && os[i] == Some(x);
      assert self.ranges[i].Join(y) == Some(x);
    }
    if exists i :: 0 <= i < |self.ranges| && self.ranges[i].Join(y) == Some(x) {
      var i :| 0 <= i < |self.ranges| && self.ranges[i].Join(y) == Some(x);
      assert os[i] == Some(x);
    }
  }

  /** Every rule of a join comes from one rule of each list, and every such pair that overlaps gives one. */
  lemma JoinMembers(self: TranslationRanges, other: TranslationRanges, x: TranslationRange)
    ensures x in self.Join(other).ranges <==>
      exists i, j :: 0 <= i < |self.ranges| && 0 <= j < |other.ranges| &&
        self.ranges[i].Join(other.ranges[j]) == Some(x)
  {
    var pieces := self.IntersectEach(other.ranges);
    ConcatShape(pieces);
    if x in Concat(pieces) {
      var j :| 0 <= j < |pieces| && x in pieces[j];
      IntersectMember(self, other.ranges[j], x);
      var i :| 0 <= i < |self.ranges| && self.ranges[i].Join(other.ranges[j]) == Some(x);
    }
    if exists i, j :: 0 <= i < |self.ranges| && 0 <= j < |other.ranges| &&
        self.ranges[i].Join(other.ranges[j]) == Some(x) {
      var i, j :| 0 <= i < |self.ranges| && 0 <= j < |other.ranges| &&
        self.ranges[i].Join(other.ranges[j]) == Some(x);
      IntersectMember(self, other.ranges[j], x);
      assert x in pieces[j];
    }
  }

  /** `join` runs over `other` in the outer loop: the pieces for earlier rules of `other` come first. */
  lemma JoinOuterOrder(self: TranslationRanges, a: seq<TranslationRange>, b: seq<TranslationRange>)
    ensures self.Join(TranslationRanges(a + b)).ranges ==
      self.Join(TranslationRanges(a)).ranges + self.Join(TranslationRanges(b)).ranges
  {
    var pa, pb, pab := self.IntersectEach(a), self.IntersectEach(b), self.IntersectEach(a + b);
    forall j | 0 <= j < |pab|
      ensures pab[j] == (pa + pb)[j]
    {
      if j < |a| {
        assert (a + b)[j] == a[j];
      } else {
        assert (a + b)[j] == b[j - |a|];
      }
    }
    assert pab == pa + pb;
    ConcatAppend(pa, pb);
  }

  // ---------------------------------------------------------------------
  // One almanac map, with identity fallback
  // ---------------------------------------------------------------------

  datatype InputMap = InputMap(from: Category, trRanges: TranslationRanges) {

    /** `tr`: the first covering rule's translation, or the value itself when no rule covers it. */
    function Tr(val: nat): (r: nat)
      ensures var k := trRanges.FirstRule(val);
              r == if k < |trRanges.ranges| then val + trRanges.ranges[k].Offset() else val
    {
      match trRanges.Tr(val)
      case Some(w) => w
      case None => val
    }

    /** The rule images of `range`, one per rule, `None` for rules that miss it. */
    function Pieces(range: Range): seq<Option<Range>> {
      seq(|trRanges.ranges|, i requires 0 <= i < |trRanges.ranges| => trRanges.ranges[i].TrRange(range))
    }

    /**
     * `tr_range`: the images of `range` under every rule that overlaps it,
     * in rule order; `range` itself only when no rule overlaps it at all.
     */
    function TrRange(range: Range): (r: seq<Range>)
      ensures |r| >= 1
      ensures (forall i :: 0 <= i < |trRanges.ranges| ==>
                 forall v :: !(trRanges.ranges[i].source.Contains(v) && range.Contains(v)))
              ==> r == [range]
      ensures (exists i :: 0 <= i < |Pieces(range)| && Pieces(range)[i].Some?)
              ==> r == FilterSome(Pieces(range))
    {
      var v := FilterSome(Pieces(range));
      if |v| == 0 then [range] else v
    }

    /** `tr_ranges`: `tr_range` of each input range, concatenated in input order. */
    function TrRanges(ranges: seq<Range>): seq<Range> {
      Concat(seq(|ranges|, i requires 0 <= i < |ranges| => TrRange(ranges[i])))
    }
  }

  /**
   * Range and point translation agree where the range is either wholly
   * missed by the rules or the point is covered by one: the translated
   * point lies in one of the output pieces.
   */
  lemma TrRangeHoldsTr(m: InputMap, range: Range, v: nat)
    requires range.Contains(v)
    requires m.trRanges.FirstRule(v) < |m.trRanges.ranges| ||
             forall i :: 0 <= i < |m.trRanges.ranges| ==> m.trRanges.ranges[i].TrRange(range).None?
    ensures exists p :: p in m.TrRange(range) && p.Contains(m.Tr(v))
  {
    var rules := m.trRanges.ranges;
    var k := m.trRanges.FirstRule(v);
    if k < |rules| {
      var piece := rules[k].TrRange(range);
      assert piece.Some? && piece.value.Contains(v + rules[k].Offset());
      FilterSomeMember(m.Pieces(range), piece.value);
      assert m.Pieces(range)[k] == piece;
      assert piece.value in m.TrRange(range);
    } else {
      assert m.TrRange(range) == [range];
      assert m.Tr(v) == v;
    }
  }

  /**
   * Every output piece is accounted for: when no rule meets the range it is
   * the range itself, and otherwise it is one rule's image of the range, so
   * each of its values is a value of the range, covered by that rule and
   * shifted by its offset.
   */
  lemma TrRangeSound(m: InputMap, range: Range, p: Range, w: int)
    requires p in m.TrRange(range) && p.Contains(w)
    ensures (forall i :: 0 <= i < |m.trRanges.ranges| ==> m.trRanges.ranges[i].TrRange(range).None?) ==>
      p == range
    ensures (exists i :: 0 <= i < |m.trRanges.ranges| && m.trRanges.ranges[i].TrRange(range).Some?) ==>
      exists i :: 0 <= i < |m.trRanges.ranges| && m.trRanges.ranges[i].TrRange(range) == Some(p) &&
        m.trRanges.ranges[i].source.Contains(w - m.trRanges.ranges[i].Offset()) &&
        range.Contains(w - m.trRanges.ranges[i].Offset())
  {
    var v := FilterSome(m.Pieces(range));
    if |v| != 0 {
      FilterSomeMember(m.Pieces(range), p);
      var i :| 0 <= i < |m.Pieces(range)| && m.Pieces(range)[i] == Some(p);
      assert m.trRanges.ranges[i].TrRange(range) == Some(p);
    } else {
      assert forall i :: 0 <= i < |m.trRanges.ranges| ==> m.Pieces(range)[i] == m.trRanges.ranges[i].TrRange(range);
    }
  }

  /**
   * `tr_range` does not keep the uncovered part of a partly covered range:
   * with one rule sending 0..4 to 10..14, the range 3..7 becomes 13..14
   * alone, and 6, which the map leaves at 6, is in no output piece.
   */
  lemma TrRangeDropsUncovered()
    ensures var m := InputMap(Seed, TranslationRanges([TranslationRange(Range(0, 5), 10)]));
            m.TrRange(Range(3, 5)) == [Range(13, 2)] && m.Tr(6) == 6
  {
    var m := InputMap(Seed, TranslationRanges([TranslationRange(Range(0, 5), 10)]));
    assert m.Pieces(Range(3, 5)) == [Some(Range(13, 2))];
    assert FilterSome(m.Pieces(Range(3, 5))) == [Range(13, 2)];
  }

  /** `tr_ranges` handles its inputs one after another. */
  lemma TrRangesAppend(m: InputMap, a: seq<Range>, b: seq<Range>)
    ensures m.TrRanges(a + b) == m.TrRanges(a) + m.TrRanges(b)
    ensures m.TrRanges([]) == []
  {
    var pa := seq(|a|, i requires 0 <= i < |a| => m.TrRange(a[i]));
    var pb := seq(|b|, i requires 0 <= i < |b| => m.TrRange(b[i]));
    var ab := a + b;
    assert seq(|ab|, i requires 0 <= i < |ab| => m.TrRange(ab[i])) == pa + pb;
    ConcatAppend(pa, pb);
  }

  /**
   * `tr_ranges` loses no input range and invents nothing: it yields at least
   * one piece per input range, and its pieces are exactly the pieces
   * `tr_range` yields for some input range.
   */
  lemma TrRangesMembers(m: InputMap, rs: seq<Range>)
    ensures |m.TrRanges(rs)| >= |rs|
    ensures forall p :: p in m.TrRanges(rs) <==> exists i :: 0 <= i < |rs| && p in m.TrRange(rs[i])
  {
    var ps := seq(|rs|, i requires 0 <= i < |rs| => m.TrRange(rs[i]));
    assert m.TrRanges(rs) == Concat(ps);
    ConcatShape(ps);
    assert forall i :: 0 <= i < |ps| ==> ps[i] == m.TrRange(rs[i]) && |ps[i]| >= 1;
    TotalLengthFloor(ps, 1);
  }

  /** The worked example: seeds 79, 14, 55, 13 through the seed-to-soil map. */
  lemma SeedToSoilExample()
    ensures var m := InputMap(Seed, TranslationRanges([TranslationRange(Range(98, 2), 50),
                                                      TranslationRange(Range(50, 48), 52)]));
            m.Tr(79) == 81 && m.Tr(14) == 14 && m.Tr(55) == 57 && m.Tr(13) == 13
  {
  }

  // ---------------------------------------------------------------------
  // The seven-stage chain
  // ---------------------------------------------------------------------

  /** The maps of the chain, named by the category each one starts from. */
  datatype InputSet = InputSet(seed: InputMap, soil: InputMap, fertilizer: InputMap, water: InputMap,
                               light: InputMap, temperature: InputMap, humidity: InputMap) {

    function Stages(): seq<InputMap> {
      [seed, soil, fertilizer, water, light, temperature, humidity]
    }

    /** `tr`: a seed's location, through seed, soil, ..., humidity in that order. */
    function Tr(s: nat): nat {
      var soilValue := seed.Tr(s);
      var fertilizerValue := soil.Tr(soilValue);
      var waterValue := fertilizer.Tr(fertilizerValue);
      var lightValue := water.Tr(waterValue);
      var temperatureValue := light.Tr(lightValue);
      var humidityValue := temperature.Tr(temperatureValue);
      humidity.Tr(humidityValue)
    }
  }

  /** Applying a list of maps one after another. */
  function Chain(stages: seq<InputMap>, v: nat): nat {
    if stages == [] then v else Chain(stages[1..], stages[0].Tr(v))
  }

  /** The seven named steps of `InputSet::tr` are the chain of its stages, in order. */
  lemma InputSetTrIsChain(inputSet: InputSet, s: nat)
    ensures inputSet.Tr(s) == Chain(inputSet.Stages(), s)
  {
    var InputSet(a, b, c, d, e, f, g) := inputSet;
    var v1 := a.Tr(s);
    var v2 := b.Tr(v1);
    var v3 := c.Tr(v2);
    var v4 := d.Tr(v3);
    var v5 := e.Tr(v4);
    var v6 := f.Tr(v5);
    calc {
      Chain([a, b, c, d, e, f, g], s);
      { assert [a, b, c, d, e, f, g][1..] == [b, c, d, e, f, g]; }
      Chain([b, c, d, e, f, g], v1);
      { assert [b, c, d, e, f, g][1..] == [c, d, e, f, g]; }
      Chain([c, d, e, f, g], v2);
      { assert [c, d, e, f, g][1..] == [d, e, f, g]; }
      Chain([d, e, f, g], v3);
      { assert [d, e, f, g][1..] == [e, f, g]; }
      Chain([e, f, g], v4);
      { assert [e, f, g][1..] == [f, g]; }
      Chain([f, g], v5);
      { assert [f, g][1..] == [g]; }
      Chain([g], v6);
      { assert [g][1..] == []; }
      Chain([], g.Tr(v6));
      g.Tr(v6);
    }
  }

  /** A chain can be cut anywhere: the tail runs on what the head produced. */
  lemma {:induction false} ChainAppend(a: seq<InputMap>, b: seq<InputMap>, v: nat)
    ensures Chain(a + b, v) == Chain(b, Chain(a, v))
  {
    if a == [] {
      assert a + b == b;
    } else {
      assert (a + b)[1..] == a[1..] + b;
      ChainAppend(a[1..], b, a[0].Tr(v));
    }
  }

  /** `InputSet::filter`: the first map that starts from `category`. */
  function FindMap(maps: seq<InputMap>, category: Category): (r: Result<InputMap>)
    ensures r.Err? <==> forall i :: 0 <= i < |maps| ==> maps[i].from != category
    ensures r.Ok? ==> r.value in maps && r.value.from == category
    ensures r.Ok? ==> (exists k :: 0 <= k < |maps| && maps[k] == r.value &&
                         forall j :: 0 <= j < k ==> maps[j].from != category)
  {
    if maps == [] then Err("seed?")
    else if maps[0].from == category then Ok(maps[0])
    else
      var r := FindMap(maps[1..], category);
      if r.Ok? then
        var k :| 0 <= k < |maps[1..]| && maps[1..][k] == r.value &&
          forall j :: 0 <= j < k ==> maps[1..][j].from != category;
        assert maps[k + 1] == r.value;
        r
      else
        r
  }

  /** `InputSet::of`: the first map for each of the seven starting categories. */
  function InputSetOf(maps: seq<InputMap>): (r: Result<InputSet>)
    ensures r.Ok? ==> forall m :: m in r.value.Stages() ==> m in maps
    ensures r.Ok? ==> (r.value.seed.from == Seed && r.value.soil.from == Soil &&
                       r.value.fertilizer.from == Fertilizer && r.value.water.from == Water &&
                       r.value.light.from == Light && r.value.temperature.from == Temperature &&
                       r.value.humidity.from == Humidity)
  {
    var seed :- FindMap(maps, Seed);
    var soil :- FindMap(maps, Soil);
    var fertilizer :- FindMap(maps, Fertilizer);
    var water :- FindMap(maps, Water);
    var light :- FindMap(maps, Light);
    var temperature :- FindMap(maps, Temperature);
    var humidity :- FindMap(maps, Humidity);
    Ok(InputSet(seed, soil, fertilizer, water, light, temperature, humidity))
  }
  /** No map starts from `c`. */
  predicate Missing(maps: seq<InputMap>, c: Category) {
    forall i :: 0 <= i < |maps| ==> maps[i].from != c
  }

  /** `InputSet::of` fails exactly when one of the seven starting categories has no map. */
  lemma InputSetOfFails(maps: seq<InputMap>)
    ensures InputSetOf(maps).Err? <==>
      Missing(maps, Seed) || Missing(maps, Soil) || Missing(maps, Fertilizer) || Missing(maps, Water) ||
      Missing(maps, Light) || Missing(maps, Temperature) || Missing(maps, Humidity)
  {
    assert InputSetOf(maps).Err? <==>
      FindMap(maps, Seed).Err? || FindMap(maps, Soil).Err? || FindMap(maps, Fertilizer).Err? ||
      FindMap(maps, Water).Err? || FindMap(maps, Light).Err? || FindMap(maps, Temperature).Err? ||
      FindMap(maps, Humidity).Err?;
  }

  // ---------------------------------------------------------------------
  // Parsing the almanac
  // ---------------------------------------------------------------------

  /** `seeds`: the numbers after the header's first space, one per single space. */
  function Seeds(line: string): (r: Result<seq<nat>>)
    ensures r.Ok? ==> ' ' in line
  {
    match FindChar(line, ' ')
    case None => Err("space?")
    case Some(space) => ParseNats(Split(line[space + 1..], ' '))
  }

  /** A header written with single spaces parses back to its numbers. */
  lemma SeedsRoundTrip(heading: string, ns: seq<nat>)
    requires ' ' !in heading && |ns| >= 1
    ensures Seeds(heading + " " + JoinWith(ShowNats(ns), ' ')) == Ok(ns)
  {
    var line := heading + " " + JoinWith(ShowNats(ns), ' ');
    assert line[|heading|] == ' ';
    assert forall j :: 0 <= j < |heading| ==> line[j] == heading[j];
    assert FindChar(line, ' ') == Some(|heading|);
    assert line[|heading| + 1..] == JoinWith(ShowNats(ns), ' ');
    ParseShowNats(ns);
  }

  /** The ranges read from a list of numbers taken two at a time; a last odd one is dropped. */
  function Pairs(ns: seq<nat>): (r: seq<Range>)
    ensures |r| == |ns| / 2
  {
    if |ns| < 2 then [] else [Range(ns[0], ns[1])] + Pairs(ns[2..])
  }

  /** Every second number of every pair is positive. */
  predicate PairSizesPositive(ns: seq<nat>) {
    |ns| < 2 || (ns[1] > 0 && PairSizesPositive(ns[2..]))
  }

  /** The fold inside `seed_pairs`: `prev` holds the start of a pair whose size comes next. */
  function PairUp(toks: seq<string>, prev: Option<nat>): Result<seq<Range>> {
    if toks == [] then Ok([])
    else
      match ParseNat(toks[0])
      case None => Err("invalid digit found in string")
      case Some(next) =>
        match prev
        case None => PairUp(toks[1..], Some(next))
        case Some(start) =>
          match Range.StartSize(start, next)
          case None => Err("size?")
          case Some(range) =>
            var rest :- PairUp(toks[1..], None);
            Ok([range] + rest)
  }

  /** `seed_pairs`: the header's numbers as (start, size) ranges. */
  function SeedPairs(line: string): Result<seq<Range>> {
    match FindChar(line, ' ')
    case None => Err("space?")
    case Some(space) => PairUp(Split(line[space + 1..], ' '), None)
  }

  /** The number list a token list parses to, one number at a time. */
  lemma ParseNatsCons(toks: seq<string>)
    requires toks != [] && ParseNat(toks[0]).Some?
    ensures ParseNats(toks).Ok? <==> ParseNats(toks[1..]).Ok?
    ensures ParseNats(toks).Ok? ==> ParseNats(toks).value == [ParseNat(toks[0]).value] + ParseNats(toks[1..]).value
  {
  }

  /**
   * The pairing fold succeeds exactly when every token parses and every
   * size (counting a pending start `prev` first) is positive, and then it
   * pairs the numbers up in order.
   */
  lemma {:induction false} PairUpParses(toks: seq<string>, prev: Option<nat>)
    ensures var lead := if prev.Some? then [prev.value] else [];
            PairUp(toks, prev).Ok? <==>
              ParseNats(toks).Ok? && PairSizesPositive(lead + ParseNats(toks).value)
    ensures var lead := if prev.Some? then [prev.value] else [];
            PairUp(toks, prev).Ok? ==> PairUp(toks, prev).value == Pairs(lead + ParseNats(toks).value)
    decreases |toks|, 1
  {
    if toks == [] {
      var lead := if prev.Some? then [prev.value] else [];
      assert lead + [] == lead;
    } else if ParseNat(toks[0]).None? {
      assert PairUp(toks, prev).Err?;
      assert ParseNats(toks).Err?;
    } else if prev.None? {
      PairUpStart(toks);
      if ParseNats(toks).Ok? {
        assert [] + ParseNats(toks).value == ParseNats(toks).value;
      }
    } else {
      PairUpSize(toks, prev.value);
    }
  }

  /** The step of `PairUpParses` that reads a start. */
  lemma {:induction false} PairUpStart(toks: seq<string>)
    requires toks != [] && ParseNat(toks[0]).Some?
    ensures PairUp(toks, None).Ok? <==> ParseNats(toks).Ok? && PairSizesPositive(ParseNats(toks).value)
    ensures PairUp(toks, None).Ok? ==> PairUp(toks, None).value == Pairs(ParseNats(toks).value)
    decreases |toks|, 0
  {
    var next := ParseNat(toks[0]).value;
    ParseNatsCons(toks);
    PairUpParses(toks[1..], Some(next));
    assert PairUp(toks, None) == PairUp(toks[1..], Some(next));
  }

  /** The step of `PairUpParses` that reads a size for the pending `start`. */
  lemma {:induction false} PairUpSize(toks: seq<string>, start: nat)
    requires toks != [] && ParseNat(toks[0]).Some?
    ensures PairUp(toks, Some(start)).Ok? <==>
              ParseNats(toks).Ok? && PairSizesPositive([start] + ParseNats(toks).value)
    ensures PairUp(toks, Some(start)).Ok? ==>
              PairUp(toks, Some(start)).value == Pairs([start] + ParseNats(toks).value)
    decreases |toks|, 0
  {
    var next := ParseNat(toks[0]).value;
    ParseNatsCons(toks);
    PairUpParses(toks[1..], None);
    if ParseNats(toks).Ok? {
      var rest := ParseNats(toks[1..]).value;
      var all := [start] + ParseNats(toks).value;
      assert all == [start, next] + rest;
      assert all[2..] == [] + rest;
    }
  }

  /**
   * `seed_pairs` succeeds exactly when `seeds` does and no pair has size 0;
   * it then gives the numbers paired up in order.
   */
  lemma SeedPairsAgreeWithSeeds(line: string)
    ensures SeedPairs(line).Ok? <==> Seeds(line).Ok? && PairSizesPositive(Seeds(line).value)
    ensures SeedPairs(line).Ok? ==> SeedPairs(line).value == Pairs(Seeds(line).value)
  {
    match FindChar(line, ' ')
    case None =>
    case Some(space) =>
      var toks := Split(line[space + 1..], ' ');
      PairUpParses(toks, None);
      if ParseNats(toks).Ok? {
        assert [] + ParseNats(toks).value == ParseNats(toks).value;
      }
  }

  /** `TranslationRange::from`: fields dest, source start, length; a missing field panics. */
  function RuleFrom(parts: seq<string>): (r: Result<TranslationRange>)
    ensures r.Ok? <==> (|parts| >= 3 && ParseNat(parts[0]).Some? && ParseNat(parts[1]).Some? &&
                        ParseNat(parts[2]).Some? && ParseNat(parts[2]).value > 0)
    ensures r.Ok? ==> r.value == TranslationRange(Range(ParseNat(parts[1]).value, ParseNat(parts[2]).value),
                                                  ParseNat(parts[0]).value)
  {
    if |parts| < 2 then Err("index out of bounds")
    else
      match ParseNat(parts[1])
      case None => Err("invalid digit found in string")
      case Some(from) =>
        if |parts| < 3 then Err("index out of bounds")
        else
          match ParseNat(parts[2])
          case None => Err("invalid digit found in string")
          case Some(size) =>
            match ParseNat(parts[0])
            case None => Err("invalid digit found in string")
            case Some(dest) =>
              match Range.StartSize(from, size)
              case None => Err("range?")
              case Some(source) => Ok(TranslationRange(source, dest))
  }

  /** The text of a rule line. */
  function RuleLine(rule: TranslationRange): string {
    JoinWith(ShowNats([rule.dest, rule.source.from, rule.source.size]), ' ')
  }

  /** A rule line read back (split at most three ways, as the reader does) gives the rule. */
  lemma RuleLineRoundTrip(rule: TranslationRange)
    requires rule.source.size > 0
    ensures RuleFrom(SplitN(RuleLine(rule), 3, ' ')) == Ok(rule)
  {
    var shown := ShowNats([rule.dest, rule.source.from, rule.source.size]);
    forall k | 0 <= k < 3
      ensures ' ' !in shown[k]
    {
      ParseShowNat([rule.dest, rule.source.from, rule.source.size][k]);
      ParsedHasNoSpace(shown[k]);
    }
    ParseShowNat(rule.dest);
    ParseShowNat(rule.source.from);
    ParseShowNat(rule.source.size);
    SplitNOfJoin(shown, 3, ' ');
  }

  /**
   * The rule lines of one map, from line `i` up to a blank line (consumed)
   * or the end of input; also the index of the first line not consumed.
   */
  function ReadRules(lines: seq<string>, i: nat): (r: Result<(seq<TranslationRange>, nat)>)
    requires i <= |lines|
    ensures r.Ok? ==> i <= r.value.1 <= |lines|
    decreases |lines| - i
  {
    if i == |lines| then Ok(([], i))
    else if |lines[i]| == 0 then Ok(([], i + 1))
    else
      var rule :- RuleFrom(SplitN(lines[i], 3, ' '));
      var rest :- ReadRules(lines, i + 1);
      Ok(([rule] + rest.0, rest.1))
  }

  /**
   * `InputMap::read` as a function of the input and the reading position:
   * `None` at the end of input, otherwise the map whose title is at `pos`,
   * with the position after it.
   */
  function ReadMap(lines: seq<string>, pos: nat): (r: Result<Option<(InputMap, nat)>>)
    ensures r.Ok? && r.value.Some? ==> pos < r.value.value.1 <= |lines|
    ensures r == Ok(None) <==> pos >= |lines|
    ensures pos < |lines| && Find(lines[pos], "-to-").None? ==> r == Err("'-to-' ?")
  {
    if pos >= |lines| then Ok(None)
    else
      match Find(lines[pos], "-to-")
      case None => Err("'-to-' ?")
      case Some(sep) =>
        var rules :- ReadRules(lines, pos + 1);
        var category :- CategoryOf(lines[pos][..sep]);
        Ok(Some((InputMap(category, TranslationRanges(rules.0)), rules.1)))
  }

  /** Lines `i`, `i + 1`, ... are non-blank and read as `rules`, in order. */
  predicate RuleLinesAt(lines: seq<string>, i: nat, rules: seq<TranslationRange>)
    decreases |rules|
  {
    if rules == [] then i <= |lines|
    else
      i < |lines| && |lines[i]| > 0 && RuleFrom(SplitN(lines[i], 3, ' ')) == Ok(rules[0]) &&
      RuleLinesAt(lines, i + 1, rules[1..])
  }

  /** A successful `ReadRules` at a non-blank line read that line's rule, then the rest. */
  lemma ReadRulesStep(lines: seq<string>, i: nat)
    requires i < |lines| && |lines[i]| > 0 && ReadRules(lines, i).Ok?
    ensures RuleFrom(SplitN(lines[i], 3, ' ')).Ok? && ReadRules(lines, i + 1).Ok?
    ensures ReadRules(lines, i).value ==
      ([RuleFrom(SplitN(lines[i], 3, ' ')).value] + ReadRules(lines, i + 1).value.0, ReadRules(lines, i + 1).value.1)
  {
  }

  /**
   * What a successful `ReadRules` consumed: non-blank rule lines, each read
   * as the rule at its place, then a blank line or the end of input.
   */
  lemma {:induction false} ReadRulesShape(lines: seq<string>, i: nat)
    requires i <= |lines| && ReadRules(lines, i).Ok?
    ensures RuleLinesAt(lines, i, ReadRules(lines, i).value.0)
    decreases |lines| - i
  {
    if i == |lines| {
      assert ReadRules(lines, i) == Ok(([], i));
    } else if |lines[i]| == 0 {
      assert ReadRules(lines, i) == Ok(([], i + 1));
    } else {
      ReadRulesStep(lines, i);
      var rule := RuleFrom(SplitN(lines[i], 3, ' ')).value;
      var rest := ReadRules(lines, i + 1).value;
      ReadRulesShape(lines, i + 1);
      var rules := [rule] + rest.0;
      assert rules[1..] == rest.0;
      assert RuleLinesAt(lines, i, rules);
    }
  }

  /** Reading rules stops at the first blank line, which it consumes, or at the end of input. */
  lemma {:induction false} ReadRulesStop(lines: seq<string>, i: nat)
    requires i <= |lines| && ReadRules(lines, i).Ok?
    ensures StopsAtBlank(lines, i, |ReadRules(lines, i).value.0|, ReadRules(lines, i).value.1)
    decreases |lines| - i
  {
    if i == |lines| {
      assert ReadRules(lines, i) == Ok(([], i));
    } else if |lines[i]| == 0 {
      assert ReadRules(lines, i) == Ok(([], i + 1));
    } else {
      ReadRulesStep(lines, i);
      ReadRulesStop(lines, i + 1);
      StopsAtBlankStep(lines, i, |ReadRules(lines, i + 1).value.0|, ReadRules(lines, i + 1).value.1);
    }
  }

  /**
   * `count` rule lines read from `i` end at `next`: either just after the
   * blank line that follows them, or at the end of input.
   */
  predicate StopsAtBlank(lines: seq<string>, i: nat, count: nat, next: nat) {
    (next == i + count + 1 && next <= |lines| && |lines[next - 1]| == 0) ||
    (next == i + count && next == |lines|)
  }

  /** One more rule line in front of a run that stops at a blank line ends at the same place. */
  lemma StopsAtBlankStep(lines: seq<string>, i: nat, count: nat, next: nat)
    requires StopsAtBlank(lines, i + 1, count, next)
    ensures StopsAtBlank(lines, i, count + 1, next)
  {
  }

  /** A map read from the title at `pos`: its category is the title's text before "-to-". */
  lemma ReadMapShape(lines: seq<string>, pos: nat)
    requires ReadMap(lines, pos).Ok? && ReadMap(lines, pos).value.Some?
    ensures pos < |lines| && Find(lines[pos], "-to-").Some?
    ensures var (m, next) := ReadMap(lines, pos).value.value;
            CategoryOf(lines[pos][..Find(lines[pos], "-to-").value]) == Ok(m.from) &&
            ReadRules(lines, pos + 1) == Ok((m.trRanges.ranges, next))
  {
  }

  /** Every map from position `pos` on, until `InputMap::read` reports the end of input. */
  function ReadMaps(lines: seq<string>, pos: nat): Result<seq<InputMap>>
    decreases |lines| - pos
  {
    var r :- ReadMap(lines, pos);
    match r
    case None => Ok([])
    case Some((m, next)) =>
      var rest :- ReadMaps(lines, next);
      Ok([m] + rest)
  }

  // ---------------------------------------------------------------------
  // Reading, imperatively, as the source does
  // ---------------------------------------------------------------------

  /** `rules` put in front of what a later read of rule lines gives. */
  function PrependRules(rules: seq<TranslationRange>, r: Result<(seq<TranslationRange>, nat)>): Result<(seq<TranslationRange>, nat)> {
    match r
    case Err(e) => Err(e)
    case Ok((rest, n)) => Ok((rules + rest, n))
  }

  /** One non-blank rule line read: its rule goes in front of the rest. */
  lemma ReadRulesUnfold(lines: seq<string>, i: nat, ranges: seq<TranslationRange>)
    requires i < |lines| && |lines[i]| > 0
    ensures RuleFrom(SplitN(lines[i], 3, ' ')).Err? ==>
      PrependRules(ranges, ReadRules(lines, i)) == Err(RuleFrom(SplitN(lines[i], 3, ' ')).msg)
    ensures RuleFrom(SplitN(lines[i], 3, ' ')).Ok? ==>
      PrependRules(ranges, ReadRules(lines, i)) ==
      PrependRules(ranges + [RuleFrom(SplitN(lines[i], 3, ' ')).value], ReadRules(lines, i + 1))
  {
    var rule := RuleFrom(SplitN(lines[i], 3, ' '));
    if rule.Ok? && ReadRules(lines, i + 1).Ok? {
      var rest := ReadRules(lines, i + 1).value.0;
      assert ranges + ([rule.value] + rest) == (ranges + [rule.value]) + rest;
    }
  }

  /** `maps` put in front of what a later read of maps gives. */
  function PrependMaps(maps: seq<InputMap>, r: Result<seq<InputMap>>): Result<seq<InputMap>> {
    match r
    case Err(e) => Err(e)
    case Ok(rest) => Ok(maps + rest)
  }

  /** One map read: it goes in front of the rest. */
  lemma ReadMapsUnfold(lines: seq<string>, pos: nat, maps: seq<InputMap>)
    ensures ReadMap(lines, pos).Err? ==> PrependMaps(maps, ReadMaps(lines, pos)) == Err(ReadMap(lines, pos).msg)
    ensures ReadMap(lines, pos) == Ok(None) ==> PrependMaps(maps, ReadMaps(lines, pos)) == Ok(maps)
    ensures ReadMap(lines, pos).Ok? && ReadMap(lines, pos).value.Some? ==>
      var (m, next) := ReadMap(lines, pos).value.value;
      PrependMaps(maps, ReadMaps(lines, pos)) == PrependMaps(maps + [m], ReadMaps(lines, next))
  {
    if ReadMap(lines, pos) == Ok(None) {
      assert maps + [] == maps;
    }
    if ReadMap(lines, pos).Ok? && ReadMap(lines, pos).value.Some? {
      var (m, next) := ReadMap(lines, pos).value.value;
      if ReadMaps(lines, next).Ok? {
        var rest := ReadMaps(lines, next).value;
        assert maps + ([m] + rest) == (maps + [m]) + rest;
      }
    }
  }

  /**
   * `InputMap::read`: consumes the title line at `pos` and the rule lines
   * after it; `next` is where the line iterator stands afterwards.
   */
  method Read(lines: seq<string>, pos: nat) returns (r: Result<Option<InputMap>>, next: nat)
    ensures match ReadMap(lines, pos)
            case Err(e) => r == Err(e)
            case Ok(None) => r == Ok(None)
            case Ok(Some((m, n))) => r == Ok(Some(m)) && next == n
  {
    if pos >= |lines| {
      return Ok(None), pos;
    }
    var titleLine := lines[pos];
    var fromSep := Find(titleLine, "-to-");
    if fromSep.None? {
      return Err("'-to-' ?"), pos + 1;
    }
    var from := titleLine[..fromSep.value];
    var ranges: seq<TranslationRange> := [];
    var i := pos + 1;
    var done := false;
    if ReadRules(lines, i).Ok? {
      assert ranges + ReadRules(lines, i).value.0 == ReadRules(lines, i).value.0;
    }
    while !done
      invariant pos + 1 <= i <= |lines|
      invariant done ==> ReadRules(lines, pos + 1) == Ok((ranges, i))
      invariant !done ==> ReadRules(lines, pos + 1) == PrependRules(ranges, ReadRules(lines, i))
      decreases (if done then 0 else 1), |lines| - i
    {
      if i == |lines| {
        assert ranges + [] == ranges;
        done := true;
      } else {
        var line := lines[i];
        if |line| == 0 {
          assert ranges + [] == ranges;
          i := i + 1;
          done := true;
        } else {
          ReadRulesUnfold(lines, i, ranges);
          var parts := SplitN(line, 3, ' ');
          var rule := RuleFrom(parts);
          if rule.Err? {
            return Err(rule.msg), i + 1;
          }
          ranges := ranges + [rule.value];
          i := i + 1;
        }
      }
    }
    var category := CategoryOf(from);
    if category.Err? {
      return Err(category.msg), i;
    }
    return Ok(Some(InputMap(category.value, TranslationRanges(ranges)))), i;
  }

  /** Each seed's location, in seed order. */
  function Locations(seeds: seq<nat>, inputSet: InputSet): (r: seq<nat>)
    ensures |r| == |seeds|
    ensures forall i :: 0 <= i < |seeds| ==> r[i] == inputSet.Tr(seeds[i])
  {
    seq(|seeds|, i requires 0 <= i < |seeds| => inputSet.Tr(seeds[i]))
  }

  /** `.map(tr).min()`: the lowest location of any of the seeds; an error when there are none. */
  function LowestLocation(seeds: seq<nat>, inputSet: InputSet): (r: Result<nat>)
    ensures r.Ok? <==> |seeds| > 0
    ensures r.Ok? ==> r.value in Locations(seeds, inputSet)
    ensures r.Ok? ==> forall i :: 0 <= i < |seeds| ==> r.value <= Locations(seeds, inputSet)[i]
  {
    match Min(Locations(seeds, inputSet))
    case None => Err("min?")
    case Some(m) => Ok(m)
  }

  /** The lowest location is attained by some seed and no seed's location is below it. */
  lemma LowestLocationIsMinimum(seeds: seq<nat>, inputSet: InputSet)
    requires |seeds| > 0
    ensures LowestLocation(seeds, inputSet).Ok?
    ensures exists i :: 0 <= i < |seeds| && LowestLocation(seeds, inputSet).value == inputSet.Tr(seeds[i])
    ensures forall i :: 0 <= i < |seeds| ==> LowestLocation(seeds, inputSet).value <= inputSet.Tr(seeds[i])
  {
    var locations := Locations(seeds, inputSet);
    var m := LowestLocation(seeds, inputSet).value;
    var i :| 0 <= i < |locations| && locations[i] == m;
    assert m == inputSet.Tr(seeds[i]);
  }

  /** Part 1 as a function of the input lines: header, one skipped line, the maps, the lowest location. */
  function Part1(lines: seq<string>): Result<nat> {
    if |lines| == 0 then Err("first?")
    else
      var seeds :- Seeds(lines[0]);
      if |lines| < 2 then Err("next?")
      else
        var maps :- ReadMaps(lines, 2);
        var inputSet :- InputSetOf(maps);
        LowestLocation(seeds, inputSet)
  }

  /** The `loop` of `p1` and `p2`: `InputMap::read` until it gives `None`, pushing each map. */
  method ReadAll(lines: seq<string>, start: nat) returns (r: Result<seq<InputMap>>)
    ensures r == ReadMaps(lines, start)
  {
    var inputMaps: seq<InputMap> := [];
    var pos := start;
    var done := false;
    if ReadMaps(lines, pos).Ok? {
      assert inputMaps + ReadMaps(lines, pos).value == ReadMaps(lines, pos).value;
    }
    while !done
      invariant done ==> ReadMaps(lines, start) == Ok(inputMaps)
      invariant !done ==> ReadMaps(lines, start) == PrependMaps(inputMaps, ReadMaps(lines, pos))
      decreases (if done then 0 else 1), |lines| - pos
    {
      ReadMapsUnfold(lines, pos, inputMaps);
      var read, next := Read(lines, pos);
      if read.Err? {
        return Err(read.msg);
      }
      match read.value
      case None =>
        done := true;
      case Some(m) =>
        inputMaps := inputMaps + [m];
        pos := next;
    }
    r := Ok(inputMaps);
  }

  /** `p1` without the file and the printing: read the header, every map, then take the minimum. */
  method SolvePart1(lines: seq<string>) returns (r: Result<nat>)
    ensures r == Part1(lines)
  {
    if |lines| == 0 {
      return Err("first?");
    }
    var seeds := Seeds(lines[0]);
    if seeds.Err? {
      return Err(seeds.msg);
    }
    if |lines| < 2 {
      return Err("next?");
    }
    var inputMaps := ReadAll(lines, 2);
    if inputMaps.Err? {
      return Err(inputMaps.msg);
    }
    var inputSet := InputSetOf(inputMaps.value);
    if inputSet.Err? {
      return Err(inputSet.msg);
    }
    r := LowestLocation(seeds.value, inputSet.value);
  }

  /**
   * The live part of `p2`: the seed ranges from the header, one skipped line,
   * every map and the seven-map lookup, each able to fail; the range
   * translation after it is not part of the program, so success carries no value.
   */
  function Part2(lines: seq<string>): Result<()> {
    if |lines| == 0 then Err("first?")
    else
      var pairs :- SeedPairs(lines[0]);
      if |lines| < 2 then Err("next?")
      else
        var maps :- ReadMaps(lines, 2);
        var inputSet :- InputSetOf(maps);
        Ok(())
  }

  /**
   * Part 2 succeeds exactly when the header holds seed ranges of positive size
   * and the maps read and cover the seven categories; then part 1 succeeds on
   * the same input too, unless the header holds no seeds at all.
   */
  lemma Part2Outcome(lines: seq<string>)
    ensures Part2(lines).Ok? <==>
      |lines| >= 2 && Seeds(lines[0]).Ok? && PairSizesPositive(Seeds(lines[0]).value) &&
      ReadMaps(lines, 2).Ok? && InputSetOf(ReadMaps(lines, 2).value).Ok?
    ensures Part2(lines).Ok? ==> Part1(lines).Ok? || Seeds(lines[0]).value == []
  {
    if |lines| > 0 {
      SeedPairsAgreeWithSeeds(lines[0]);
    }
  }

  /** `p2` without the file: read the seed ranges, every map, and look up the seven maps. */
  method SolvePart2(lines: seq<string>) returns (r: Result<()>)
    ensures r == Part2(lines)
  {
    if |lines| == 0 {
      return Err("first?");
    }
    var pairs := SeedPairs(lines[0]);
    if pairs.Err? {
      return Err(pairs.msg);
    }
    if |lines| < 2 {
      return Err("next?");
    }
    var inputMaps := ReadAll(lines, 2);
    if inputMaps.Err? {
      return Err(inputMaps.msg);
    }
    var inputSet := InputSetOf(inputMaps.value);
    if inputSet.Err? {
      return Err(inputSet.msg);
    }
    r := Ok(());
  }
}
