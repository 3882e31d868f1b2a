/** The scaling part of `createFlowerSVG` in script.js. A record's ten
    category counts become ten petals in a fixed order, one per step of
    2π/10. The local range of the glyph is the minimum and maximum of those
    ten values; each value is mapped linearly onto a petal length in
    [10, 20] and a stroke width in [1, 5]. Arithmetic follows JavaScript's
    NaN rules: a NaN operand, or the 0/0 of a constant glyph, gives NaN. */
module Flower {
  import opened Wrappers
  import opened Records
  import Text

  /** The ten crime categories, one per petal. */
  datatype Category =
    | Drug | Financial | LowLevelProperty | LowLevelViolent | NonCriminal
    | PublicOrder | SevereProperty | SevereViolent | SexualOffenses | Weapon

  /** The petal order of the glyph, clockwise from angle 0. */
  const PetalOrder: seq<Category> := [
    Drug, Financial, LowLevelProperty, LowLevelViolent, NonCriminal,
    PublicOrder, SevereProperty, SevereViolent, SexualOffenses, Weapon]

  const PetalCount: nat := 10

  const MinLength: real := 10.0
  const MaxLength: real := 20.0
  const MinWidth: real := 1.0
  const MaxWidth: real := 5.0

  /** The record field that holds a category's count. */
  function CategoryValue(r: Record, c: Category): (n: Num)
  {
    match c
    case Drug => r.drug
    case Financial => r.financial
    case LowLevelProperty => r.lowLevelProperty
    case LowLevelViolent => r.lowLevelViolent
    case NonCriminal => r.nonCriminal
    case PublicOrder => r.publicOrder
    case SevereProperty => r.severeProperty
    case SevereViolent => r.severeViolent
    case SexualOffenses => r.sexualOffenses
    case Weapon => r.weapon
  }

  /** The petal values of a record, in petal order. */
  function PetalValues(r: Record): (vs: seq<Num>)
    ensures |vs| == PetalCount
  {
    seq(PetalCount, k requires 0 <= k < PetalCount => CategoryValue(r, PetalOrder[k]))
  }

  // ---------------------------------------------------------------- ranges

  /** `Math.min` over a non-empty list of finite numbers. */
  function Min(xs: seq<real>): (m: real)
    requires |xs| > 0
    ensures forall i :: 0 <= i < |xs| ==> m <= xs[i]
    ensures exists i :: 0 <= i < |xs| && xs[i] == m
  {
    if |xs| == 1 then xs[0]
    else
      var rest := Min(xs[1..]);
      assert forall i :: 1 <= i < |xs| ==> xs[i] == xs[1..][i - 1];
      if xs[0] <= rest then xs[0] else rest
  }

  /** `Math.max` over a non-empty list of finite numbers. */
  function Max(xs: seq<real>): (m: real)
    requires |xs| > 0
    ensures forall i :: 0 <= i < |xs| ==> xs[i] <= m
    ensures exists i :: 0 <= i < |xs| && xs[i] == m
  {
    if |xs| == 1 then xs[0]
    else
      var rest := Max(xs[1..]);
      assert forall i :: 1 <= i < |xs| ==> xs[i] == xs[1..][i - 1];
      if xs[0] >= rest then xs[0] else rest
  }

  predicate AllFinite(vs: seq<Num>)
  {
    forall i :: 0 <= i < |vs| ==> vs[i].Finite?
  }

  /** The finite values themselves. */
  function Reals(vs: seq<Num>): (xs: seq<real>)
    requires AllFinite(vs)
    ensures |xs| == |vs|
    ensures forall i :: 0 <= i < |vs| ==> vs[i] == Finite(xs[i])
  {
    seq(|vs|, i requires 0 <= i < |vs| => vs[i].value)
  }

  /** A normalisation range. */
  datatype Range = Range(lo: real, hi: real)

  /** `[Math.min(...vs), Math.max(...vs)]`; there is no finite range
      (`None`) when some value is NaN, since both then evaluate to NaN. */
  function LocalRange(vs: seq<Num>): (r: Option<Range>)
    requires |vs| > 0
    ensures r.Some? <==> AllFinite(vs)
    ensures r.Some? ==> r.value.lo <= r.value.hi
    ensures r.Some? ==> forall i :: 0 <= i < |vs| ==> r.value.lo <= vs[i].value <= r.value.hi
    ensures r.Some? ==> exists i :: 0 <= i < |vs| && vs[i].value == r.value.lo
    ensures r.Some? ==> exists i :: 0 <= i < |vs| && vs[i].value == r.value.hi
  {
    if AllFinite(vs) then
      var xs := Reals(vs);
      Some(Range(Min(xs), Max(xs)))
    else None
  }

  // --------------------------------------------------------------- scaling

  /** `outLo + ((v - lo) * (outHi - outLo)) / (hi - lo)` for a value inside
      its range. When the range is a single point, v - lo is 0 and so is
      the divisor: 0/0 is NaN, and so is the sum. */
  function Rescale(v: real, range: Range, outLo: real, outHi: real): (r: Num)
    requires range.lo <= v <= range.hi
    ensures range.lo == range.hi <==> r == NaN
  {
    if range.lo == range.hi then NaN
    else Finite(outLo + (v - range.lo) * (outHi - outLo) / (range.hi - range.lo))
  }

  /** The length of a petal of value v: in [10, 20] over a proper range,
      10 exactly at its low end and 20 exactly at its high end; NaN over a
      single-point range. */
  function PetalLength(v: real, range: Range): (len: Num)
    requires range.lo <= v <= range.hi
    ensures range.lo == range.hi ==> len == NaN
    ensures range.lo < range.hi ==> len.Finite? && MinLength <= len.value <= MaxLength
    ensures range.lo < range.hi ==> (len.value == MinLength <==> v == range.lo)
    ensures range.lo < range.hi ==> (len.value == MaxLength <==> v == range.hi)
  {
    if range.lo < range.hi then
      RescaleBounds(v, range, MinLength, MaxLength);
      Rescale(v, range, MinLength, MaxLength)
    else Rescale(v, range, MinLength, MaxLength)
  }

  /** The stroke width of a petal of value v: in [1, 5] over a proper
      range, 1 exactly at its low end and 5 exactly at its high end; NaN
      over a single-point range. */
  function StrokeWidth(v: real, range: Range): (width: Num)
    requires range.lo <= v <= range.hi
    ensures range.lo == range.hi ==> width == NaN
    ensures range.lo < range.hi ==> width.Finite? && MinWidth <= width.value <= MaxWidth
    ensures range.lo < range.hi ==> (width.value == MinWidth <==> v == range.lo)
    ensures range.lo < range.hi ==> (width.value == MaxWidth <==> v == range.hi)
  {
    if range.lo < range.hi then
      RescaleBounds(v, range, MinWidth, MaxWidth);
      Rescale(v, range, MinWidth, MaxWidth)
    else Rescale(v, range, MinWidth, MaxWidth)
  }

  /** A proper range maps its values into [outLo, outHi], its minimum to
      outLo and its maximum to outHi exactly, and nothing else to either. */
  lemma RescaleBounds(v: real, range: Range, outLo: real, outHi: real)
    requires range.lo <= v <= range.hi
    requires range.lo < range.hi
    requires outLo < outHi
    ensures Rescale(v, range, outLo, outHi).Finite?
    ensures outLo <= Rescale(v, range, outLo, outHi).value <= outHi
    ensures Rescale(v, range, outLo, outHi).value == outLo <==> v == range.lo
    ensures Rescale(v, range, outLo, outHi).value == outHi <==> v == range.hi
  {
    var d := range.hi - range.lo;
    var t := (v - range.lo) / d;
    assert 0.0 <= t <= 1.0 by {
      DivBounds(v - range.lo, d);
    }
    var e := outHi - outLo;
    assert Rescale(v, range, outLo, outHi).value == outLo + t * e;
    ScaleMonotone(t, 1.0, e);
    ScaleMonotone(0.0, t, e);
    assert t * e <= e;
    assert t == 0.0 <==> v == range.lo;
    assert t == 1.0 <==> v == range.hi;
  }

  /** 0 <= a <= d and d > 0 give a fraction in [0, 1]. */
  lemma DivBounds(a: real, d: real)
    requires 0.0 <= a <= d
    requires d > 0.0
    ensures 0.0 <= a / d <= 1.0
  {
  }

  /** Multiplying by a positive factor keeps order, strict and non-strict. */
  lemma ScaleMonotone(x: real, y: real, k: real)
    requires k > 0.0
    ensures x * k <= y * k <==> x <= y
    ensures x * k < y * k <==> x < y
  {
    assert y * k - x * k == (y - x) * k;
  }

  /** Over a proper range the map is strictly increasing, so petal order
      agrees with value order in both directions. */
  lemma RescaleMonotone(v: real, w: real, range: Range, outLo: real, outHi: real)
    requires range.lo <= v <= range.hi
    requires range.lo <= w <= range.hi
    requires range.lo < range.hi
    requires outLo < outHi
    ensures Rescale(v, range, outLo, outHi).value <= Rescale(w, range, outLo, outHi).value <==> v <= w
    ensures Rescale(v, range, outLo, outHi).value < Rescale(w, range, outLo, outHi).value <==> v < w
  {
    var d := range.hi - range.lo;
    var k := (outHi - outLo) / d;
    assert k > 0.0;
    assert Rescale(v, range, outLo, outHi).value == outLo + (v - range.lo) * k;
    assert Rescale(w, range, outLo, outHi).value == outLo + (w - range.lo) * k;
    ScaleMonotone(v - range.lo, w - range.lo, k);
  }

  /** The inverse affine map, from [outLo, outHi] back onto the range. */
  function Unscale(x: real, range: Range, outLo: real, outHi: real): (v: real)
    requires outLo < outHi
  {
    range.lo + (x - outLo) * (range.hi - range.lo) / (outHi - outLo)
  }

  /** The affine map is invertible over a proper range: the value is
      recovered from its image. */
  lemma RescaleInverse(v: real, range: Range, outLo: real, outHi: real)
    requires range.lo <= v <= range.hi
    requires range.lo < range.hi
    requires outLo < outHi
    ensures Unscale(Rescale(v, range, outLo, outHi).value, range, outLo, outHi) == v
  {
    var d := range.hi - range.lo;
    var e := outHi - outLo;
    var x := (v - range.lo) * e / d;
    assert x * d / e == v - range.lo;
  }

  // ----------------------------------------------------------------- glyph

  /** One drawn petal: its category, the index k of its angle k·2π/10, and
      its length and stroke width. */
  datatype Petal = Petal(category: Category, angleIndex: nat, length: Num, width: Num)

  /** The petals of a glyph with the given values in petal order. */
  function Petals(vs: seq<Num>): (ps: seq<Petal>)
    requires |vs| == PetalCount
    ensures |ps| == PetalCount
    ensures forall k :: 0 <= k < PetalCount ==>
      ps[k].category == PetalOrder[k] && ps[k].angleIndex == k
  {
    var range := LocalRange(vs);
    seq(PetalCount, k requires 0 <= k < PetalCount =>
      match range
      case None => Petal(PetalOrder[k], k, NaN, NaN)
      case Some(rg) =>
        Petal(PetalOrder[k], k, PetalLength(vs[k].value, rg), StrokeWidth(vs[k].value, rg)))
  }

  /** The glyph `createFlowerSVG(row)` draws for a record: ten petals in
      petal order; the lengths and widths are finite exactly when the
      record's ten category values are finite and not all equal, and then
      lie in [10, 20] and [1, 5]. */
  function FlowerOf(r: Record): (ps: seq<Petal>)
    ensures |ps| == PetalCount
    ensures forall k :: 0 <= k < PetalCount ==>
      ps[k].category == PetalOrder[k] && ps[k].angleIndex == k
    ensures forall k :: 0 <= k < PetalCount ==>
      (ps[k].length.Finite? <==> Scalable(PetalValues(r))) &&
      (ps[k].width.Finite? <==> Scalable(PetalValues(r)))
    ensures Scalable(PetalValues(r)) ==> forall k :: 0 <= k < PetalCount ==>
      MinLength <= ps[k].length.value <= MaxLength && MinWidth <= ps[k].width.value <= MaxWidth
  {
    var vs := PetalValues(r);
    FlowerUndefined(vs);
    if Scalable(vs) then
      FlowerBounds(vs);
      Petals(vs)
    else Petals(vs)
  }

  // ------------------------------------------------------ glyph properties

  /** All ten values are the same. */
  predicate Constant(vs: seq<Num>)
  {
    forall i, j :: 0 <= i < |vs| && 0 <= j < |vs| ==> vs[i] == vs[j]
  }

  /** The values a glyph scales properly: finite and not all equal. */
  predicate Scalable(vs: seq<Num>)
  {
    AllFinite(vs) && !Constant(vs)
  }

  /** A value is the least, resp. greatest, of the glyph. */
  predicate IsMinimum(vs: seq<Num>, k: nat)
    requires k < |vs| && AllFinite(vs)
  {
    forall j :: 0 <= j < |vs| ==> vs[k].value <= vs[j].value
  }

  predicate IsMaximum(vs: seq<Num>, k: nat)
    requires k < |vs| && AllFinite(vs)
  {
    forall j :: 0 <= j < |vs| ==> vs[j].value <= vs[k].value
  }

  /** The local range is proper exactly when the values are scalable. */
  lemma {:induction false} RangeProper(vs: seq<Num>)
    requires |vs| > 0
    requires AllFinite(vs)
    ensures LocalRange(vs).value.lo < LocalRange(vs).value.hi <==> !Constant(vs)
  {
    var rg := LocalRange(vs).value;
    if rg.lo == rg.hi {
      forall i, j | 0 <= i < |vs| && 0 <= j < |vs|
        ensures vs[i] == vs[j]
      {
        assert vs[i] == Finite(rg.lo) && vs[j] == Finite(rg.lo);
      }
    } else {
      var a :| 0 <= a < |vs| && vs[a].value == rg.lo;
      var b :| 0 <= b < |vs| && vs[b].value == rg.hi;
      assert vs[a] != vs[b];
    }
  }

  /** When the values are scalable, every petal length lies in [10, 20] and
      every stroke width in [1, 5]; a petal gets length 10 and width 1
      exactly when its value is the minimum, and length 20 and width 5
      exactly when it is the maximum. */
  lemma FlowerBounds(vs: seq<Num>)
    requires |vs| == PetalCount
    requires Scalable(vs)
    ensures forall k :: 0 <= k < PetalCount ==>
      var p := Petals(vs)[k];
      && p.length.Finite? && MinLength <= p.length.value <= MaxLength
      && p.width.Finite? && MinWidth <= p.width.value <= MaxWidth
      && (p.length.value == MinLength <==> IsMinimum(vs, k))
      && (p.width.value == MinWidth <==> IsMinimum(vs, k))
      && (p.length.value == MaxLength <==> IsMaximum(vs, k))
      && (p.width.value == MaxWidth <==> IsMaximum(vs, k))
  {
    var rg := LocalRange(vs).value;
    RangeProper(vs);
    forall k | 0 <= k < PetalCount
      ensures var p := Petals(vs)[k];
        && p.length.Finite? && MinLength <= p.length.value <= MaxLength
        && p.width.Finite? && MinWidth <= p.width.value <= MaxWidth
        && (p.length.value == MinLength <==> IsMinimum(vs, k))
        && (p.width.value == MinWidth <==> IsMinimum(vs, k))
        && (p.length.value == MaxLength <==> IsMaximum(vs, k))
        && (p.width.value == MaxWidth <==> IsMaximum(vs, k))
    {
      var v := vs[k].value;
      RescaleBounds(v, rg, MinLength, MaxLength);
      RescaleBounds(v, rg, MinWidth, MaxWidth);
      MinimumIsLow(vs, k);
      MaximumIsHigh(vs, k);
    }
  }

  /** A value is the glyph's minimum exactly when it equals the range's low
      end. */
  lemma MinimumIsLow(vs: seq<Num>, k: nat)
    requires 0 < |vs| && k < |vs| && AllFinite(vs)
    ensures IsMinimum(vs, k) <==> vs[k].value == LocalRange(vs).value.lo
  {
    var rg := LocalRange(vs).value;
    if IsMinimum(vs, k) {
      var a :| 0 <= a < |vs| && vs[a].value == rg.lo;
      assert vs[k].value <= vs[a].value;
    }
  }

  /** A value is the glyph's maximum exactly when it equals the range's high
      end. */
  lemma MaximumIsHigh(vs: seq<Num>, k: nat)
    requires 0 < |vs| && k < |vs| && AllFinite(vs)
    ensures IsMaximum(vs, k) <==> vs[k].value == LocalRange(vs).value.hi
  {
    var rg := LocalRange(vs).value;
    if IsMaximum(vs, k) {
      var b :| 0 <= b < |vs| && vs[b].value == rg.hi;
      assert vs[b].value <= vs[k].value;
    }
  }

  /** When the values are scalable, some petal has length 10 and width 1
      and some petal has length 20 and width 5. */
  lemma FlowerEndpointsAttained(vs: seq<Num>)
    requires |vs| == PetalCount
    requires Scalable(vs)
    ensures exists k :: (0 <= k < PetalCount &&
      Petals(vs)[k].length == Finite(MinLength) && Petals(vs)[k].width == Finite(MinWidth))
    ensures exists k :: (0 <= k < PetalCount &&
      Petals(vs)[k].length == Finite(MaxLength) && Petals(vs)[k].width == Finite(MaxWidth))
  {
    var rg := LocalRange(vs).value;
    RangeProper(vs);
    var a :| 0 <= a < |vs| && vs[a].value == rg.lo;
    var b :| 0 <= b < |vs| && vs[b].value == rg.hi;
    RescaleBounds(vs[a].value, rg, MinLength, MaxLength);
    RescaleBounds(vs[a].value, rg, MinWidth, MaxWidth);
    RescaleBounds(vs[b].value, rg, MinLength, MaxLength);
    RescaleBounds(vs[b].value, rg, MinWidth, MaxWidth);
    assert Petals(vs)[a].length == Finite(MinLength) && Petals(vs)[a].width == Finite(MinWidth);
    assert Petals(vs)[b].length == Finite(MaxLength) && Petals(vs)[b].width == Finite(MaxWidth);
  }

  /** When the values are scalable, a larger value never gives a shorter or
      thinner petal, and a strictly larger one gives a strictly longer and
      thicker petal: petal order and value order agree. */
  lemma FlowerMonotone(vs: seq<Num>, i: nat, j: nat)
    requires |vs| == PetalCount
    requires Scalable(vs)
    requires i < PetalCount && j < PetalCount
    ensures Petals(vs)[i].length.value <= Petals(vs)[j].length.value <==> vs[i].value <= vs[j].value
    ensures Petals(vs)[i].width.value <= Petals(vs)[j].width.value <==> vs[i].value <= vs[j].value
    ensures Petals(vs)[i].length.value < Petals(vs)[j].length.value <==> vs[i].value < vs[j].value
    ensures Petals(vs)[i].width.value < Petals(vs)[j].width.value <==> vs[i].value < vs[j].value
  {
    var rg := LocalRange(vs).value;
    RangeProper(vs);
    RescaleMonotone(vs[i].value, vs[j].value, rg, MinLength, MaxLength);
    RescaleMonotone(vs[i].value, vs[j].value, rg, MinWidth, MaxWidth);
  }

  /** A petal's length or width is NaN exactly when the glyph is not
      scalable: some value is NaN, or all ten are equal and the divisor
      max - min is 0, so the quotient is 0/0. */
  lemma FlowerUndefined(vs: seq<Num>)
    requires |vs| == PetalCount
    ensures forall k :: 0 <= k < PetalCount ==>
      (Petals(vs)[k].length == NaN <==> !Scalable(vs)) &&
      (Petals(vs)[k].width == NaN <==> !Scalable(vs))
  {
    if AllFinite(vs) {
      RangeProper(vs);
    }
  }

  /** Each petal value is recovered from its length and the local range. */
  lemma FlowerInverse(vs: seq<Num>, k: nat)
    requires |vs| == PetalCount
    requires Scalable(vs)
    requires k < PetalCount
    ensures Petals(vs)[k].length.Finite?
    ensures Unscale(Petals(vs)[k].length.value, LocalRange(vs).value, MinLength, MaxLength) == vs[k].value
  {
    var rg := LocalRange(vs).value;
    RangeProper(vs);
    var v := vs[k].value;
    assert Petals(vs)[k].length == Rescale(v, rg, MinLength, MaxLength);
    RescaleBounds(v, rg, MinLength, MaxLength);
    RescaleInverse(v, rg, MinLength, MaxLength);
  }

  /** Petal k of a parsed row is drawn from cell 5 + k of the row, through
      `parseInt`: the petal order is the order of the last ten columns, and
      the glyph reads nothing else of the row. */
  lemma PetalColumns(row: string, conv: Converters)
    ensures forall k :: 0 <= k < PetalCount ==>
      PetalValues(ParseRow(row, conv))[k] == ToNum(CellAt(Text.Split(row, ','), 5 + k), conv.parseInt)
  {
  }

  /** The glyph of a record depends only on its ten category values, never
      on `cluster`, the coordinates, `DN` or `all`. */
  lemma FlowerOnlyReadsCategories(r: Record, s: Record)
    requires forall c: Category :: CategoryValue(r, c) == CategoryValue(s, c)
    ensures FlowerOf(r) == FlowerOf(s)
  {
    assert PetalValues(r) == PetalValues(s);
  }
}
