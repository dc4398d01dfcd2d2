/**
  The two classifiers of the earthquake map (logic.js): the depth of an event,
  in kilometres, picks one of six marker colours, and its magnitude picks the
  marker radius.

  Depth and magnitude are `real`s: the script's IEEE doubles are modelled as
  exact numbers, so `5 * m` never rounds.
 */
module Classifier {
  import opened Wrappers

  /** The six marker colours, in the order of increasing depth. */
  datatype Color = Red | Orange | Yellow | Pink | Blue | Green {

    /** Position of the colour's band, shallowest first. */
    function Rank(): (r: nat)
      ensures r < |Palette| && Palette[r] == this
    {
      match this
      case Red => 0
      case Orange => 1
      case Yellow => 2
      case Pink => 3
      case Blue => 4
      case Green => 5
    }

    /** The CSS colour name the script returns; reading it back gives the colour. */
    function Name(): (s: string)
      ensures FromName(s) == Some(this)
    {
      match this
      case Red => "red"
      case Orange => "orange"
      case Yellow => "yellow"
      case Pink => "pink"
      case Blue => "blue"
      case Green => "green"
    }
  }

  /** The colour a CSS name stands for, if it is one of the six. */
  function FromName(s: string): Option<Color> {
    if s == "red" then Some(Red)
    else if s == "orange" then Some(Orange)
    else if s == "yellow" then Some(Yellow)
    else if s == "pink" then Some(Pink)
    else if s == "blue" then Some(Blue)
    else if s == "green" then Some(Green)
    else None
  }

  /** Inclusive upper depth bound of every band but the last. */
  const UpperBounds: seq<real> := [10.0, 25.0, 40.0, 55.0, 70.0]

  /** The colour of each band; one more entry than there are bounds. */
  const Palette: seq<Color> := [Red, Orange, Yellow, Pink, Blue, Green]

  /** Lower (exclusive) end of a colour's band; None for the first band. */
  function LowerBound(c: Color): Option<real> {
    if c.Rank() == 0 then None else Some(UpperBounds[c.Rank() - 1])
  }

  /** Upper (inclusive) end of a colour's band; None for the catch-all band. */
  function UpperBound(c: Color): Option<real> {
    if c.Rank() == |UpperBounds| then None else Some(UpperBounds[c.Rank()])
  }

  /** The half-open interval (LowerBound, UpperBound] of colour c holds depth. */
  predicate InBand(c: Color, depth: real) {
    && (LowerBound(c).None? || LowerBound(c).value < depth)
    && (UpperBound(c).None? || depth <= UpperBound(c).value)
  }

  /**
    The colour ladder of the script, branch for branch: the first test that
    holds wins, the `depth > k` halves repeat what the earlier branches already
    ruled out, and the final `else` catches every deeper event.
   */
  function ChooseColor(depth: real): (c: Color)
    ensures InBand(c, depth)
  {
    if depth <= 10.0 then Red
    else if depth > 10.0 && depth <= 25.0 then Orange
    else if depth > 25.0 && depth <= 40.0 then Yellow
    else if depth > 40.0 && depth <= 55.0 then Pink
    else if depth > 55.0 && depth <= 70.0 then Blue
    else Green
  }

  /**
    First-match table lookup: the index of the first bound that is at least
    `depth`, or |bounds| when the depth exceeds every bound.
   */
  function BandIndex(bounds: seq<real>, depth: real): (i: nat)
    ensures i <= |bounds|
    ensures forall j :: 0 <= j < i ==> bounds[j] < depth
    ensures i < |bounds| ==> depth <= bounds[i]
    decreases |bounds|
  {
    if |bounds| == 0 then 0
    else if depth <= bounds[0] then 0
    else 1 + BandIndex(bounds[1..], depth)
  }

  /** The ladder written as a table: the colour of the first matching bound. */
  function TableColor(depth: real): Color {
    Palette[BandIndex(UpperBounds, depth)]
  }

  /** The if/else ladder and the table of upper bounds agree on every depth. */
  lemma LadderIsTable(depth: real)
    ensures ChooseColor(depth) == TableColor(depth)
  {
  }

  /**
    Every depth lies in exactly one band, and that band's colour is the one
    the ladder returns: the six bands partition the reals.
   */
  lemma BandsPartition(c: Color, depth: real)
    ensures InBand(c, depth) <==> ChooseColor(depth) == c
  {
  }

  /** Two colours whose bands both hold one depth are the same colour. */
  lemma BandsDisjoint(c1: Color, c2: Color, depth: real)
    requires InBand(c1, depth) && InBand(c2, depth)
    ensures c1 == c2
  {
    BandsPartition(c1, depth);
    BandsPartition(c2, depth);
  }

  /**
    A depth equal to a band's upper bound stays in that (lower) band; anything
    strictly above it moves to a later band.
   */
  lemma BoundaryBelongsToLowerBand(i: nat, depth: real)
    requires i < |UpperBounds|
    ensures ChooseColor(UpperBounds[i]) == Palette[i]
    ensures UpperBounds[i] < depth ==> ChooseColor(depth).Rank() > i
  {
  }

  /** Every depth above the last bound is green, and only those are. */
  lemma DeepestIsGreen(depth: real)
    ensures ChooseColor(depth) == Green <==> depth > UpperBounds[|UpperBounds| - 1]
  {
  }

  /** Deeper events never get an earlier colour. */
  lemma {:induction false} BandIndexMonotone(bounds: seq<real>, d1: real, d2: real)
    requires d1 <= d2
    ensures BandIndex(bounds, d1) <= BandIndex(bounds, d2)
    decreases |bounds|
  {
    if |bounds| > 0 && d1 > bounds[0] {
      BandIndexMonotone(bounds[1..], d1, d2);
    }
  }

  lemma ChooseColorMonotone(d1: real, d2: real)
    requires d1 <= d2
    ensures ChooseColor(d1).Rank() <= ChooseColor(d2).Rank()
  {
    LadderIsTable(d1);
    LadderIsTable(d2);
    BandIndexMonotone(UpperBounds, d1, d2);
  }

  /** Distinct colours carry distinct CSS names. */
  lemma NameInjective(c1: Color, c2: Color)
    ensures c1.Name() == c2.Name() <==> c1 == c2
  {
  }

  /** The script's radius: the magnitude scaled by five, with no clamping. */
  function ChooseRadius(magnitude: real): (radius: real)
    ensures radius == 0.0 <==> magnitude == 0.0
    ensures radius < 0.0 <==> magnitude < 0.0
  {
    magnitude * 5.0
  }

  /** The inverse of ChooseRadius: the magnitude a radius was drawn for. */
  function MagnitudeOf(radius: real): real {
    radius / 5.0
  }

  lemma RadiusRoundTrip(magnitude: real, radius: real)
    ensures MagnitudeOf(ChooseRadius(magnitude)) == magnitude
    ensures ChooseRadius(MagnitudeOf(radius)) == radius
  {
  }

  lemma RadiusStrictlyIncreasing(m1: real, m2: real)
    ensures m1 < m2 <==> ChooseRadius(m1) < ChooseRadius(m2)
  {
  }

  /** The scale is linear: it preserves sums and multiples. */
  lemma RadiusLinear(m1: real, m2: real, k: real)
    ensures ChooseRadius(m1 + m2) == ChooseRadius(m1) + ChooseRadius(m2)
    ensures ChooseRadius(k * m1) == k * ChooseRadius(m1)
  {
  }
}
