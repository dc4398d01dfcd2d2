/**
  The depth legend of the map (logic.js, legend.onAdd), reduced to what its
  labels claim: for each colour, the depth interval its text names. The HTML
  itself is not modelled.
 */
module Legend {
  import opened Wrappers
  import opened Classifier

  /** A depth interval with an exclusive lower end and a possibly inclusive upper end. */
  datatype Interval = Interval(lo: Option<real>, hi: Option<real>, hiInclusive: bool)

  predicate Covers(iv: Interval, depth: real) {
    && (iv.lo.None? || iv.lo.value < depth)
    && (iv.hi.None? || (if iv.hiInclusive then depth <= iv.hi.value else depth < iv.hi.value))
  }

  datatype Entry = Entry(color: Color, interval: Interval)

  /**
    The six labels as the script writes them, top to bottom: one per colour,
    in the order of the bands.
   */
  function WrittenLegend(): (legend: seq<Entry>)
    ensures |legend| == |Palette|
    ensures forall k :: 0 <= k < |legend| ==> legend[k].color == Palette[k]
  {
    [
      Entry(Red, Interval(None, Some(10.0), false)),           // "(Depth < 10)"
      Entry(Orange, Interval(Some(10.0), Some(25.0), true)),   // "(10 < Depth <= 25)"
      Entry(Yellow, Interval(Some(25.0), Some(40.0), true)),
      Entry(Pink, Interval(Some(40.0), Some(55.0), true)),
      Entry(Blue, Interval(Some(55.0), Some(70.0), true)),
      Entry(Green, Interval(Some(70.0), None, false))          // "(Depth > 70)"
    ]
  }

  /**
    Away from a depth of exactly 10, each written label describes its
    colour's band.
   */
  lemma WrittenLegendAgreesAwayFromTen(k: int, depth: real)
    requires 0 <= k < |WrittenLegend()|
    requires depth != 10.0
    ensures Covers(WrittenLegend()[k].interval, depth) <==> ChooseColor(depth) == WrittenLegend()[k].color
  {
  }

  /**
    At a depth of exactly 10 the marker is red, yet the red label reads
    "Depth < 10" and the orange one "10 < Depth": no label covers the depth.
   */
  lemma WrittenLegendMissesTen()
    ensures ChooseColor(10.0) == Red
    ensures forall k :: 0 <= k < |WrittenLegend()| ==> !Covers(WrittenLegend()[k].interval, 10.0)
  {
  }

  /** The legend derived from the classifier's own table of upper bounds. */
  function DerivedLegend(): (legend: seq<Entry>)
    ensures |legend| == |Palette|
    ensures forall k :: 0 <= k < |legend| ==> legend[k].color == Palette[k]
  {
    seq(|Palette|, k requires 0 <= k < |Palette| =>
      Entry(Palette[k], Interval(LowerBound(Palette[k]), UpperBound(Palette[k]), UpperBound(Palette[k]).Some?)))
  }

  /**
    Each derived label covers exactly the depths the classifier gives its
    colour, so the labels together cover every depth once.
   */
  lemma DerivedLegendAgrees(k: int, depth: real)
    requires 0 <= k < |DerivedLegend()|
    ensures Covers(DerivedLegend()[k].interval, depth) <==> ChooseColor(depth) == DerivedLegend()[k].color
  {
    BandsPartition(Palette[k], depth);
  }

  /** The derived legend differs from the written one only in the red label. */
  lemma DerivedLegendFixesRedLabel()
    ensures |DerivedLegend()| == |WrittenLegend()|
    ensures DerivedLegend()[0] == Entry(Red, Interval(None, Some(10.0), true))
    ensures DerivedLegend()[1..] == WrittenLegend()[1..]
  {
    var derived := DerivedLegend();
    forall k | 1 <= k < |WrittenLegend()|
      ensures derived[k] == WrittenLegend()[k]
    {
      assert derived[k].color == Palette[k];
    }
  }
}
