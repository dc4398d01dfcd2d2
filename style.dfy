/**
  Earthquake features as the USGS feed delivers them, and the per-feature
  marker style the script hands to the map library (logic.js, styleInfo).
 */
module Style {
  import opened Classifier

  /** A point position: longitude, latitude and depth in kilometres. */
  datatype Position = Position(longitude: real, latitude: real, depth: real)

  datatype Geometry = Geometry(coordinates: Position)

  datatype Properties = Properties(mag: real)

  /** One earthquake event of the feed. */
  datatype Feature = Feature(id: string, geometry: Geometry, properties: Properties)

  /** The circle-marker options: outline colour, radius and fill colour. */
  datatype MarkerStyle = MarkerStyle(color: Color, radius: real, fillColor: Color)

  /** The third coordinate of the feature's position. */
  function Depth(feature: Feature): real {
    feature.geometry.coordinates.depth
  }

  /**
    The style of one feature: both colours come from the depth band of its
    third coordinate and the radius scales its magnitude by five.
   */
  function StyleInfo(feature: Feature): (style: MarkerStyle)
    ensures style.color == style.fillColor
    ensures InBand(style.color, Depth(feature))
    ensures MagnitudeOf(style.radius) == feature.properties.mag
  {
    MarkerStyle(
      ChooseColor(Depth(feature)),
      ChooseRadius(feature.properties.mag),
      ChooseColor(Depth(feature)))
  }

  /**
    The style reads nothing but the depth and the magnitude: two features
    that agree on those get the same style whatever their id, longitude and
    latitude, and two features with the same style agree on the magnitude and
    lie in the same depth band.
   */
  lemma StyleDependsOnDepthAndMagnitude(f1: Feature, f2: Feature)
    ensures StyleInfo(f1) == StyleInfo(f2)
        <==> ChooseColor(Depth(f1)) == ChooseColor(Depth(f2)) && f1.properties.mag == f2.properties.mag
  {
  }

  /** A deeper and stronger event never gets an earlier colour or a smaller marker. */
  lemma StyleMonotone(f1: Feature, f2: Feature)
    requires Depth(f1) <= Depth(f2)
    requires f1.properties.mag <= f2.properties.mag
    ensures StyleInfo(f1).color.Rank() <= StyleInfo(f2).color.Rank()
    ensures StyleInfo(f1).radius <= StyleInfo(f2).radius
  {
    ChooseColorMonotone(Depth(f1), Depth(f2));
  }
}
