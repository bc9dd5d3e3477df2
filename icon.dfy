// The marker icon, resized on every zoom change.

module MarkerIcon {

  /** Edge length at zoom level 0, and the pixels added per zoom step. */
  const BaseSize: int := 32
  const PixelsPerZoom: int := 5

  /** A square marker icon: edge lengths in pixels and the anchor point, which
      may fall on a half pixel (`57 / 2` is `28.5` in JavaScript). */
  datatype Icon = Icon(width: int, height: int, anchorX: real, anchorY: real)

  /** The icon's edge length at a zoom level (index.js:86). */
  function IconSize(zoom: int): (size: int)
  {
    BaseSize + zoom * PixelsPerZoom
  }

  /** The icon built for a zoom level: square, of edge `IconSize(zoom)`, and
      anchored at its centre. */
  function IconFor(zoom: int): (icon: Icon)
    ensures icon.width == icon.height == IconSize(zoom)
    ensures icon.anchorX == icon.anchorY
    ensures 2.0 * icon.anchorX == icon.width as real
  {
    var size := IconSize(zoom);
    Icon(size, size, size as real / 2.0, size as real / 2.0)
  }

  /** The edge length grows strictly with the zoom level, by 5 pixels a step. */
  lemma IconSizeIncreasing(z1: int, z2: int)
    requires z1 < z2
    ensures IconSize(z1) < IconSize(z2)
    ensures IconSize(z2) - IconSize(z1) == (z2 - z1) * PixelsPerZoom
  {
  }

  /** At every zoom level the map allows (0 to 10) the icon is between 32 and
      82 pixels wide. */
  lemma IconSizeInZoomRange(zoom: int)
    requires 0 <= zoom <= 10
    ensures BaseSize <= IconFor(zoom).width <= 82
  {
  }

  /** Zoom level 5 gives a 57-pixel icon anchored at (28.5, 28.5). */
  lemma IconAtZoomFive()
    ensures IconFor(5) == Icon(57, 57, 28.5, 28.5)
  {
  }
}
