/** Raster metadata (the rasterio profile), the profile update applied to the
    output raster, and the overlay geometry and colour ramp of the web map. */
module Geo {
  import opened Wrappers

  /** An affine geotransform x = a*col + b*row + c, y = d*col + e*row + f. */
  datatype Affine = Affine(a: real, b: real, c: real, d: real, e: real, f: real)

  /** `transform[i]`: the coefficients in the order a, b, c, d, e, f. */
  function Term(t: Affine, i: nat): real
    requires i < 6
  {
    [t.a, t.b, t.c, t.d, t.e, t.f][i]
  }

  /** Map coordinates of the pixel corner at (col, row). */
  datatype MapXY = MapXY(x: real, y: real)

  function Apply(t: Affine, col: real, row: real): MapXY
  {
    MapXY(t.a * col + t.b * row + t.c, t.d * col + t.e * row + t.f)
  }

  /** The metadata of a single raster file. `options` holds the remaining
      creation options (tiling, compression, ...) carried along unchanged. */
  datatype Profile = Profile(
    driver: string,
    dtype: string,
    nodata: Option<real>,
    width: nat,
    height: nat,
    count: nat,
    crs: string,
    transform: Affine,
    options: map<string, string>)

  /** `profile.update(dtype=rasterio.float32, count=1)`: a single float32 band,
      everything else as in the reference raster. */
  function UpdateProfile(p: Profile): (q: Profile)
    ensures q.dtype == "float32" && q.count == 1
    ensures q.(dtype := p.dtype, count := p.count) == p
  {
    p.(dtype := "float32", count := 1)
  }

  /** A folium `[lat, lon]` pair. */
  datatype LatLon = LatLon(lat: real, lon: real)

  /** `bounds = [[first.lat, first.lon], [second.lat, second.lon]]` */
  datatype Box = Box(first: LatLon, second: LatLon)

  /** The overlay bounds, built from transform terms 0, 2, 4 and 5 and the
      grid size: latitudes from the y axis, longitudes from the x axis of the
      transform at the raster's corners. */
  function MapBounds(t: Affine, height: nat, width: nat): (box: Box)
    ensures box.first.lat == Apply(t, 0.0, height as real).y
    ensures box.first.lon == Apply(t, 0.0, 0.0).x
    ensures box.second.lat == Apply(t, 0.0, 0.0).y
    ensures box.second.lon == Apply(t, width as real, 0.0).x
  {
    Box(LatLon(Term(t, 5) + Term(t, 4) * height as real, Term(t, 2)),
        LatLon(Term(t, 5), Term(t, 2) + Term(t, 0) * width as real))
  }

  /** The map centre: each coordinate summed over both corners, halved. */
  function Centre(box: Box): (m: LatLon)
    ensures m.lat - box.first.lat == box.second.lat - m.lat
    ensures m.lon - box.first.lon == box.second.lon - m.lon
  {
    LatLon((box.first.lat + box.second.lat) / 2.0, (box.first.lon + box.second.lon) / 2.0)
  }

  /** The centre lies inside the box, whichever way its corners are ordered. */
  lemma CentreInsideBox(box: Box)
    ensures Between(Centre(box).lat, box.first.lat, box.second.lat)
    ensures Between(Centre(box).lon, box.first.lon, box.second.lon)
  {
  }

  predicate Between(x: real, p: real, q: real)
  {
    (p <= x <= q) || (q <= x <= p)
  }

  /** For a north-up raster (no rotation terms) the two bounds are the map
      positions of the bottom-left and top-right pixel corners. */
  lemma NorthUpBoundsAreCorners(t: Affine, height: nat, width: nat)
    requires t.b == 0.0 && t.d == 0.0
    ensures MapBounds(t, height, width).first == LatLon(Apply(t, 0.0, height as real).y, Apply(t, 0.0, height as real).x)
    ensures MapBounds(t, height, width).second == LatLon(Apply(t, width as real, 0.0).y, Apply(t, width as real, 0.0).x)
  {
  }

  /** With the usual negative row step the first corner is the southern one,
      and with a positive column step it is the western one. */
  lemma BoundsOrientation(t: Affine, height: nat, width: nat)
    ensures t.e < 0.0 && height > 0 ==> MapBounds(t, height, width).first.lat < MapBounds(t, height, width).second.lat
    ensures t.a > 0.0 && width > 0 ==> MapBounds(t, height, width).first.lon < MapBounds(t, height, width).second.lon
  {
    if t.e < 0.0 && height > 0 {
      assert t.e * height as real < 0.0;
    }
    if t.a > 0.0 && width > 0 {
      assert t.a * width as real > 0.0;
    }
  }

  /** For a north-up raster with positive column and negative row steps,
      every pixel corner of the grid lies inside the overlay box. */
  lemma NorthUpFootprintInsideBox(t: Affine, height: nat, width: nat, col: real, row: real)
    requires t.b == 0.0 && t.d == 0.0 && t.a > 0.0 && t.e < 0.0
    requires 0.0 <= col <= width as real && 0.0 <= row <= height as real
    ensures var box := MapBounds(t, height, width);
      var p := Apply(t, col, row);
      box.first.lat <= p.y <= box.second.lat && box.first.lon <= p.x <= box.second.lon
  {
    assert t.a * col <= t.a * width as real;
    assert t.e * row >= t.e * height as real;
    assert t.e * row <= 0.0;
    assert t.a * col >= 0.0;
  }

  /** An RGBA colour with channels in [0, 1]. */
  datatype Rgba = Rgba(red: real, green: real, blue: real, alpha: real)

  /** The overlay colour ramp `lambda x: (1, 1 - x, 0, x)`. */
  function Ramp(x: real): (k: Rgba)
    ensures k.alpha == x && k.green + k.alpha == 1.0
    ensures InUnit(x) ==> InUnit(k.green) && InUnit(k.alpha)
  {
    Rgba(1.0, 1.0 - x, 0.0, x)
  }

  predicate InUnit(x: real)
  {
    0.0 <= x <= 1.0
  }

  /** A probability maps to a valid colour: full red, no blue, opacity equal
      to the probability and green making up the rest, so higher
      probabilities are redder and more opaque. */
  lemma RampIsColour(x: real, y: real)
    requires InUnit(x) && InUnit(y)
    ensures var k := Ramp(x);
      InUnit(k.red) && InUnit(k.green) && InUnit(k.blue) && InUnit(k.alpha)
      && k.red == 1.0 && k.blue == 0.0 && k.alpha == x && k.green + k.alpha == 1.0
    ensures x <= y ==> Ramp(x).alpha <= Ramp(y).alpha && Ramp(x).green >= Ramp(y).green
  {
  }
}
