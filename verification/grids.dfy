/** Pixel grids as rows of cells, numpy's row-major `flatten`, `reshape`
    and the nodata-to-zero substitution. Pixel values are kept abstract as
    `real`. */
module Grids {
  import opened Wrappers
  import opened Errors

  type Grid = seq<seq<real>>

  /** `g` has `h` rows of `w` cells each. */
  predicate IsGrid(g: Grid, h: nat, w: nat)
  {
    |g| == h && forall r :: 0 <= r < h ==> |g[r]| == w
  }

  /** Position of cell (r, c) of a grid w cells wide in row-major order. */
  function Offset(r: nat, c: nat, w: nat): nat
  {
    r * w + c
  }

  /** Row-major flattening, `arr.flatten()`. */
  function Flatten(g: Grid): (v: seq<real>)
    ensures g != [] ==> g[0] <= v
  {
    if g == [] then [] else g[0] + Flatten(g[1..])
  }

  /** Flattening an h x w grid gives h*w cells. */
  lemma {:induction false} FlattenLength(g: Grid, h: nat, w: nat)
    requires IsGrid(g, h, w)
    ensures |Flatten(g)| == h * w
  {
    if g != [] {
      FlattenLength(g[1..], h - 1, w);
      assert (h - 1) * w + w == h * w;
    }
  }

  /** Cell (r, c) lands at position r*w + c of the flattened vector. */
  lemma {:induction false} FlattenIndex(g: Grid, h: nat, w: nat, r: nat, c: nat)
    requires IsGrid(g, h, w) && r < h && c < w
    ensures Offset(r, c, w) < |Flatten(g)| && Flatten(g)[Offset(r, c, w)] == g[r][c]
  {
    FlattenLength(g, h, w);
    if r > 0 {
      FlattenIndex(g[1..], h - 1, w, r - 1, c);
      assert Offset(r - 1, c, w) + w == Offset(r, c, w);
    }
  }

  /** Cuts a vector of h*w cells into h consecutive rows of w cells. */
  function ReshapeRows(v: seq<real>, h: nat, w: nat): (g: Grid)
    requires |v| == h * w
    ensures IsGrid(g, h, w)
    ensures Flatten(g) == v
    decreases h
  {
    if h == 0 then []
    else
      assert |v| == (h - 1) * w + w;
      var g := [v[..w]] + ReshapeRows(v[w..], h - 1, w);
      assert g[1..] == ReshapeRows(v[w..], h - 1, w);
      assert v == v[..w] + v[w..];
      g
  }

  /** `vector.reshape(h, w)`: fails when the vector does not have h*w cells. */
  function Reshape(v: seq<real>, h: nat, w: nat): (r: Result<Grid, Error>)
    ensures r.Ok? <==> |v| == h * w
    ensures r.Ok? ==> IsGrid(r.value, h, w) && Flatten(r.value) == v
    ensures r.Err? ==> r.error == ShapeMismatch(h * w, |v|)
  {
    if |v| != h * w then Err(ShapeMismatch(h * w, |v|))
    else Ok(ReshapeRows(v, h, w))
  }

  /** Reshaping puts position r*w + c of the vector at cell (r, c). */
  lemma ReshapeIndex(v: seq<real>, h: nat, w: nat, r: nat, c: nat)
    requires Reshape(v, h, w).Ok? && r < h && c < w
    ensures Offset(r, c, w) < |v| && Reshape(v, h, w).value[r][c] == v[Offset(r, c, w)]
  {
    FlattenIndex(Reshape(v, h, w).value, h, w, r, c);
  }

  /** Reshaping a flattened h x w grid back to h x w gives the grid again. */
  lemma {:induction false} ReshapeFlatten(g: Grid, h: nat, w: nat)
    requires IsGrid(g, h, w)
    ensures Reshape(Flatten(g), h, w) == Ok(g)
    decreases h
  {
    FlattenLength(g, h, w);
    if h > 0 {
      ReshapeFlatten(g[1..], h - 1, w);
      var v := Flatten(g);
      assert v[..w] == g[0] && v[w..] == Flatten(g[1..]);
      assert g == [g[0]] + g[1..];
    }
  }

  /** One cell after `arr[arr == nodata] = nan` and `nan_to_num(arr, nan=0.0)`. */
  function ClearNodata(x: real, nodata: Option<real>): real
  {
    if nodata.Some? && x == nodata.value then 0.0 else x
  }

  /** Cells equal to the reference nodata value become 0.0; the others keep their value. */
  function SubstituteNodata(g: Grid, nodata: Option<real>): (s: Grid)
    ensures |s| == |g| && forall r :: 0 <= r < |g| ==> |s[r]| == |g[r]|
    ensures forall r, c :: 0 <= r < |g| && 0 <= c < |g[r]| ==> s[r][c] == ClearNodata(g[r][c], nodata)
  {
    seq(|g|, r requires 0 <= r < |g| => seq(|g[r]|, c requires 0 <= c < |g[r]| => ClearNodata(g[r][c], nodata)))
  }

  /** The substitution keeps the grid's shape. */
  lemma SubstituteKeepsShape(g: Grid, nodata: Option<real>, h: nat, w: nat)
    requires IsGrid(g, h, w)
    ensures IsGrid(SubstituteNodata(g, nodata), h, w)
  {
  }

  /** Every nodata cell is 0.0 afterwards, every other cell is unchanged, and
      unless the nodata value is itself 0.0 no cell equals it any more. */
  lemma SubstituteClearsNodata(g: Grid, nd: real, r: nat, c: nat)
    requires r < |g| && c < |g[r]|
    ensures g[r][c] == nd ==> SubstituteNodata(g, Some(nd))[r][c] == 0.0
    ensures g[r][c] != nd ==> SubstituteNodata(g, Some(nd))[r][c] == g[r][c]
    ensures nd != 0.0 ==> SubstituteNodata(g, Some(nd))[r][c] != nd
  {
  }

  /** Without a nodata value the grid is left as it is. */
  lemma SubstituteWithoutNodata(g: Grid)
    ensures SubstituteNodata(g, None) == g
  {
    var s := SubstituteNodata(g, None);
    forall r | 0 <= r < |g|
      ensures s[r] == g[r]
    {
    }
  }

  /** Substituting twice is substituting once. */
  lemma SubstituteIdempotent(g: Grid, nodata: Option<real>)
    ensures SubstituteNodata(SubstituteNodata(g, nodata), nodata) == SubstituteNodata(g, nodata)
  {
    var s := SubstituteNodata(g, nodata);
    var t := SubstituteNodata(s, nodata);
    forall r | 0 <= r < |g|
      ensures t[r] == s[r]
    {
    }
  }
}
