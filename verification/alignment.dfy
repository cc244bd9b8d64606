/** `align_and_resample_tiffs`: resolve one file per layer key, take the
    reference grid from the elevation raster, resample every layer onto it,
    clear nodata cells and stack the flattened layers into the feature table.

    Opening a raster and rasterio's bilinear `reproject` are outside the
    model. They enter as the fields of a `Rasters` value: whether a named
    file opens and with which metadata, whether its reprojection onto the
    reference grid completes, and the value the resampling writes into one
    destination cell. */
module Alignment {
  import opened Wrappers
  import opened Errors
  import opened LayerKeys
  import opened Resolution
  import opened Grids
  import opened Geo
  import opened Tables

  /** The value bilinear resampling of file `source` onto the grid of the
      reference profile writes into destination cell (row, col). */
  type Resampler = (string, Profile, nat, nat) -> real

  /** The raster reads of one request. `open(file)` is the profile of
      `rasterio.open(file)`, `None` when opening raises; `warps(file, ref)`
      says whether `reproject` of that file onto the reference grid
      returns rather than raises; `sample` gives the cells it writes. */
  datatype Rasters = Rasters(open: string -> Option<Profile>, warps: (string, Profile) -> bool, sample: Resampler)

  /** The layer file opens and reprojects onto the reference grid. */
  predicate Readable(io: Rasters, file: string, ref: Profile)
  {
    io.open(file).Some? && io.warps(file, ref)
  }

  /** Resampling into `np.zeros((height, width))`: the destination buffer
      fixes the shape, whatever the source's own resolution and extent. */
  function Reproject(sample: Resampler, source: string, ref: Profile): (g: Grid)
    ensures IsGrid(g, ref.height, ref.width)
    ensures forall r, c :: 0 <= r < ref.height && 0 <= c < ref.width ==> g[r][c] == sample(source, ref, r, c)
  {
    seq(ref.height, r requires 0 <= r < ref.height =>
      seq(ref.width, c requires 0 <= c < ref.width => sample(source, ref, r, c)))
  }

  /** One entry of `stack`: the resampled layer with nodata cleared, flattened row-major. */
  function AlignedColumn(sample: Resampler, source: string, ref: Profile): (col: seq<real>)
    ensures |col| == ref.height * ref.width
  {
    var g := SubstituteNodata(Reproject(sample, source, ref), ref.nodata);
    SubstituteKeepsShape(Reproject(sample, source, ref), ref.nodata, ref.height, ref.width);
    FlattenLength(g, ref.height, ref.width);
    Flatten(g)
  }

  /** Position r*width + c of the aligned column holds the resampled value of
      cell (r, c), or 0.0 where that value is the reference nodata. */
  lemma AlignedColumnCell(sample: Resampler, source: string, ref: Profile, r: nat, c: nat)
    requires r < ref.height && c < ref.width
    ensures Offset(r, c, ref.width) < |AlignedColumn(sample, source, ref)|
    ensures AlignedColumn(sample, source, ref)[Offset(r, c, ref.width)] == ClearNodata(sample(source, ref, r, c), ref.nodata)
  {
    var g := SubstituteNodata(Reproject(sample, source, ref), ref.nodata);
    SubstituteKeepsShape(Reproject(sample, source, ref), ref.nodata, ref.height, ref.width);
    FlattenIndex(g, ref.height, ref.width, r, c);
  }

  /** Key `k` has a file, and that file opens and reprojects. */
  predicate Available(paths: Paths, k: string, io: Rasters, ref: Profile)
    requires k in paths
  {
    paths[k].Some? && Readable(io, paths[k].value, ref)
  }

  /** What the stacking loop raises at a key that is not available: the
      missing-file `ValueError`, or the rasterio error for its file. */
  function Failure(paths: Paths, k: string): Error
    requires k in paths
  {
    if paths[k].None? then MissingLayer(k) else RasterReadError(paths[k].value)
  }

  /** `keys[i]` is the first key, in list order, that is not available. */
  ghost predicate FirstFailureAt(paths: Paths, keys: seq<string>, io: Rasters, ref: Profile, i: int)
    requires forall k :: k in keys ==> k in paths
  {
    && 0 <= i < |keys|
    && !Available(paths, keys[i], io, ref)
    && forall j :: 0 <= j < i ==> Available(paths, keys[j], io, ref)
  }

  /** The stacking loop: keys in order, raising "Missing {key} raster" at a key
      without a file and the rasterio error at a file that does not open or
      reproject, whichever comes first; otherwise one aligned column per key. */
  function StackLayers(paths: Paths, keys: seq<string>, io: Rasters, ref: Profile): (r: Result<seq<seq<real>>, Error>)
    requires forall k :: k in keys ==> k in paths
    ensures r.Ok? <==> forall i :: 0 <= i < |keys| ==> Available(paths, keys[i], io, ref)
    ensures r.Err? ==> exists i :: FirstFailureAt(paths, keys, io, ref, i) && r.error == Failure(paths, keys[i])
    ensures r.Ok? ==>
      |r.value| == |keys| && forall j :: 0 <= j < |keys| ==> r.value[j] == AlignedColumn(io.sample, paths[keys[j]].value, ref)
    decreases |keys|
  {
    if keys == [] then Ok([])
    else if !Available(paths, keys[0], io, ref) then
      assert FirstFailureAt(paths, keys, io, ref, 0);
      Err(Failure(paths, keys[0]))
    else
      var rest := StackLayers(paths, keys[1..], io, ref);
      if rest.Err? then
        assert exists i :: FirstFailureAt(paths, keys, io, ref, i) && rest.error == Failure(paths, keys[i]) by {
          var i :| FirstFailureAt(paths, keys[1..], io, ref, i) && rest.error == Failure(paths, keys[1..][i]);
          assert FirstFailureAt(paths, keys, io, ref, i + 1);
        }
        Err(rest.error)
      else
        assert forall i :: 0 <= i < |keys| ==> Available(paths, keys[i], io, ref) by {
          forall i | 0 <= i < |keys|
            ensures Available(paths, keys[i], io, ref)
          {
            if i > 0 {
              assert keys[i] == keys[1..][i - 1];
            }
          }
        }
        Ok([AlignedColumn(io.sample, paths[keys[0]].value, ref)] + rest.value)
  }

  /** The reference key has a file and that file opens. */
  predicate ReferenceOpens(listing: seq<string>, keys: seq<string>, reference: string, io: Rasters)
    requires reference in keys
  {
    var path := ResolvePaths(listing, keys)[reference];
    path.Some? && io.open(path.value).Some?
  }

  /** Every key before position `i` has a file, and that file opens and
      reprojects onto the reference grid. */
  predicate AvailableBefore(listing: seq<string>, keys: seq<string>, reference: string, io: Rasters, i: int)
    requires reference in keys && ReferenceOpens(listing, keys, reference, io)
  {
    var paths := ResolvePaths(listing, keys);
    forall j :: 0 <= j < i && j < |keys| ==> Available(paths, keys[j], io, ReferenceProfile(listing, keys, reference, io))
  }

  /** `ref.profile` of the opened reference file. */
  function ReferenceProfile(listing: seq<string>, keys: seq<string>, reference: string, io: Rasters): Profile
    requires reference in keys && ReferenceOpens(listing, keys, reference, io)
  {
    io.open(ResolvePaths(listing, keys)[reference].value).value
  }

  /** The whole of `align_and_resample_tiffs(folder, reference_key)` on a
      directory listing: the feature table with one column per key, and the
      reference profile. The application passes `Keys` and `Reference`. */
  function Align(listing: seq<string>, keys: seq<string>, reference: string, io: Rasters): (r: Result<(Frame, Profile), Error>)
    requires reference in keys
    ensures r.Err? ==> r.error == MissingReferenceLayer || r.error.MissingLayer? || r.error.RasterReadError?
    ensures r.Ok? ==>
      r.value.0.columns == keys && WellFormed(r.value.0) && |r.value.0.rows| == r.value.1.height * r.value.1.width
  {
    var paths := ResolvePaths(listing, keys);
    if paths[reference].None? then Err(MissingReferenceLayer)
    else
      match io.open(paths[reference].value)
      case None => Err(RasterReadError(paths[reference].value))
      case Some(ref) =>
        var cols :- StackLayers(paths, keys, io, ref);
        Ok((Frame(keys, ColumnStack(cols, ref.height * ref.width)), ref))
  }

  /** Some listed name starts with `key`. */
  ghost predicate HasFile(listing: seq<string>, key: string)
  {
    exists i :: 0 <= i < |listing| && StartsWith(listing[i], key)
  }

  /** Alignment fails with "Reference TIFF not found" exactly when no listed
      name starts with the reference key, whatever the files contain. */
  lemma AlignMissingReference(listing: seq<string>, keys: seq<string>, reference: string, io: Rasters)
    requires reference in keys
    ensures Align(listing, keys, reference, io) == Err(MissingReferenceLayer) <==> !HasFile(listing, reference)
  {
    ResolvePathsIsLastMatch(listing, keys);
  }

  /** A reference file that does not open fails alignment with the rasterio
      error for that file, before any layer is looked at. */
  lemma AlignReferenceUnreadable(listing: seq<string>, keys: seq<string>, reference: string, io: Rasters)
    requires reference in keys
    ensures var path := ResolvePaths(listing, keys)[reference];
      path.Some? && io.open(path.value).None? ==> Align(listing, keys, reference, io) == Err(RasterReadError(path.value))
  {
  }

  /** A key resolves to some file exactly when some listed name starts with it. */
  lemma ResolvedIffHasFile(listing: seq<string>, keys: seq<string>)
    ensures forall k :: k in keys ==> (ResolvePaths(listing, keys)[k].Some? <==> HasFile(listing, k))
  {
    ResolvePathsIsLastMatch(listing, keys);
  }

  /** Past the reference open, alignment fails exactly as the stacking loop does. */
  lemma AlignFailsAsStack(listing: seq<string>, keys: seq<string>, reference: string, io: Rasters)
    requires reference in keys && ReferenceOpens(listing, keys, reference, io)
    ensures var s := StackLayers(ResolvePaths(listing, keys), keys, io, ReferenceProfile(listing, keys, reference, io));
      var r := Align(listing, keys, reference, io);
      (r.Err? <==> s.Err?) && (r.Err? ==> r.error == s.error)
  {
  }

  /** Once the reference file opens, alignment fails exactly when some key is
      not available, and then with the error of the first such key in list
      order: its missing-file error, or the rasterio error of its file. */
  lemma AlignFailsAtFirstFailure(listing: seq<string>, keys: seq<string>, reference: string, io: Rasters, i: nat)
    requires reference in keys && ReferenceOpens(listing, keys, reference, io)
    requires FirstFailureAt(ResolvePaths(listing, keys), keys, io, ReferenceProfile(listing, keys, reference, io), i)
    ensures Align(listing, keys, reference, io) == Err(Failure(ResolvePaths(listing, keys), keys[i]))
  {
    var paths := ResolvePaths(listing, keys);
    var ref := ReferenceProfile(listing, keys, reference, io);
    AlignFailsAsStack(listing, keys, reference, io);
    var s := StackLayers(paths, keys, io, ref);
    assert s.Err?;
    var i' :| FirstFailureAt(paths, keys, io, ref, i') && s.error == Failure(paths, keys[i']);
    FirstFailureUnique(paths, keys, io, ref, i, i');
  }

  /** There is only one first failing key. */
  lemma FirstFailureUnique(paths: Paths, keys: seq<string>, io: Rasters, ref: Profile, i: int, j: int)
    requires forall k :: k in keys ==> k in paths
    requires FirstFailureAt(paths, keys, io, ref, i) && FirstFailureAt(paths, keys, io, ref, j)
    ensures i == j
  {
  }

  /** With the reference file open, alignment fails with "Missing {key} raster"
      exactly for the first key, in list order, that no listed name starts
      with, provided every earlier key's file opened and reprojected. */
  lemma AlignMissingLayer(listing: seq<string>, keys: seq<string>, reference: string, io: Rasters, i: nat)
    requires reference in keys && PrefixFree(keys)
    requires ReferenceOpens(listing, keys, reference, io) && i < |keys|
    ensures Align(listing, keys, reference, io) == Err(MissingLayer(keys[i])) <==>
      !HasFile(listing, keys[i]) && AvailableBefore(listing, keys, reference, io, i)
  {
    var paths := ResolvePaths(listing, keys);
    var ref := ReferenceProfile(listing, keys, reference, io);
    ResolvedIffHasFile(listing, keys);
    AlignFailsAsStack(listing, keys, reference, io);
    var s := StackLayers(paths, keys, io, ref);
    var r := Align(listing, keys, reference, io);
    if r == Err(MissingLayer(keys[i])) {
      var i' :| FirstFailureAt(paths, keys, io, ref, i') && s.error == Failure(paths, keys[i']);
      assert paths[keys[i']].None?;
      KeysDistinct(keys, i, i');
    }
    if !HasFile(listing, keys[i]) && forall j :: 0 <= j < i ==> Available(paths, keys[j], io, ref) {
      assert FirstFailureAt(paths, keys, io, ref, i);
      AlignFailsAtFirstFailure(listing, keys, reference, io, i);
    }
  }

  /** A prefix-free list has no repetitions. */
  lemma KeysDistinct(keys: seq<string>, i: nat, j: nat)
    requires PrefixFree(keys) && i < |keys| && j < |keys| && keys[i] == keys[j]
    ensures i == j
  {
  }

  /** Alignment succeeds exactly when the reference file opens and every key,
      the reference included, has a file that opens and reprojects; each key
      then uses the last listed file matching it. */
  lemma AlignSucceeds(listing: seq<string>, keys: seq<string>, reference: string, io: Rasters)
    requires reference in keys
    ensures Align(listing, keys, reference, io).Ok? <==>
      ReferenceOpens(listing, keys, reference, io) && AvailableBefore(listing, keys, reference, io, |keys|)
    ensures forall k :: k in keys ==> ResolvePaths(listing, keys)[k] == LastMatch(listing, k)
  {
    ResolvePathsIsLastMatch(listing, keys);
    if ReferenceOpens(listing, keys, reference, io) {
      AlignFailsAsStack(listing, keys, reference, io);
    }
  }

  /** On success the table has one row per reference cell and one column per
      key in list order, and the profile is the reference file's. */
  lemma AlignTableShape(listing: seq<string>, keys: seq<string>, reference: string, io: Rasters)
    requires reference in keys
    requires Align(listing, keys, reference, io).Ok?
    ensures ReferenceOpens(listing, keys, reference, io)
    ensures var (t, ref) := Align(listing, keys, reference, io).value;
      && ref == ReferenceProfile(listing, keys, reference, io)
      && t.columns == keys && WellFormed(t) && |t.rows| == ref.height * ref.width
  {
  }

  /** On success, cell (r, c) of layer j (resampled from the file key j
      resolved to, nodata cleared) sits at row r*width + c, column j. */
  lemma AlignTableCell(listing: seq<string>, keys: seq<string>, reference: string, io: Rasters, j: nat, r: nat, c: nat)
    requires reference in keys
    requires Align(listing, keys, reference, io).Ok?
    requires var ref := Align(listing, keys, reference, io).value.1;
      j < |keys| && r < ref.height && c < ref.width
    ensures ResolvePaths(listing, keys)[keys[j]].Some?
    ensures var (t, ref) := Align(listing, keys, reference, io).value;
      && Offset(r, c, ref.width) < |t.rows| && j < |t.rows[Offset(r, c, ref.width)]|
      && t.rows[Offset(r, c, ref.width)][j] == ClearNodata(io.sample(ResolvePaths(listing, keys)[keys[j]].value, ref, r, c), ref.nodata)
  {
    var paths := ResolvePaths(listing, keys);
    var ref := io.open(paths[reference].value).value;
    var cols := StackLayers(paths, keys, io, ref).value;
    var t := Align(listing, keys, reference, io).value.0;
    assert t.rows == ColumnStack(cols, ref.height * ref.width);
    var col := AlignedColumn(io.sample, paths[keys[j]].value, ref);
    assert cols[j] == col;
    AlignedColumnCell(io.sample, paths[keys[j]].value, ref, r, c);
    var n := Offset(r, c, ref.width);
    assert n < ref.height * ref.width;
    assert t.rows[n][j] == col[n];
  }

  /** The table does not depend on the order of the directory listing when
      every key has a single candidate file: the stacking loop walks the key
      list, not the listing. */
  lemma AlignIgnoresListingOrder(listing: seq<string>, other: seq<string>, keys: seq<string>, reference: string, io: Rasters)
    requires reference in keys
    requires forall name :: name in listing <==> name in other
    requires UniqueCandidates(listing, keys)
    ensures Align(listing, keys, reference, io) == Align(other, keys, reference, io)
  {
    ResolveIgnoresListingOrder(listing, other, keys);
  }
}
