# Raster-stack prediction core, in Dafny

This project models the prediction core of the Flask application in `app.py`. A user uploads a pickled classifier and nine GeoTIFF layers. The layer types are NDVI, aspect, elevation, land use (`lulc`), organic carbon, precipitation, slope, soil pH and temperature. The `/predict` request then does the following:

1. It finds one file per layer type by file-name prefix.
2. It resamples every layer onto the grid of the elevation raster.
3. It clears nodata cells and stacks the layers into a table with one row per pixel.
4. It cleans up the column labels and selects the nine canonical columns.
5. It asks the model for class probabilities and keeps the positive-class column.
6. It reshapes that column back into a raster.
7. It writes the raster with an updated profile, then computes the overlay box, the map centre and the overlay colours.

The modules follow those stages:

| file | module | what it holds |
|---|---|---|
| `wrappers.dfy` | `Wrappers` | `Option` and `Result` |
| `errors.dfy` | `Errors` | the ways a request fails, and their fixed messages |
| `layer_keys.dfy` | `LayerKeys` | the nine canonical layer keys, the reference key, and the prefix rule |
| `resolution.dfy` | `Resolution` | which file each key resolves to: the resolution loop of `align_and_resample_tiffs`, and `list_tiffs` |
| `grids.dfy` | `Grids` | rasters as row lists, row-major flatten/reshape, nodata substitution |
| `geo.dfy` | `Geo` | the affine transform, the raster profile and its update, the overlay box, the centre, the colour ramp |
| `tables.dfy` | `Tables` | the feature table and `np.column_stack` |
| `alignment.dfy` | `Alignment` | `align_and_resample_tiffs` end to end |
| `columns.dfy` | `Columns` | `str.strip`, the alias renaming, and `df[keys]` column selection |
| `pipeline.dfy` | `Pipeline` | the body of `predict` |

Everything outside the process is a parameter of the model:

- **Directory listing.** `os.listdir` is a `seq<string>` in whatever order it returns.
- **Raster reads.** A `Rasters` value has three fields:
  - `open` is `rasterio.open(path).profile` as a function from file name to `Option<Profile>`, with `None` when opening raises.
  - `warps` says whether bilinear `reproject` of a file onto the reference grid returns rather than raises.
  - `sample` is a function `(file, reference profile, row, col) -> real` that gives the resampled value of one cell.
- **Model loading.** Unpickling is a function from model name to `Option<Classifier>`, with `None` when loading raises.
- **Classifier.** `predict_proba` is a function from the feature table to `Option<seq<(real, real)>>`, with `None` when it raises.

The failures of the modelled steps become an `Err`, one `Error` constructor per kind of failure:
- the missing model name (an early return rather than a raise) and the model load;
- the two missing-file checks;
- a raster that does not open or reproject (`RasterReadError`, naming the file), whether it is the reference file or a layer;
- the column selection, the classifier, and the reshape.

The writes of the output files are not modelled, so their exceptions have no constructor. Three of the constructors carry the source's fixed message text:

| constructor | message |
|---|---|
| `NoModelSelected` | "No model selected" |
| `MissingReferenceLayer` | "Reference TIFF not found" |
| `MissingLayer(key)` | "Missing {key} raster" |

### Which file a key resolves to

The resolution loop visits every listed name and every key, and it never breaks. A later match therefore overwrites an earlier one, so each key resolves to the LAST name in listing order that starts with it. This is often read as "the most recent upload wins", but that holds only if the listing comes back in upload order, and `os.listdir` promises no order. The model follows the code: the last match in listing order.

The model proves two things about this:

- When every key has at most one candidate file, the listing order does not matter (`Resolution.ResolveIgnoresListingOrder`, `Alignment.AlignIgnoresListingOrder`).
- A freshly uploaded `{key}_{timestamp}.tif` placed last in the listing wins (`Resolution.UploadResolvesToItsKey`).

`list_tiffs` stops at the first matching key, and the resolution loop does not stop. The nine canonical keys are prefix-free, so the two agree (`Resolution.ListTiffsAgreesWithResolvePaths`).

## Model

| member | source | states |
|---|---|---|
| LayerKeys.ReferenceIsKey | app.py:27-31 | the default reference key "elevation" is one of the canonical keys, the third in list order |
| LayerKeys.KeysArePrefixFree | app.py:27-31 | no canonical key is a prefix of another, and no key is listed twice |
| LayerKeys.AtMostOneKeyMatches | app.py:71-73 | with prefix-free keys, a file name starts with at most one key |
| LayerKeys.UploadNameMatchesOnlyItsKey | app.py:56-57 | a name built as key + suffix starts with exactly that key and no other |
| Resolution.LastMatch | app.py:79-82 | reference definition: no match gives None, otherwise the last listed name starting with the key |
| Resolution.Unresolved | app.py:78 | the initial dictionary has exactly the keys as its keys, each mapped to None |
| Resolution.ScanName | app.py:80-82 | one listed name assigns itself to every key it starts with and leaves the other keys alone |
| Resolution.ResolvePaths | app.py:78-82 | the paths dictionary has exactly the canonical keys as its keys |
| Resolution.ResolvePathsIsLastMatch | app.py:78-82 | after the loop, every key holds the last listed name starting with it, or None if there is no such name |
| Resolution.FirstMatchingKey | app.py:71-74 | the inner loop of list_tiffs finds a key exactly when the name starts with some key; the key it returns is a prefix of the name, and no earlier key in list order is one |
| Resolution.ListTiffs | app.py:67-75 | list_tiffs reports only canonical keys |
| Resolution.ListTiffsAgreesWithResolvePaths | app.py:67-82 | for prefix-free keys, list_tiffs reports a key exactly when prediction resolves it, and names the same file |
| Resolution.UploadResolvesToItsKey | app.py:78-82 | an upload named key + suffix placed last in the listing resolves its key and changes no other key |
| Resolution.LastMatchIgnoresListingOrder | app.py:79-82 | with a single candidate per key, reordering the listing does not change the match |
| Resolution.ResolveIgnoresListingOrder | app.py:78-82 | with a single candidate per key, reordering the listing gives the same paths dictionary |
| Grids.FlattenLength | app.py:101 | a height × width raster flattens to height·width values |
| Grids.FlattenIndex | app.py:101 | flattening is row-major: cell (r, c) lands at r·width + c |
| Grids.Flatten | app.py:101 | `.flatten()` puts the first row first; FlattenIndex gives every cell's position |
| Grids.ReshapeRows | app.py:125 | reshaping h·w values gives an h × w raster that flattens back to the same values |
| Grids.Reshape | app.py:125 | reshape succeeds exactly when the length is height·width, and fails with a shape mismatch naming both sizes otherwise |
| Grids.ReshapeIndex | app.py:125 | cell (r, c) of the reshaped raster is value r·width + c |
| Grids.ReshapeFlatten | app.py:125 | reshape undoes flatten for every well-shaped raster |
| Grids.SubstituteNodata | app.py:100-101 | nodata substitution keeps the raster's shape and acts cell by cell |
| Grids.SubstituteKeepsShape | app.py:100-101 | an h × w raster stays h × w after nodata substitution |
| Grids.SubstituteClearsNodata | app.py:100-101 | nodata cells become 0, other cells are unchanged, and when nodata is not 0 no cell still equals it |
| Grids.SubstituteWithoutNodata | app.py:100-101 | with no nodata value declared (`== None` is never true), the raster is unchanged |
| Grids.SubstituteIdempotent | app.py:100-101 | substituting nodata twice is the same as substituting once |
| Geo.UpdateProfile | app.py:129 | the updated profile is float32 with one band, and every other entry keeps the reference file's value |
| Geo.MapBounds | app.py:135-136 | the first corner's latitude is the y of pixel corner (0, height); its longitude and the second corner's latitude are the x and y of pixel corner (0, 0); the second corner's longitude is the x of pixel corner (width, 0) |
| Geo.Centre | app.py:137 | the centre is equidistant from the two box corners in latitude and in longitude |
| Geo.CentreInsideBox | app.py:137 | the centre lies between the two corners in each coordinate |
| Geo.NorthUpBoundsAreCorners | app.py:135-136 | for an unrotated transform the box corners are the images of the raster's bottom-left and top-right corners |
| Geo.BoundsOrientation | app.py:135-136 | for a north-up raster the first corner is south of the second, and for positive pixel width it is west of it |
| Geo.NorthUpFootprintInsideBox | app.py:135-136 | for a north-up raster every point of the raster footprint lies inside the box |
| Geo.Ramp | app.py:140 | the ramp's opacity is the score and its green channel is the rest of 1; both stay in [0, 1] for a score in [0, 1] |
| Geo.RampIsColour | app.py:140 | a probability maps to a valid RGBA colour whose opacity is the probability, and higher probabilities are more opaque and less green |
| Tables.ColumnStack | app.py:102 | column_stack transposes: row i, column j is value i of layer j |
| Tables.ColumnStackColumns | app.py:102 | column j of the stacked table is layer j unchanged |
| Alignment.Reproject | app.py:93-99 | each layer is resampled onto the reference grid: height × width cells, each taken from the resampler |
| Alignment.AlignedColumn | app.py:100-101 | a layer column holds one value per reference cell; AlignedColumnCell gives each value |
| Alignment.AlignedColumnCell | app.py:93-101 | value r·width + c of a layer column is that layer's resampled cell (r, c) with nodata cleared |
| Alignment.StackLayers | app.py:88-101 | the stacking loop succeeds exactly when every key has a file that opens and reprojects; otherwise it fails at the first key in list order that does not, with the missing-file error or the read error for its file; on success it yields one aligned column per key, in order |
| Alignment.Align | app.py:77-102 | alignment fails only with a missing-file error or a raster read error, and on success gives a table with the canonical columns and one row per reference cell |
| Alignment.AlignMissingReference | app.py:83-84 | alignment fails with "Reference TIFF not found" exactly when no listed name starts with the reference key, whatever the files contain |
| Alignment.AlignReferenceUnreadable | app.py:85 | a resolved reference file that does not open fails alignment with the read error for that file |
| Alignment.ResolvedIffHasFile | app.py:78-82 | a key resolves to a file exactly when some listed name starts with it |
| Alignment.AlignMissingLayer | app.py:89-92 | with the reference file open, alignment fails with "Missing {key} raster" exactly for a key with no file whose earlier keys all have files that open and reproject |
| Alignment.AlignFailsAtFirstFailure | app.py:88-99 | with the reference file open, the first key whose file is missing or unreadable decides the error: its missing-file error, or the read error for its file |
| Alignment.AlignSucceeds | app.py:77-102 | alignment succeeds exactly when the reference file opens and every key has a file that opens and reprojects; each key then uses its last listed match |
| Alignment.AlignTableShape | app.py:85-102 | on success the reference file opened; the profile is its profile, and the table has one row per reference cell and the keys as columns |
| Alignment.AlignTableCell | app.py:89-102 | on success, table row r·width + c, column j, is layer j's resampled cell (r, c) with nodata cleared |
| Alignment.AlignIgnoresListingOrder | app.py:77-102 | with a single candidate per key, the table does not depend on the listing order |
| Columns.TrimStart | app.py:116 | leading whitespace is dropped, up to the first non-space character |
| Columns.TrimEnd | app.py:116 | trailing whitespace is dropped, back to the last non-space character |
| Columns.Strip | app.py:116 | the stripped label is the input minus whitespace runs at both ends, and has no whitespace at either end |
| Columns.StripTrimmed | app.py:116 | stripping a label with no surrounding whitespace leaves it unchanged |
| Columns.StripIdempotent | app.py:116 | stripping twice is the same as stripping once |
| Columns.NormaliseColumns | app.py:116-121 | label clean-up acts on each label separately and keeps their number and order |
| Columns.Rename | app.py:117-121 | an alias becomes a trimmed canonical key that is not itself an alias; any other label is kept |
| Columns.NormaliseName | app.py:116-121 | a cleaned label has no surrounding whitespace and is not an alias; it is the stripped label or a canonical key |
| Columns.NormaliseIdempotent | app.py:116-121 | cleaning a cleaned label changes nothing |
| Columns.AliasTargetIsKey | app.py:117-121 | every alias maps to a canonical key that is not itself an alias |
| Columns.AliasesBecomeKeys | app.py:117-121 | "ndvi", "landcover" and "soil_ph" (after stripping) become "NDVI", "lulc" and "soil_pH" |
| Columns.OtherNamesOnlyStripped | app.py:116-121 | a label that is not an alias is only stripped |
| Columns.NormaliseKeepsPlainNames | app.py:116-121 | labels that are trimmed and not aliases pass through unchanged |
| Columns.NormaliseKeepsKeys | app.py:116-121 | the canonical labels survive clean-up unchanged |
| Columns.IndicesOf | app.py:124 | the positions found for a label are exactly the positions holding it, in increasing order |
| Columns.IndicesOfUnique | app.py:124 | a label held at one position is found at that position only |
| Columns.MissingKeys | app.py:124 | the reported missing labels are exactly the requested labels the table lacks |
| Columns.Gather | app.py:124 | the gathered positions are exactly those whose label is requested |
| Columns.Select | app.py:124 | selection fails exactly when a requested label is absent, naming the absent labels, and otherwise keeps every row |
| Columns.GatherDistinct | app.py:124 | over distinct labels, each requested label picks one column, namely the one holding that label |
| Columns.SelectOwnColumns | app.py:124 | selecting a table's own distinct columns in their own order returns the table unchanged |
| Columns.SelectByName | app.py:124 | over distinct labels, the selected table has the requested labels and each value comes from the column of the same name |
| Errors.MessageIdentifiesError | app.py:84-109 | different failures never share a message text |
| Errors.Message | app.py:84-109 | exactly the missing-model and the two missing-file errors have a fixed text, and the missing key can be read back out of its message |
| Pipeline.PositiveScores | app.py:124 | `[:, 1]` keeps the second score of every row, in order |
| Pipeline.Overlay | app.py:138-140 | the overlay applies the colour ramp to every cell and keeps the raster's shape |
| Pipeline.Reconstruct | app.py:124-129 | reshaping the scores succeeds exactly when there is one score per reference cell; the raster then flattens back to the positive-class scores and carries the updated profile |
| Pipeline.ReconstructCell | app.py:124-125 | cell (r, c) of the prediction raster is the positive-class score of row r·width + c |
| Pipeline.FeatureTable | app.py:116-124 | label clean-up and selection fail only with a column mismatch, and keep every row |
| Pipeline.FeatureTableIsAligned | app.py:116-124 | label clean-up and selection return the aligned table unchanged |
| Pipeline.Infer | app.py:116-131 | past alignment, the request fails only at column selection, in the classifier, or at the reshape (the debug `print` assumed not to raise) |
| Pipeline.Score | app.py:124-140 | scoring fails only with an inference error or a shape mismatch |
| Pipeline.RunStages | app.py:113-124 | a run stops with the alignment error, or else scores the aligned table as it is |
| Pipeline.Run | app.py:113-142 | once the model is loaded, the request never fails with the model errors |
| Pipeline.Predict | app.py:105-112 | a missing or empty model name gives "No model selected", and a named model that fails to load gives the load error; these are the only ways to get either error |
| Pipeline.RunFailsAtAlignment | app.py:113 | the missing-file and raster read errors come only from alignment |
| Pipeline.PredictFailsAtAlignment | app.py:110-113 | with a usable model, the request fails with a missing-file or read error exactly when alignment does |
| Pipeline.PredictMissingReference | app.py:83-84 | with a usable model and no elevation file, the request answers "Reference TIFF not found" whatever the layer files contain |
| Pipeline.PredictReferenceUnreadable | app.py:85 | with a usable model and a resolved reference file that does not open, the request answers the read error for that file |
| Pipeline.PredictMissingLayer | app.py:89-92 | with a usable model and the reference file open, the request answers "Missing {key} raster" exactly for a key with no file whose earlier keys all have files that open and reproject |
| Pipeline.PredictFirstFailure | app.py:88-99 | with a usable model and the reference file open, the first key whose file is missing or unreadable decides the answer |
| Pipeline.PredictNeverColumnMismatch | app.py:116-124 | no request fails at column selection |
| Pipeline.PredictReachesScoring | app.py:104-124 | with a usable model, a reference file that opens, and a file that opens and reprojects for every key, alignment succeeds and its table goes to the model |
| Pipeline.ScoreOutcome | app.py:124-140 | a raising model gives an inference error; scores that do not fill the grid give a shape mismatch; otherwise the result is the positive-class raster with the updated profile, the reference box, its centre and the ramp overlay |
| Pipeline.PredictionCell | app.py:124-125 | cell (r, c) of a prediction is the positive-class score the model gave to table row r·width + c |
| Pipeline.ConstantModel | app.py:124-125 | a model that gives every row the same score p yields a raster filled with p |
| Pipeline.OverlayColours | app.py:140 | for probability scores, every overlay pixel is a valid colour whose opacity is that probability |

## Left out

- Flask routes, request parsing, JSON responses, the HTML templates and the JavaScript front end are not modelled. The request result is a `Result<Prediction, Error>`, and the three fixed error texts are in `Errors.Message`.
- File uploads, `secure_filename`, timestamps and file deletion are not modelled. They do I/O or read the clock. An upload is modelled only as a name of the form key + suffix added to the listing.
- `os.path.join` is not modelled. Paths are file names; joining them with the layer folder is the same for every key.
- `pickle.load` and the model's `predict_proba` are parameters. Their internals are foreign code.
- `rasterio.open` and bilinear `reproject` are parameters: whether each succeeds, the profile that opening yields, and the value each resampled cell receives. The model covers the order of the checks, the reference grid shape, and which file feeds which column. It does not cover the interpolation.
- Floating point is modelled as `real`:
  - NaN, infinity and float32 rounding (`astype(float32)`, `np.float32` buffers) are out of the model.
  - The nodata test `arr == ref.nodata` is exact real equality.
  - A NaN nodata value, which never compares equal, is not modelled.
- Grids.SubstituteClearsNodata: when the declared nodata value is 0.0, cells are replaced by 0.0 and so still equal nodata. The "no cell equals nodata" clause therefore holds only for a nonzero nodata value.
- `profile['transform']` is a 6-term affine `Affine(a, b, c, d, e, f)`. The bounds formula reads only a, c, e and f, as the source does, so the rotation terms b and d are ignored for the box. The north-up lemmas state their results under b = d = 0.
- folium rendering is out of the model: the HTML map, the zoom level and the 0.7 opacity. The map receives the box, the centre and the colormap's value at every cell of a `Prediction`; how folium turns those values into image pixels is not modelled.
- Writing the GeoTIFF and the HTML file is not modelled, and neither are the exceptions those writes can raise. The raster and profile written are the result.
- The text of library exceptions is not modelled: a failed raster open or reproject, an error inside the classifier, and numpy's reshape error. Each is an `Error` constructor, and `str(e)` for these is not fixed by the application.
- A raster that opens but fails at a later read is not distinguished: `warps` covers everything from the band read to the end of `reproject`.
- Pipeline.PositiveScores: the classifier is assumed to return exactly two scores per row (a binary model). With a single-class model, `[:, 1]` raises IndexError, and with three or more classes the extra scores are ignored; neither case is modelled.
- The debug `print` of the column list is assumed not to raise. On a stdout that cannot encode its emoji (a cp1252 or latin-1 stream) it raises UnicodeEncodeError, which `predict` reports as `str(e)`; that failure is not modelled and has no `Error` constructor.
- The directory listing and the outcome of opening and reprojecting each file are fixed for the whole request: `Rasters` gives the same answer every time a file name is read. The elevation file therefore opens in the layer loop as it did as the reference. A file deleted by a concurrent request between the listing and the open, or an upload that overwrites a same-second `{key}_{timestamp}.tif` in place, cannot be expressed.
- Columns.MissingKeys: a label requested twice and absent is listed twice, where pandas' KeyError lists it once; the error's text is not modelled, so only the set of missing labels is stated.
- The model-listing route's `.pkl` filter, the dashboard listing and the download/view routes only list or serve files, and are not modelled.
