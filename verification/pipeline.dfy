/** The body of `predict`: load the chosen model, align the layers, fix the
    column labels, score every pixel, rebuild the probability raster and its
    profile, and compute the overlay geometry. Writing the GeoTIFF and the
    HTML map are left to the caller; their contents are the result here. */
module Pipeline {
  import opened Wrappers
  import opened Errors
  import opened LayerKeys
  import opened Resolution
  import opened Grids
  import opened Geo
  import opened Tables
  import opened Alignment
  import opened Columns

  /** The loaded model's `predict_proba` for a binary classifier: two class
      scores per table row, or `None` when the call raises. */
  type Classifier = Frame -> Option<seq<(real, real)>>

  /** What one successful request produces: the probability grid and its
      profile (written as the GeoTIFF), and the overlay bounds, the map
      centre and the colormap's value at every cell (handed to the map
      overlay). */
  datatype Prediction = Prediction(image: Grid, profile: Profile, bounds: Box, centre: LatLon, overlay: seq<seq<Rgba>>)

  /** `predict_proba(table)[:, 1]`: the second score of every row. */
  function PositiveScores(scores: seq<(real, real)>): (v: seq<real>)
    ensures |v| == |scores| && forall i :: 0 <= i < |scores| ==> v[i] == scores[i].1
  {
    seq(|scores|, i requires 0 <= i < |scores| => scores[i].1)
  }

  /** The overlay image: the colour ramp applied to every cell. */
  function Overlay(image: Grid): (o: seq<seq<Rgba>>)
    ensures |o| == |image| && forall r :: 0 <= r < |image| ==> |o[r]| == |image[r]|
    ensures forall r, c :: 0 <= r < |image| && 0 <= c < |image[r]| ==> o[r][c] == Ramp(image[r][c])
  {
    seq(|image|, r requires 0 <= r < |image| =>
      seq(|image[r]|, c requires 0 <= c < |image[r]| => Ramp(image[r][c])))
  }

  /** Reshape the positive-class scores to the reference grid and give the
      output a single float32 band; fails when the scores do not fill the grid. */
  function Reconstruct(scores: seq<(real, real)>, ref: Profile): (r: Result<(Grid, Profile), Error>)
    ensures r.Ok? <==> |scores| == ref.height * ref.width
    ensures r.Err? ==> r.error == ShapeMismatch(ref.height * ref.width, |scores|)
    ensures r.Ok? ==> IsGrid(r.value.0, ref.height, ref.width) && Flatten(r.value.0) == PositiveScores(scores)
    ensures r.Ok? ==> r.value.1 == UpdateProfile(ref)
  {
    var image :- Reshape(PositiveScores(scores), ref.height, ref.width);
    Ok((image, UpdateProfile(ref)))
  }

  /** Cell (r, c) of the probability raster is the second score of table row r*width + c. */
  lemma ReconstructCell(scores: seq<(real, real)>, ref: Profile, r: nat, c: nat)
    requires Reconstruct(scores, ref).Ok? && r < ref.height && c < ref.width
    ensures Offset(r, c, ref.width) < |scores|
    ensures Reconstruct(scores, ref).value.0[r][c] == scores[Offset(r, c, ref.width)].1
  {
    ReshapeIndex(PositiveScores(scores), ref.height, ref.width, r, c);
  }

  /** The table handed to the model: the aligned table with its labels
      stripped and renamed, cut down to `ALLOWED_TIFF_KEYS`. */
  function FeatureTable(aligned: Frame): (r: Result<Frame, Error>)
    requires WellFormed(aligned)
    ensures r.Err? ==> r.error.ColumnMismatch?
    ensures r.Ok? ==> |r.value.rows| == |aligned.rows|
  {
    Select(Frame(NormaliseColumns(aligned.columns), aligned.rows), Keys)
  }

  /** On a table with the canonical labels the clean-up is the identity, so
      selecting `ALLOWED_TIFF_KEYS` never raises and the model sees the
      aligned table unchanged. */
  lemma FeatureTableIsAligned(aligned: Frame)
    requires WellFormed(aligned) && aligned.columns == Keys
    ensures FeatureTable(aligned) == Ok(aligned)
  {
    NormaliseKeepsKeys();
    KeysArePrefixFree();
    SelectOwnColumns(aligned);
  }

  /** From the feature table on: score every row, rebuild the raster and
      its profile, place the overlay. */
  function Score(model: Classifier, table: Frame, ref: Profile): (r: Result<Prediction, Error>)
    ensures r.Err? ==> r.error == InferenceError || r.error.ShapeMismatch?
  {
    var scores := model(table);
    if scores.None? then Err(InferenceError)
    else
      var output :- Reconstruct(scores.value, ref);
      var box := MapBounds(output.1.transform, output.1.height, output.1.width);
      Ok(Prediction(output.0, output.1, box, Centre(box), Overlay(output.0)))
  }

  /** From the aligned table on: clean up the labels, select the canonical
      columns, and score. */
  function Infer(model: Classifier, aligned: Frame, ref: Profile): (r: Result<Prediction, Error>)
    requires WellFormed(aligned)
    ensures r.Err? ==> r.error.ColumnMismatch? || r.error == InferenceError || r.error.ShapeMismatch?
  {
    var table :- FeatureTable(aligned);
    Score(model, table, ref)
  }

  /** From the directory listing on, with the model loaded. */
  function Run(model: Classifier, listing: seq<string>, io: Rasters): (r: Result<Prediction, Error>)
    ensures r.Err? ==> r.error != NoModelSelected && r.error != ModelLoadError
  {
    var aligned :- Align(listing, Keys, Reference, io);
    Infer(model, aligned.0, aligned.1)
  }

  /** One prediction request. `modelName` is the form field, `load` the
      unpickling of a model file (`None` when it fails), `listing` the
      layer directory, `io` the raster reads. */
  function Predict(modelName: Option<string>, load: string -> Option<Classifier>, listing: seq<string>,
                   io: Rasters): (r: Result<Prediction, Error>)
    ensures r == Err(NoModelSelected) <==> modelName.None? || modelName.value == ""
    ensures r == Err(ModelLoadError) <==> modelName.Some? && modelName.value != "" && load(modelName.value).None?
  {
    if modelName.None? || modelName.value == "" then Err(NoModelSelected)
    else
      var model := load(modelName.value);
      if model.None? then Err(ModelLoadError)
      else Run(model.value, listing, io)
  }

  /** A named model that loads: the request reaches the layer alignment. */
  predicate ModelReady(modelName: Option<string>, load: string -> Option<Classifier>)
  {
    modelName.Some? && modelName.value != "" && load(modelName.value).Some?
  }

  /** A run either stops at alignment with its error, or scores the aligned
      table unchanged: the label clean-up never fails on it. */
  lemma RunStages(model: Classifier, listing: seq<string>, io: Rasters)
    ensures var aligned := Align(listing, Keys, Reference, io);
      && (aligned.Err? ==> Run(model, listing, io) == Err(aligned.error))
      && (aligned.Ok? ==> Run(model, listing, io) == Score(model, aligned.value.0, aligned.value.1))
  {
    var aligned := Align(listing, Keys, Reference, io);
    if aligned.Ok? {
      FeatureTableIsAligned(aligned.value.0);
    }
  }

  /** Only alignment raises the missing-file and raster-read errors. */
  lemma RunFailsAtAlignment(model: Classifier, listing: seq<string>, io: Rasters, e: Error)
    requires e == MissingReferenceLayer || e.MissingLayer? || e.RasterReadError?
    ensures Run(model, listing, io) == Err(e) <==> Align(listing, Keys, Reference, io) == Err(e)
  {
    RunStages(model, listing, io);
  }

  /** With a usable model, the request fails at alignment exactly as the
      alignment does. */
  lemma PredictFailsAtAlignment(modelName: Option<string>, load: string -> Option<Classifier>, listing: seq<string>,
                                io: Rasters, e: Error)
    requires ModelReady(modelName, load)
    requires e == MissingReferenceLayer || e.MissingLayer? || e.RasterReadError?
    ensures Predict(modelName, load, listing, io) == Err(e) <==> Align(listing, Keys, Reference, io) == Err(e)
  {
    RunFailsAtAlignment(load(modelName.value).value, listing, io, e);
  }

  /** With a usable model and no file starting with "elevation", the request
      fails with "Reference TIFF not found" before any raster is read: the
      outcome is the same whatever the files contain. */
  lemma PredictMissingReference(modelName: Option<string>, load: string -> Option<Classifier>, listing: seq<string>,
                                io: Rasters, other: Rasters)
    requires ModelReady(modelName, load)
    requires !HasFile(listing, Reference)
    ensures Predict(modelName, load, listing, io) == Err(MissingReferenceLayer)
    ensures Predict(modelName, load, listing, io) == Predict(modelName, load, listing, other)
  {
    var model := load(modelName.value).value;
    AlignMissingReference(listing, Keys, Reference, io);
    AlignMissingReference(listing, Keys, Reference, other);
    RunFailsAtAlignment(model, listing, io, MissingReferenceLayer);
    RunFailsAtAlignment(model, listing, other, MissingReferenceLayer);
  }

  /** With a usable model and a reference file that does not open, the
      request answers the rasterio error for that file. */
  lemma PredictReferenceUnreadable(modelName: Option<string>, load: string -> Option<Classifier>, listing: seq<string>,
                                   io: Rasters)
    requires ModelReady(modelName, load)
    requires ResolvePaths(listing, Keys)[Reference].Some?
    requires io.open(ResolvePaths(listing, Keys)[Reference].value).None?
    ensures Predict(modelName, load, listing, io) == Err(RasterReadError(ResolvePaths(listing, Keys)[Reference].value))
  {
    var path := ResolvePaths(listing, Keys)[Reference].value;
    AlignReferenceUnreadable(listing, Keys, Reference, io);
    RunFailsAtAlignment(load(modelName.value).value, listing, io, RasterReadError(path));
  }

  /** With a usable model and the reference file open, the request fails with
      "Missing {key} raster" exactly for the first key, in canonical order,
      that has no file, provided every earlier key's file opened and
      reprojected. */
  lemma PredictMissingLayer(modelName: Option<string>, load: string -> Option<Classifier>, listing: seq<string>,
                            io: Rasters, i: nat)
    requires ModelReady(modelName, load)
    requires ReferenceOpens(listing, Keys, Reference, io) && i < |Keys|
    ensures Predict(modelName, load, listing, io) == Err(MissingLayer(Keys[i])) <==>
      !HasFile(listing, Keys[i]) && AvailableBefore(listing, Keys, Reference, io, i)
  {
    KeysArePrefixFree();
    AlignMissingLayer(listing, Keys, Reference, io, i);
    PredictFailsAtAlignment(modelName, load, listing, io, MissingLayer(Keys[i]));
  }

  /** With a usable model and the reference file open, the first key in
      canonical order whose file is missing or unreadable decides the answer. */
  lemma PredictFirstFailure(modelName: Option<string>, load: string -> Option<Classifier>, listing: seq<string>,
                            io: Rasters, i: nat)
    requires ModelReady(modelName, load)
    requires ReferenceOpens(listing, Keys, Reference, io)
    requires FirstFailureAt(ResolvePaths(listing, Keys), Keys, io, ReferenceProfile(listing, Keys, Reference, io), i)
    ensures Predict(modelName, load, listing, io) == Err(Failure(ResolvePaths(listing, Keys), Keys[i]))
  {
    var e := Failure(ResolvePaths(listing, Keys), Keys[i]);
    AlignFailsAtFirstFailure(listing, Keys, Reference, io, i);
    RunFailsAtAlignment(load(modelName.value).value, listing, io, e);
  }

  /** Selecting the canonical columns never fails: no request ends in a
      column mismatch. */
  lemma PredictNeverColumnMismatch(modelName: Option<string>, load: string -> Option<Classifier>, listing: seq<string>,
                                   io: Rasters)
    ensures var r := Predict(modelName, load, listing, io);
      r.Err? ==> !r.error.ColumnMismatch?
  {
    if ModelReady(modelName, load) {
      RunStages(load(modelName.value).value, listing, io);
    }
  }

  /** A request whose reference file opens and whose every layer has a file
      that opens and reprojects scores the aligned table. */
  lemma PredictReachesScoring(modelName: Option<string>, load: string -> Option<Classifier>, listing: seq<string>,
                              io: Rasters)
    requires ModelReady(modelName, load)
    requires ReferenceOpens(listing, Keys, Reference, io)
    requires AvailableBefore(listing, Keys, Reference, io, |Keys|)
    ensures Align(listing, Keys, Reference, io).Ok?
    ensures var aligned := Align(listing, Keys, Reference, io).value;
      Predict(modelName, load, listing, io) == Score(load(modelName.value).value, aligned.0, aligned.1)
  {
    AlignSucceeds(listing, Keys, Reference, io);
    RunStages(load(modelName.value).value, listing, io);
  }

  /** Scoring: a raising model gives InferenceError; scores that do not fill
      the grid give ShapeMismatch; otherwise the raster holds the
      positive-class scores in row-major order, written with the reference
      geometry as a single float32 band, with the overlay on the reference box. */
  lemma ScoreOutcome(model: Classifier, table: Frame, ref: Profile)
    ensures var scores := model(table);
      var r := Score(model, table, ref);
      var n := ref.height * ref.width;
      && (scores.None? ==> r == Err(InferenceError))
      && (scores.Some? && |scores.value| != n ==> r == Err(ShapeMismatch(n, |scores.value|)))
      && (scores.Some? && |scores.value| == n ==>
            && r.Ok?
            && IsGrid(r.value.image, ref.height, ref.width)
            && Flatten(r.value.image) == PositiveScores(scores.value)
            && r.value.profile == UpdateProfile(ref)
            && r.value.bounds == MapBounds(ref.transform, ref.height, ref.width)
            && r.value.centre == Centre(r.value.bounds)
            && r.value.overlay == Overlay(r.value.image))
  {
  }

  /** Cell (r, c) of a successful prediction is the positive-class score the
      model gave table row r*width + c. */
  lemma PredictionCell(model: Classifier, table: Frame, ref: Profile, r: nat, c: nat)
    requires Score(model, table, ref).Ok? && r < ref.height && c < ref.width
    ensures model(table).Some? && Offset(r, c, ref.width) < |model(table).value|
    ensures Score(model, table, ref).value.image[r][c] == model(table).value[Offset(r, c, ref.width)].1
  {
    ScoreOutcome(model, table, ref);
    ReconstructCell(model(table).value, ref, r, c);
  }

  /** A model that gives every row the same positive-class score p yields a
      raster filled with p, as a stub model answering 0.5 for every row does. */
  lemma ConstantModel(model: Classifier, table: Frame, ref: Profile, p: real)
    requires |table.rows| == ref.height * ref.width
    requires model(table).Some? && |model(table).value| == |table.rows|
    requires forall i :: 0 <= i < |model(table).value| ==> model(table).value[i].1 == p
    ensures Score(model, table, ref).Ok?
    ensures var image := Score(model, table, ref).value.image;
      IsGrid(image, ref.height, ref.width)
      && forall r, c :: 0 <= r < ref.height && 0 <= c < ref.width ==> image[r][c] == p
  {
    ScoreOutcome(model, table, ref);
    forall r, c | 0 <= r < ref.height && 0 <= c < ref.width
      ensures Score(model, table, ref).value.image[r][c] == p
    {
      PredictionCell(model, table, ref, r, c);
    }
  }

  /** When every score is a probability, every overlay pixel is a valid colour
      whose opacity is that probability. */
  lemma OverlayColours(image: Grid)
    requires forall r, c :: 0 <= r < |image| && 0 <= c < |image[r]| ==> InUnit(image[r][c])
    ensures forall r, c :: 0 <= r < |image| && 0 <= c < |image[r]| ==>
      var k := Overlay(image)[r][c];
      InUnit(k.green) && InUnit(k.alpha) && k.alpha == image[r][c] && k.green + k.alpha == 1.0
  {
    forall r, c | 0 <= r < |image| && 0 <= c < |image[r]|
      ensures InUnit(Overlay(image)[r][c].green)
    {
      RampIsColour(image[r][c], image[r][c]);
    }
  }
}
