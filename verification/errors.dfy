/** The ways a prediction request can fail, one constructor per kind of
    failure. `predict` catches every exception and reports `str(e)` as the
    message; a missing model name is answered by an early return instead. */
module Errors {
  import opened Wrappers

  datatype Error =
    | NoModelSelected                          // the form carried no model file name
    | ModelLoadError                           // the pickled model could not be opened or loaded
    | MissingReferenceLayer                    // no listed file starts with "elevation"
    | MissingLayer(key: string)                // the first layer key without a file
    | RasterReadError(file: string)            // rasterio could not open the file or reproject it
    | ColumnMismatch(missing: seq<string>)     // selecting the canonical columns raised KeyError
    | InferenceError                           // the classifier raised
    | ShapeMismatch(expected: nat, actual: nat) // the score vector does not fill the grid

  /** The message text fixed by the application itself; `None` where the text
      comes from a library exception the model does not see. */
  function Message(e: Error): (m: Option<string>)
    ensures m.Some? <==> e == NoModelSelected || e == MissingReferenceLayer || e.MissingLayer?
    ensures e.MissingLayer? ==> |m.value| == |e.key| + 15 && m.value[8..|m.value| - 7] == e.key
  {
    match e
    case NoModelSelected => Some("No model selected")
    case MissingReferenceLayer => Some("Reference TIFF not found")
    case MissingLayer(key) => Some("Missing " + key + " raster")
    case _ => None
  }

  /** A fixed message identifies its error, in particular the missing key. */
  lemma MessageIdentifiesError(e1: Error, e2: Error)
    requires Message(e1).Some? && Message(e1) == Message(e2)
    ensures e1 == e2
  {
    if e1.MissingLayer? && e2.MissingLayer? {
      var m := Message(e1).value;
      assert m == "Missing " + e2.key + " raster";
      assert e1.key == m[8..|m| - 7] == e2.key;
    } else if e1.MissingLayer? {
      FixedMessageHead(e2);
      MissingLayerMessageHead(e1.key);
    } else if e2.MissingLayer? {
      FixedMessageHead(e1);
      MissingLayerMessageHead(e2.key);
    }
  }

  lemma FixedMessageHead(e: Error)
    requires Message(e).Some? && !e.MissingLayer?
    ensures Message(e).value[..2] != "Mi"
  {
    if e.NoModelSelected? {
      assert Message(e).value[..2] == "No";
    } else {
      assert Message(e).value[..2] == "Re";
    }
  }

  lemma MissingLayerMessageHead(key: string)
    ensures ("Missing " + key + " raster")[..2] == "Mi"
  {
  }
}
