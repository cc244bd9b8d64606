/** The column clean-up `predict` applies before inference:
    `df.columns = [c.strip() for c in df.columns]`, the alias renaming
    `ndvi -> NDVI`, `landcover -> lulc`, `soil_ph -> soil_pH`, and the
    selection `df[ALLOWED_TIFF_KEYS]`. */
module Columns {
  import opened Wrappers
  import opened Errors
  import opened LayerKeys
  import opened Tables

  /** The characters Python's argument-less `str.strip` removes (those
      `str.isspace` accepts). */
  predicate IsSpace(ch: char)
  {
    || ('\t' <= ch <= '\r')
    || ('\U{001C}' <= ch <= ' ')
    || ch == '\U{0085}' || ch == '\U{00A0}' || ch == '\U{1680}'
    || ('\U{2000}' <= ch <= '\U{200A}')
    || ch == '\U{2028}' || ch == '\U{2029}' || ch == '\U{202F}' || ch == '\U{205F}' || ch == '\U{3000}'
  }

  predicate AllSpace(s: string)
  {
    forall i :: 0 <= i < |s| ==> IsSpace(s[i])
  }

  /** Neither end of the name is white space. */
  predicate Trimmed(s: string)
  {
    s == [] || (!IsSpace(s[0]) && !IsSpace(s[|s| - 1]))
  }

  /** Drops leading white space. */
  function TrimStart(s: string): (r: string)
    ensures |r| <= |s| && r == s[|s| - |r|..]
    ensures AllSpace(s[..|s| - |r|])
    ensures r == [] || !IsSpace(r[0])
  {
    if s != [] && IsSpace(s[0]) then
      var r := TrimStart(s[1..]);
      assert s[1..][..|s| - 1 - |r|] == s[1..|s| - |r|];
      r
    else s
  }

  /** Drops trailing white space. */
  function TrimEnd(s: string): (r: string)
    ensures |r| <= |s| && r == s[..|r|]
    ensures AllSpace(s[|r|..])
    ensures r == [] || !IsSpace(r[|r| - 1])
  {
    if s != [] && IsSpace(s[|s| - 1]) then
      var r := TrimEnd(s[..|s| - 1]);
      assert s[..|s| - 1][|r|..] == s[|r|..|s| - 1];
      r
    else s
  }

  /** `r` is `s` with a white-space run removed from each end. */
  ghost predicate StripsTo(s: string, r: string)
  {
    exists i, j :: 0 <= i <= j <= |s| && r == s[i..j] && AllSpace(s[..i]) && AllSpace(s[j..])
  }

  /** `name.strip()`: the longest middle part between white-space runs. */
  function Strip(s: string): (r: string)
    ensures Trimmed(r) && StripsTo(s, r)
  {
    var t := TrimStart(s);
    var r := TrimEnd(t);
    StripParts(s, t, r);
    r
  }

  lemma StripParts(s: string, t: string, r: string)
    requires |t| <= |s| && t == s[|s| - |t|..] && AllSpace(s[..|s| - |t|]) && (t == [] || !IsSpace(t[0]))
    requires |r| <= |t| && r == t[..|r|] && AllSpace(t[|r|..]) && (r == [] || !IsSpace(r[|r| - 1]))
    ensures Trimmed(r) && StripsTo(s, r)
  {
    var i := |s| - |t|;
    var j := i + |r|;
    assert r == s[i..j];
    assert t[|r|..] == s[j..];
    assert r != [] ==> r[0] == t[0];
  }

  /** A name whose ends are not white space is its own strip. */
  lemma {:induction false} StripTrimmed(s: string)
    requires Trimmed(s)
    ensures Strip(s) == s
  {
  }

  /** Stripping twice is stripping once. */
  lemma StripIdempotent(s: string)
    ensures Strip(Strip(s)) == Strip(s)
  {
    StripTrimmed(Strip(s));
  }

  /** The rename table passed to `df.rename`. */
  const Aliases: map<string, string> := map["ndvi" := "NDVI", "landcover" := "lulc", "soil_ph" := "soil_pH"]

  /** `df.rename(columns=Aliases)` on one label: a listed alias is replaced,
      any other label stays as it is. */
  function Rename(name: string): (r: string)
    ensures name in Aliases ==> r in Keys && r !in Aliases && Trimmed(r)
    ensures name !in Aliases ==> r == name
  {
    if name in Aliases then
      AliasTargetIsKey(name);
      Aliases[name]
    else name
  }

  /** One column label after stripping and renaming: it has no surrounding
      whitespace and is not itself an alias. */
  function NormaliseName(name: string): (r: string)
    ensures Trimmed(r) && r !in Aliases
    ensures r == Strip(name) || r in Keys
  {
    Rename(Strip(name))
  }

  /** All column labels after stripping and renaming, in their order. */
  function NormaliseColumns(names: seq<string>): (r: seq<string>)
    ensures |r| == |names| && forall i :: 0 <= i < |names| ==> r[i] == NormaliseName(names[i])
  {
    seq(|names|, i requires 0 <= i < |names| => NormaliseName(names[i]))
  }

  /** Normalising a name is stable: its result is trimmed, is not itself an
      alias, and normalises to itself. */
  lemma NormaliseIdempotent(name: string)
    ensures NormaliseName(NormaliseName(name)) == NormaliseName(name)
  {
    var s := Strip(name);
    if s in Aliases {
      AliasTargetIsKey(s);
      StripTrimmed(Aliases[s]);
    } else {
      StripTrimmed(s);
    }
  }

  /** Every alias is renamed to a trimmed canonical key that is not itself an alias. */
  lemma AliasTargetIsKey(alias: string)
    requires alias in Aliases
    ensures Aliases[alias] in Keys && Trimmed(Aliases[alias]) && Aliases[alias] !in Aliases
  {
    var k := Aliases[alias];
    if alias == "ndvi" {
      assert k == "NDVI" == Keys[0];
    } else if alias == "landcover" {
      assert k == "lulc" == Keys[3];
    } else {
      assert k == "soil_pH" == Keys[7];
      assert k[6] != "soil_ph"[6];
    }
  }

  /** The aliases, padded or not, become their canonical keys. */
  lemma AliasesBecomeKeys(name: string)
    requires Strip(name) in Aliases
    ensures NormaliseName(name) in Keys
    ensures Strip(name) == "ndvi" ==> NormaliseName(name) == "NDVI"
    ensures Strip(name) == "landcover" ==> NormaliseName(name) == "lulc"
    ensures Strip(name) == "soil_ph" ==> NormaliseName(name) == "soil_pH"
  {
    AliasTargetIsKey(Strip(name));
  }

  /** Any label that is not an alias after stripping keeps its stripped text. */
  lemma OtherNamesOnlyStripped(name: string)
    requires Strip(name) !in Aliases
    ensures NormaliseName(name) == Strip(name)
  {
  }

  /** Normalisation leaves trimmed labels that are not aliases as they are. */
  lemma NormaliseKeepsPlainNames(names: seq<string>)
    requires forall i :: 0 <= i < |names| ==> Trimmed(names[i]) && names[i] !in Aliases
    ensures NormaliseColumns(names) == names
  {
    forall i | 0 <= i < |names|
      ensures NormaliseName(names[i]) == names[i]
    {
      StripTrimmed(names[i]);
    }
  }

  /** Normalisation leaves the canonical key list as it is: the keys are
      trimmed and none of them is an alias. */
  lemma NormaliseKeepsKeys()
    ensures NormaliseColumns(Keys) == Keys
  {
    forall i | 0 <= i < |Keys|
      ensures Trimmed(Keys[i]) && Keys[i] !in Aliases
    {
      KeyIsPlain(i);
    }
    NormaliseKeepsPlainNames(Keys);
  }

  lemma KeyIsPlain(i: nat)
    requires i < |Keys|
    ensures Trimmed(Keys[i]) && Keys[i] !in Aliases
  {
    var k := Keys[i];
    assert 'A' <= k[0] <= 'z' && 'A' <= k[|k| - 1] <= 'z' by {
      if i == 0 { assert k == "NDVI"; }
      else if i == 1 { assert k == "aspect"; }
      else if i == 2 { assert k == "elevation"; }
      else if i == 3 { assert k == "lulc"; }
      else if i == 4 { assert k == "org_carbon"; }
      else if i == 5 { assert k == "precip"; }
      else if i == 6 { assert k == "slope"; }
      else if i == 7 { assert k == "soil_pH"; }
      else { assert k == "temp"; }
    }
    assert k != "ndvi" && k != "landcover" && k != "soil_ph" by {
      if i == 7 {
        assert k[6] != "soil_ph"[6];
      }
    }
  }

  /** Positions from `from` on whose label is `key`, in increasing order. */
  function IndicesOf(names: seq<string>, key: string, from: nat): (idx: seq<nat>)
    ensures forall p :: 0 <= p < |idx| ==> from <= idx[p] < |names| && names[idx[p]] == key
    ensures forall q :: from <= q < |names| && names[q] == key ==> q in idx
    ensures forall p, q :: 0 <= p < q < |idx| ==> idx[p] < idx[q]
    decreases |names| - from
  {
    if from >= |names| then []
    else (if names[from] == key then [from] else []) + IndicesOf(names, key, from + 1)
  }

  /** A label that occurs once yields its single position. */
  lemma {:induction false} IndicesOfUnique(names: seq<string>, key: string, from: nat, q: nat)
    requires from <= q < |names| && names[q] == key
    requires forall p :: from <= p < |names| && names[p] == key ==> p == q
    ensures IndicesOf(names, key, from) == [q]
    decreases |names| - from
  {
    if from < q {
      IndicesOfUnique(names, key, from + 1, q);
    } else {
      IndicesOfAbsent(names, key, from + 1);
    }
  }

  /** A label that does not occur yields no position. */
  lemma {:induction false} IndicesOfAbsent(names: seq<string>, key: string, from: nat)
    requires forall p :: from <= p < |names| ==> names[p] != key
    ensures IndicesOf(names, key, from) == []
    decreases |names| - from
  {
    if from < |names| {
      IndicesOfAbsent(names, key, from + 1);
    }
  }

  /** The positions `df[keys]` takes: every column carrying a requested
      label. `GatherDistinct` fixes their order when the labels are distinct. */
  function Gather(names: seq<string>, keys: seq<string>): (idx: seq<nat>)
    ensures forall p :: 0 <= p < |idx| ==> idx[p] < |names| && names[idx[p]] in keys
    ensures forall k, q :: k in keys && 0 <= q < |names| && names[q] == k ==> q in idx
  {
    if keys == [] then []
    else
      var head := IndicesOf(names, keys[0], 0);
      var rest := Gather(names, keys[1..]);
      assert forall k :: k in keys ==> k == keys[0] || k in keys[1..];
      assert forall q :: q in head ==> q in head + rest;
      assert forall q :: q in rest ==> q in head + rest;
      head + rest
  }

  /** The requested labels the frame does not have. */
  function MissingKeys(names: seq<string>, keys: seq<string>): (missing: seq<string>)
    ensures forall k :: k in missing <==> k in keys && k !in names
  {
    if keys == [] then []
    else (if keys[0] in names then [] else [keys[0]]) + MissingKeys(names, keys[1..])
  }

  /** Nothing is missing when every requested label is present. */
  lemma {:induction false} MissingKeysNone(names: seq<string>, keys: seq<string>)
    requires forall k :: k in keys ==> k in names
    ensures MissingKeys(names, keys) == []
  {
    if keys != [] {
      assert keys[0] in keys;
      MissingKeysNone(names, keys[1..]);
    }
  }

  /** `df[keys]`: a KeyError naming the missing labels, or the frame cut
      down to the requested columns in request order. */
  function Select(t: Frame, keys: seq<string>): (r: Result<Frame, Error>)
    requires WellFormed(t)
    ensures r.Err? <==> exists k :: k in keys && k !in t.columns
    ensures r.Err? ==> r.error == ColumnMismatch(MissingKeys(t.columns, keys))
    ensures r.Ok? ==> WellFormed(r.value) && |r.value.rows| == |t.rows|
  {
    var missing := MissingKeys(t.columns, keys);
    if missing != [] then
      assert missing[0] in missing;
      Err(ColumnMismatch(missing))
    else
      var idx := Gather(t.columns, keys);
      Ok(Frame(seq(|idx|, p requires 0 <= p < |idx| => t.columns[idx[p]]),
               seq(|t.rows|, i requires 0 <= i < |t.rows| =>
                 seq(|idx|, p requires 0 <= p < |idx| => t.rows[i][idx[p]]))))
  }

  predicate Distinct(names: seq<string>)
  {
    forall p, q :: 0 <= p < |names| && 0 <= q < |names| && names[p] == names[q] ==> p == q
  }

  /** With distinct labels that cover the request, `Gather` finds each
      requested key's single position. */
  lemma {:induction false} GatherDistinct(names: seq<string>, keys: seq<string>)
    requires Distinct(names)
    requires forall k :: k in keys ==> k in names
    ensures |Gather(names, keys)| == |keys|
    ensures forall p :: 0 <= p < |keys| ==> names[Gather(names, keys)[p]] == keys[p]
  {
    if keys != [] {
      assert keys[0] in keys;
      var q :| 0 <= q < |names| && names[q] == keys[0];
      IndicesOfUnique(names, keys[0], 0, q);
      GatherDistinct(names, keys[1..]);
    }
  }

  /** Selecting a frame's own distinct labels in their own order returns the
      frame unchanged. */
  lemma SelectOwnColumns(t: Frame)
    requires WellFormed(t) && Distinct(t.columns)
    ensures Select(t, t.columns) == Ok(t)
  {
    var names := t.columns;
    GatherDistinct(names, names);
    var idx := Gather(names, names);
    assert forall p :: 0 <= p < |idx| ==> idx[p] == p;
    MissingKeysNone(names, names);
    var s := Select(t, names).value;
    assert s.columns == names;
    forall i | 0 <= i < |t.rows|
      ensures s.rows[i] == t.rows[i]
    {
      assert |s.rows[i]| == |idx| == |t.rows[i]|;
    }
    assert s.rows == t.rows;
    assert Select(t, names) == Ok(s);
  }

  /** With distinct labels covering the request, column p of the selection
      is the frame's column labelled keys[p]. */
  lemma SelectByName(t: Frame, keys: seq<string>, i: nat, p: nat)
    requires WellFormed(t) && Distinct(t.columns)
    requires forall k :: k in keys ==> k in t.columns
    requires i < |t.rows| && p < |keys|
    ensures Select(t, keys).Ok?
    ensures Select(t, keys).value.columns == keys
    ensures exists q :: 0 <= q < |t.columns| && t.columns[q] == keys[p] && Select(t, keys).value.rows[i][p] == t.rows[i][q]
  {
    GatherDistinct(t.columns, keys);
    var idx := Gather(t.columns, keys);
    assert t.columns[idx[p]] == keys[p];
  }
}
