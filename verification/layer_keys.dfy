/** The fixed list of raster layer keys and the file-name prefix rule that
    identifies a layer file. */
module LayerKeys {

  /** The nine layer keys in canonical order: the column order of the feature
      table and the order in which missing layers are reported. */
  const Keys: seq<string> :=
    ["NDVI", "aspect", "elevation", "lulc", "org_carbon", "precip", "slope", "soil_pH", "temp"]

  /** The key whose raster fixes the reference grid. */
  const Reference: string := "elevation"

  /** Python's `name.startswith(prefix)`. */
  predicate StartsWith(name: string, prefix: string)
  {
    prefix <= name
  }

  /** No key of the list starts with a different key of the list. */
  predicate PrefixFree(keys: seq<string>)
  {
    forall i, j :: 0 <= i < |keys| && 0 <= j < |keys| && i != j ==> !StartsWith(keys[j], keys[i])
  }

  lemma ReferenceIsKey()
    ensures Reference in Keys && Keys[2] == Reference
  {
  }

  /** The canonical list is prefix-free (and so free of repetitions). */
  lemma KeysArePrefixFree()
    ensures PrefixFree(Keys)
    ensures forall i, j :: 0 <= i < |Keys| && 0 <= j < |Keys| && Keys[i] == Keys[j] ==> i == j
  {
    forall i, j | 0 <= i < |Keys| && 0 <= j < |Keys| && i != j
      ensures !StartsWith(Keys[j], Keys[i])
    {
      if StartsWith(Keys[j], Keys[i]) {
        PrefixSharesHead(Keys[i], Keys[j]);
      }
    }
  }

  /** A prefix of length two or more shares the first two characters. */
  lemma PrefixSharesHead(p: string, s: string)
    requires p <= s && |p| >= 2
    ensures p[0] == s[0] && p[1] == s[1]
  {
  }

  /** Two prefixes of one name are prefixes of each other. */
  lemma PrefixesCompare(name: string, p: string, q: string)
    requires StartsWith(name, p) && StartsWith(name, q) && |p| <= |q|
    ensures StartsWith(q, p)
  {
    assert p == name[..|p|] && q == name[..|q|];
    assert q[..|p|] == name[..|p|];
  }

  /** Under a prefix-free key list a file name starts with at most one key. */
  lemma AtMostOneKeyMatches(keys: seq<string>, name: string)
    requires PrefixFree(keys)
    ensures forall i, j :: 0 <= i < |keys| && 0 <= j < |keys| && StartsWith(name, keys[i]) && StartsWith(name, keys[j]) ==> i == j
  {
    forall i, j | 0 <= i < |keys| && 0 <= j < |keys| && StartsWith(name, keys[i]) && StartsWith(name, keys[j])
      ensures i == j
    {
      if |keys[i]| <= |keys[j]| {
        PrefixesCompare(name, keys[i], keys[j]);
      } else {
        PrefixesCompare(name, keys[j], keys[i]);
      }
    }
  }

  /** An upload stored as `<key>_<timestamp>.tif` (or any `key + suffix`)
      starts with its own key and with no other key of a prefix-free list. */
  lemma UploadNameMatchesOnlyItsKey(keys: seq<string>, key: string, suffix: string)
    requires PrefixFree(keys) && key in keys
    ensures forall k :: k in keys ==> (StartsWith(key + suffix, k) <==> k == key)
  {
    assert StartsWith(key + suffix, key) by {
      assert (key + suffix)[..|key|] == key;
    }
    AtMostOneKeyMatches(keys, key + suffix);
  }
}
