/** Layer-file resolution: which listed file each layer key points at.
    `ResolvePaths` follows the scan in `align_and_resample_tiffs` (every key a
    name starts with is pointed at it), `ListTiffs` the scan in `list_tiffs`
    (the first such key only). Both are stated against one reference
    definition, `LastMatch`. The key list is a parameter; the application
    always passes `LayerKeys.Keys`. */
module Resolution {
  import opened Wrappers
  import opened LayerKeys

  /** Key to file name; `None` while no file has matched the key. */
  type Paths = map<string, Option<string>>

  /** `i` is the position of the last listed name that starts with `key`. */
  ghost predicate IsLastMatch(listing: seq<string>, key: string, i: int)
  {
    && 0 <= i < |listing|
    && StartsWith(listing[i], key)
    && forall j :: i < j < |listing| ==> !StartsWith(listing[j], key)
  }

  /** Reference definition: the last listed name that starts with `key`. */
  function LastMatch(listing: seq<string>, key: string): (r: Option<string>)
    ensures r.None? <==> forall i :: 0 <= i < |listing| ==> !StartsWith(listing[i], key)
    ensures r.Some? ==> exists i :: IsLastMatch(listing, key, i) && listing[i] == r.value
  {
    if listing == [] then None
    else
      var n := |listing| - 1;
      if StartsWith(listing[n], key) then
        assert IsLastMatch(listing, key, n);
        Some(listing[n])
      else
        var r := LastMatch(listing[..n], key);
        assert forall i :: 0 <= i < n ==> listing[..n][i] == listing[i];
        assert r.Some? ==> exists i :: IsLastMatch(listing, key, i) && listing[i] == r.value by {
          if r.Some? {
            var i :| IsLastMatch(listing[..n], key, i) && listing[..n][i] == r.value;
            assert IsLastMatch(listing, key, i);
          }
        }
        r
  }

  /** `paths = {key: None for key in ALLOWED_TIFF_KEYS}` */
  function Unresolved(keys: seq<string>): (paths: Paths)
    ensures paths.Keys == set k | k in keys
    ensures forall k :: k in paths ==> paths[k] == None
  {
    map k | k in keys :: None
  }

  /** The inner loop for one name: every key in `keys` that the name starts
      with is pointed at the name; there is no `break`. */
  function ScanName(paths: Paths, name: string, keys: seq<string>): (r: Paths)
    ensures r.Keys == paths.Keys + (set k | k in keys && StartsWith(name, k))
    ensures forall k :: k in r ==> r[k] == (if k in keys && StartsWith(name, k) then Some(name) else paths[k])
    decreases |keys|
  {
    if keys == [] then paths
    else
      var next := if StartsWith(name, keys[0]) then paths[keys[0] := Some(name)] else paths;
      ScanName(next, name, keys[1..])
  }

  /** The state of `paths` once the outer loop has visited every listed name. */
  function ResolvePaths(listing: seq<string>, keys: seq<string>): (paths: Paths)
    ensures paths.Keys == set k | k in keys
    decreases |listing|
  {
    if listing == [] then Unresolved(keys)
    else ScanName(ResolvePaths(listing[..|listing| - 1], keys), listing[|listing| - 1], keys)
  }

  /** Each key resolves to the last listed name starting with it: with
      several candidates, the last one in listing order wins. */
  lemma {:induction false} ResolvePathsIsLastMatch(listing: seq<string>, keys: seq<string>)
    ensures forall k :: k in keys ==> ResolvePaths(listing, keys)[k] == LastMatch(listing, k)
    decreases |listing|
  {
    if listing != [] {
      ResolvePathsIsLastMatch(listing[..|listing| - 1], keys);
    }
  }

  /** The inner loop of `list_tiffs`: the first key the name starts with, then `break`. */
  function FirstMatchingKey(name: string, keys: seq<string>): (r: Option<string>)
    ensures r.None? <==> forall i :: 0 <= i < |keys| ==> !StartsWith(name, keys[i])
    ensures r.Some? ==> r.value in keys && StartsWith(name, r.value)
    ensures r.Some? ==> exists i :: 0 <= i < |keys| && keys[i] == r.value && forall j :: 0 <= j < i ==> !StartsWith(name, keys[j])
  {
    if keys == [] then None
    else if StartsWith(name, keys[0]) then Some(keys[0])
    else FirstMatchingKey(name, keys[1..])
  }

  /** The dictionary `list_tiffs` returns: only keys some file matched. */
  function ListTiffs(listing: seq<string>, keys: seq<string>): (tiffs: map<string, string>)
    ensures tiffs.Keys <= set k | k in keys
    decreases |listing|
  {
    if listing == [] then map[]
    else
      var n := |listing| - 1;
      var prev := ListTiffs(listing[..n], keys);
      match FirstMatchingKey(listing[n], keys)
      case None => prev
      case Some(k) => prev[k := listing[n]]
  }

  /** With a prefix-free key list the `break` changes nothing: `list_tiffs`
      reports exactly the keys the prediction scan resolves, with the same files. */
  lemma {:induction false} ListTiffsAgreesWithResolvePaths(listing: seq<string>, keys: seq<string>)
    requires PrefixFree(keys)
    ensures forall k :: k in ListTiffs(listing, keys) <==> k in keys && ResolvePaths(listing, keys)[k].Some?
    ensures forall k :: k in ListTiffs(listing, keys) ==> ResolvePaths(listing, keys)[k] == Some(ListTiffs(listing, keys)[k])
    decreases |listing|
  {
    if listing != [] {
      var n := |listing| - 1;
      ListTiffsAgreesWithResolvePaths(listing[..n], keys);
      match FirstMatchingKey(listing[n], keys)
      case None =>
      case Some(k) =>
        forall k' | k' in keys && StartsWith(listing[n], k')
          ensures k' == k
        {
          AtMostOneKeyMatches(keys, listing[n]);
          var i :| 0 <= i < |keys| && keys[i] == k;
          var j :| 0 <= j < |keys| && keys[j] == k';
        }
    }
  }

  /** Saving a new upload `key + suffix` and rescanning points its key at the
      new file and leaves every other key where it was. */
  lemma UploadResolvesToItsKey(listing: seq<string>, keys: seq<string>, key: string, suffix: string)
    requires PrefixFree(keys) && key in keys
    ensures ResolvePaths(listing + [key + suffix], keys)[key] == Some(key + suffix)
    ensures forall k :: k in keys && k != key ==> ResolvePaths(listing + [key + suffix], keys)[k] == ResolvePaths(listing, keys)[k]
  {
    var l := listing + [key + suffix];
    assert l[..|l| - 1] == listing;
    UploadNameMatchesOnlyItsKey(keys, key, suffix);
  }

  /** Every key has at most one candidate name in the listing. */
  ghost predicate UniqueCandidates(listing: seq<string>, keys: seq<string>)
  {
    forall k, i, j ::
      (k in keys && 0 <= i < |listing| && 0 <= j < |listing|
       && StartsWith(listing[i], k) && StartsWith(listing[j], k)) ==> listing[i] == listing[j]
  }

  /** When `key` has at most one candidate name, the last match does not
      depend on the order of the listing. */
  lemma LastMatchIgnoresListingOrder(listing: seq<string>, other: seq<string>, key: string)
    requires forall name :: name in listing <==> name in other
    requires forall i, j :: 0 <= i < |listing| && 0 <= j < |listing| && StartsWith(listing[i], key) && StartsWith(listing[j], key) ==> listing[i] == listing[j]
    ensures LastMatch(listing, key) == LastMatch(other, key)
  {
    var a, b := LastMatch(listing, key), LastMatch(other, key);
    if a.Some? {
      var i :| IsLastMatch(listing, key, i) && listing[i] == a.value;
      var i' := IndexOf(other, listing[i]);
      assert b.Some?;
      var j :| IsLastMatch(other, key, j) && other[j] == b.value;
      var j' := IndexOf(listing, other[j]);
      assert listing[j'] == listing[i];
    } else if b.Some? {
      var j :| IsLastMatch(other, key, j) && other[j] == b.value;
      var j' := IndexOf(listing, other[j]);
    }
  }

  /** A position of a name known to be listed. */
  lemma IndexOf(listing: seq<string>, name: string) returns (i: nat)
    requires name in listing
    ensures i < |listing| && listing[i] == name
  {
    i :| 0 <= i < |listing| && listing[i] == name;
  }

  /** When every key has at most one candidate, the order in which the
      directory lists its names does not affect resolution. */
  lemma ResolveIgnoresListingOrder(listing: seq<string>, other: seq<string>, keys: seq<string>)
    requires forall name :: name in listing <==> name in other
    requires UniqueCandidates(listing, keys)
    ensures ResolvePaths(listing, keys) == ResolvePaths(other, keys)
  {
    ResolvePathsIsLastMatch(listing, keys);
    ResolvePathsIsLastMatch(other, keys);
    forall k | k in keys
      ensures LastMatch(listing, k) == LastMatch(other, k)
    {
      LastMatchIgnoresListingOrder(listing, other, k);
    }
  }
}
