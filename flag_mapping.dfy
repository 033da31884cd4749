/**
 * The persisted flag mapping (`mapping.json`: `id_to_name` and `id_to_path`) and the
 * insertion-ordered string dictionaries it is made of. A dictionary is the list of its
 * items in insertion order, with distinct keys, because download_flags.py iterates over
 * one and the order decides which id gets which file name.
 */
module FlagMapping {
  import opened Wrappers

  type Dict = seq<(string, string)>

  function Keys(d: Dict): set<string>
  {
    if d == [] then {} else Keys(d[..|d| - 1]) + {d[|d| - 1].0}
  }

  /** Distinct keys: what a Python dict guarantees. */
  predicate IsDict(d: Dict)
  {
    d == [] || (IsDict(d[..|d| - 1]) && d[|d| - 1].0 !in Keys(d[..|d| - 1]))
  }

  /** `d.get(k)`. */
  function Get(d: Dict, k: string): (r: Option<string>)
    ensures r.Some? <==> k in Keys(d)
  {
    if d == [] then None
    else if d[|d| - 1].0 == k then Some(d[|d| - 1].1)
    else Get(d[..|d| - 1], k)
  }

  /** `d[k] = v`: an existing key keeps its position and takes the new value; a new key goes last. */
  function Put(d: Dict, k: string, v: string): (r: Dict)
    ensures Keys(r) == Keys(d) + {k}
    ensures Get(r, k) == Some(v)
    ensures forall k' :: k' != k ==> Get(r, k') == Get(d, k')
    ensures IsDict(d) ==> IsDict(r)
    ensures k !in Keys(d) ==> r == d + [(k, v)]
  {
    if k in Keys(d) then Replace(d, k, v)
    else
      var r := d + [(k, v)];
      assert r[..|r| - 1] == d;
      r
  }

  /** The value of a key already present is replaced where it stands. */
  function Replace(d: Dict, k: string, v: string): (r: Dict)
    requires k in Keys(d)
    ensures Keys(r) == Keys(d)
    ensures Get(r, k) == Some(v)
    ensures forall k' :: k' != k ==> Get(r, k') == Get(d, k')
    ensures IsDict(d) ==> IsDict(r)
    decreases |d|
  {
    var last := d[|d| - 1];
    if last.0 == k then
      var r := d[..|d| - 1] + [(k, v)];
      assert r[..|r| - 1] == d[..|d| - 1];
      r
    else
      var p := Replace(d[..|d| - 1], k, v);
      var r := p + [last];
      assert r[..|r| - 1] == p;
      r
  }

  /** The key of every item is a key of the dictionary. */
  lemma {:induction false} KeyAt(d: Dict, i: nat)
    requires i < |d|
    ensures d[i].0 in Keys(d)
    decreases |d|
  {
    if i < |d| - 1 {
      KeyAt(d[..|d| - 1], i);
    }
  }

  /** The first `n` items of a dictionary form a dictionary. */
  lemma {:induction false} IsDictPrefix(d: Dict, n: nat)
    requires IsDict(d) && n <= |d|
    ensures IsDict(d[..n])
    decreases |d|
  {
    if n < |d| {
      assert d[..|d| - 1][..n] == d[..n];
      IsDictPrefix(d[..|d| - 1], n);
    } else {
      assert d[..n] == d;
    }
  }

  /** Two positions of a dictionary never hold the same key. */
  lemma KeysDistinctAt(d: Dict, i: nat, j: nat)
    requires IsDict(d) && i < j < |d|
    ensures d[i].0 != d[j].0
  {
    IsDictPrefix(d, j + 1);
    var p := d[..j + 1];
    assert p[..j] == d[..j];
    KeyAt(d[..j], i);
  }

  /** The dictionary as a map, for lookups that do not depend on order. */
  function ToMap(d: Dict): (m: map<string, string>)
    ensures m.Keys == Keys(d)
    ensures forall k :: k in m ==> Get(d, k) == Some(m[k])
  {
    if d == [] then map[] else ToMap(d[..|d| - 1])[d[|d| - 1].0 := d[|d| - 1].1]
  }

  /** The JSON file as read: either key may be missing. */
  datatype StoredMapping = StoredMapping(idToName: Option<Dict>, idToPath: Option<Dict>)
  {
    predicate Valid() {
      (idToName.Some? ==> IsDict(idToName.value)) && (idToPath.Some? ==> IsDict(idToPath.value))
    }
  }

  datatype Mapping = Mapping(idToName: Dict, idToPath: Dict)

  /**
   * `_load_existing_mapping()` and `_load_flags_mapping()` with its `setdefault` calls:
   * a missing file, or a missing key, reads as an empty dictionary.
   */
  function LoadMapping(file: Option<StoredMapping>): (m: Mapping)
    requires file.Some? ==> file.value.Valid()
    ensures IsDict(m.idToName) && IsDict(m.idToPath)
    ensures file.None? ==> m.idToName == [] && m.idToPath == []
    ensures file.Some? && file.value.idToName.Some? ==> m.idToName == file.value.idToName.value
    ensures file.Some? && file.value.idToPath.Some? ==> m.idToPath == file.value.idToPath.value
    ensures file.Some? && file.value.idToName.None? ==> m.idToName == []
    ensures file.Some? && file.value.idToPath.None? ==> m.idToPath == []
  {
    match file
    case None => Mapping([], [])
    case Some(f) =>
      Mapping(if f.idToName.Some? then f.idToName.value else [],
              if f.idToPath.Some? then f.idToPath.value else [])
  }
}
