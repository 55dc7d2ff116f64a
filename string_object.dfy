/**
 * JavaScript objects whose values are strings (`{ [key: string]: string }`),
 * kept as the ordered list of their own entries, with `Object.keys` and the
 * two lodash helpers the query builder uses, `pick` and `mapValues`.
 */
module StringObject {

  datatype Entry = Entry(key: string, value: string)

  /**
   * An object's own entries, in insertion order. JavaScript would list
   * integer-like keys first, in ascending order; the objects here have none.
   */
  type Mapping = seq<Entry>

  /**
   * `Object.keys`: one key per entry, in insertion order, and a string is
   * among them exactly when some entry has it as its key.
   */
  function KeysOf(m: Mapping): (ks: seq<string>)
    ensures |ks| == |m|
    ensures forall i :: 0 <= i < |m| ==> ks[i] == m[i].key
    ensures forall k :: k in ks <==> exists e :: e in m && e.key == k
  {
    seq(|m|, i requires 0 <= i < |m| => m[i].key)
  }

  predicate HasKey(m: Mapping, k: string)
  {
    k in KeysOf(m)
  }

  /** A JavaScript object never holds the same key twice. */
  predicate UniqueKeys(m: Mapping)
  {
    forall i, j :: 0 <= i < j < |m| ==> m[i].key != m[j].key
  }

  /** The entry a key reads, `m[k]`. */
  function Get(m: Mapping, k: string): (e: Entry)
    requires HasKey(m, k)
    ensures e in m && e.key == k
  {
    if m[0].key == k then m[0]
    else
      assert KeysOf(m) == [m[0].key] + KeysOf(m[1..]);
      Get(m[1..], k)
  }

  /** In an object without repeated keys, an entry's key reads that entry. */
  lemma GetOfEntry(m: Mapping, e: Entry)
    requires UniqueKeys(m) && e in m
    ensures HasKey(m, e.key) && Get(m, e.key) == e
  {
    var i :| 0 <= i < |m| && m[i] == e;
    assert KeysOf(m)[i] == e.key;
    var g := Get(m, e.key);
    var j :| 0 <= j < |m| && m[j] == g;
    assert i == j;
  }

  /** The position of the first occurrence of `x` in `xs`. */
  function IndexOf(xs: seq<string>, x: string): (i: nat)
    requires x in xs
    ensures i < |xs| && xs[i] == x && x !in xs[..i]
  {
    if xs[0] == x then 0
    else
      assert xs == [xs[0]] + xs[1..];
      var j := IndexOf(xs[1..], x);
      assert xs[..j + 1] == [xs[0]] + xs[1..][..j];
      j + 1
  }

  /**
   * lodash `pick(obj, paths)` for plain keys: walks the paths in order and
   * copies each key the object has into the result, unless the result already
   * holds it; a path the object lacks adds nothing.
   */
  function Pick(obj: Mapping, paths: seq<string>): (r: Mapping)
    ensures forall e :: e in r ==> e in obj
    ensures forall k :: HasKey(r, k) <==> HasKey(obj, k) && k in paths
    ensures UniqueKeys(r)
  {
    if paths == [] then []
    else
      var init := paths[..|paths| - 1];
      var p := paths[|paths| - 1];
      var prev := Pick(obj, init);
      assert paths == init + [p];
      if HasKey(obj, p) && !HasKey(prev, p) then
        var r := prev + [Get(obj, p)];
        assert KeysOf(r) == KeysOf(prev) + [p];
        r
      else
        prev
  }

  /** The keys of `m` are all named in `paths`, in the order they first occur there. */
  predicate InPathOrder(m: Mapping, paths: seq<string>)
  {
    && (forall i :: 0 <= i < |m| ==> m[i].key in paths)
    && (forall i, j :: 0 <= i < j < |m| ==> IndexOf(paths, m[i].key) < IndexOf(paths, m[j].key))
  }

  /** `pick` lists the keys in the order the caller first names them. */
  lemma {:induction false} PickFollowsPathOrder(obj: Mapping, paths: seq<string>)
    ensures InPathOrder(Pick(obj, paths), paths)
  {
    if paths != [] {
      var init, p := paths[..|paths| - 1], paths[|paths| - 1];
      var prev := Pick(obj, init);
      PickFollowsPathOrder(obj, init);
      assert paths == init + [p];
      PickStep(obj, init, p);
      if HasKey(obj, p) && !HasKey(prev, p) {
        InPathOrderAppend(prev, init, Get(obj, p));
      } else {
        InPathOrderExtend(prev, init, p);
      }
    }
  }

  /** A further path keeps an ordered mapping ordered. */
  lemma InPathOrderExtend(m: Mapping, init: seq<string>, p: string)
    requires InPathOrder(m, init)
    ensures InPathOrder(m, init + [p])
  {
    forall i | 0 <= i < |m| ensures IndexOf(init + [p], m[i].key) == IndexOf(init, m[i].key) {
      IndexOfPrefix(init, p, m[i].key);
    }
  }

  /** An entry whose key is named for the first time goes after all the others. */
  lemma InPathOrderAppend(m: Mapping, init: seq<string>, e: Entry)
    requires InPathOrder(m, init) && e.key !in init
    ensures InPathOrder(m + [e], init + [e.key])
  {
    var paths := init + [e.key];
    InPathOrderExtend(m, init, e.key);
    assert IndexOf(paths, e.key) == |init| by {
      assert paths[..|init|] == init;
    }
    forall i | 0 <= i < |m| ensures IndexOf(paths, m[i].key) < |init| {
      IndexOfPrefix(init, e.key, m[i].key);
    }
  }

  /** One more path either adds the entry it names, at the end, or changes nothing. */
  lemma PickStep(obj: Mapping, init: seq<string>, p: string)
    ensures Pick(obj, init + [p]) ==
      if HasKey(obj, p) && !HasKey(Pick(obj, init), p) then Pick(obj, init) + [Get(obj, p)]
      else Pick(obj, init)
  {
    assert (init + [p])[..|init|] == init;
  }

  /**
   * Picking distinct keys that the object has gives exactly their entries,
   * in the order the paths name them.
   */
  lemma {:induction false} PickDistinctPresent(obj: Mapping, paths: seq<string>)
    requires forall i :: 0 <= i < |paths| ==> HasKey(obj, paths[i])
    requires forall i, j :: 0 <= i < j < |paths| ==> paths[i] != paths[j]
    ensures Pick(obj, paths) == seq(|paths|, i requires 0 <= i < |paths| => Get(obj, paths[i]))
  {
    if paths != [] {
      var n := |paths| - 1;
      var init, p := paths[..n], paths[n];
      assert forall i :: 0 <= i < n ==> init[i] == paths[i];
      PickDistinctPresent(obj, init);
      assert p !in init;
      PickNewKey(obj, init, p);
      assert paths == init + [p];
      LookupsAppend(obj, init, p);
    }
  }

  lemma LookupsAppend(obj: Mapping, init: seq<string>, p: string)
    requires forall i :: 0 <= i < |init| ==> HasKey(obj, init[i])
    requires HasKey(obj, p)
    ensures seq(|init| + 1, i requires 0 <= i < |init| + 1 => Get(obj, (init + [p])[i]))
      == seq(|init|, i requires 0 <= i < |init| => Get(obj, init[i])) + [Get(obj, p)]
  {
  }

  /** A present key not named before is appended with its entry. */
  lemma PickNewKey(obj: Mapping, init: seq<string>, p: string)
    requires HasKey(obj, p) && p !in init
    ensures Pick(obj, init + [p]) == Pick(obj, init) + [Get(obj, p)]
  {
    PickStep(obj, init, p);
  }

  lemma IndexOfPrefix(init: seq<string>, last: string, k: string)
    requires k in init
    ensures IndexOf(init + [last], k) == IndexOf(init, k)
  {
    var i := IndexOf(init, k);
    var xs := init + [last];
    assert xs[..i] == init[..i];
    assert xs[i] == k;
  }

  /** lodash `mapValues(obj, () => v)`: the same keys in the same order, every value `v`. */
  function MapValuesTo(m: Mapping, v: string): (r: Mapping)
    ensures KeysOf(r) == KeysOf(m)
    ensures forall e :: e in r ==> e.value == v
  {
    seq(|m|, i requires 0 <= i < |m| => Entry(m[i].key, v))
  }
}
