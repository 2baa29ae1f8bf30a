/** The Ruby `Hash` of numbers the effort code accumulates into: keys are kept
    in insertion order, each key occurs once, and a hash created with
    `Hash.new(0.0)` reads `0.0` for a key it does not hold. */
module RubyHash {

  import opened Base

  /** One key/value pair. */
  datatype Entry = Entry(key: ProfileId, value: real)

  /** No key occurs twice. */
  predicate DistinctKeys(h: seq<Entry>) {
    forall i, j :: 0 <= i < j < |h| ==> h[i].key != h[j].key
  }

  /** An insertion-ordered hash from profile ids to numbers. */
  type Hash = h: seq<Entry> | DistinctKeys(h) witness []

  /** `h.keys`, in iteration order. */
  function Keys(h: seq<Entry>): (ks: seq<ProfileId>)
    ensures |ks| == |h|
    ensures forall i :: 0 <= i < |h| ==> ks[i] == h[i].key
  {
    if h == [] then [] else [h[0].key] + Keys(h[1..])
  }

  /** `h[k]` on a hash created with `Hash.new(0.0)`: the value stored under `k`,
      or `0.0` when `k` is absent (the read does not insert the key). */
  function Fetch(h: seq<Entry>, k: ProfileId): (v: real)
    ensures k !in Keys(h) ==> v == 0.0
    ensures DistinctKeys(h) ==> forall i :: 0 <= i < |h| && h[i].key == k ==> v == h[i].value
  {
    if h == [] then 0.0
    else if h[0].key == k then h[0].value
    else Fetch(h[1..], k)
  }

  /** `h.values.sum`. */
  function Sum(h: seq<Entry>): real {
    if h == [] then 0.0 else h[0].value + Sum(h[1..])
  }

  /** `h[k] += n` on a hash created with `Hash.new(0.0)`: the entry for `k` is
      updated where it stands, or a new entry `k => 0.0 + n` is appended. */
  function Add(h: seq<Entry>, k: ProfileId, n: real): (r: seq<Entry>)
    ensures Keys(r) == if k in Keys(h) then Keys(h) else Keys(h) + [k]
    ensures DistinctKeys(h) ==> DistinctKeys(r)
    ensures forall j :: Fetch(r, j) == Fetch(h, j) + (if j == k then n else 0.0)
    ensures Sum(r) == Sum(h) + n
  {
    if h == [] then [Entry(k, 0.0 + n)]
    else if h[0].key == k then [Entry(k, h[0].value + n)] + h[1..]
    else
      var r := [h[0]] + Add(h[1..], k, n);
      assert r[1..] == Add(h[1..], k, n);
      r
  }
}
