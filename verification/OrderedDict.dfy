/** Python's dict: a map that also remembers the order in which its keys came. */
module OrderedDict {
  import opened Options

  datatype Dict<+V> = Dict(keys: seq<string>, at: map<string, V>)

  ghost predicate ValidDict<V>(d: Dict<V>) {
    && Distinct(d.keys)
    && forall k :: k in d.keys <==> k in d.at
  }

  function Empty<V>(): Dict<V> { Dict([], map[]) }

  /** `d.get(k)`. */
  function Get<V>(d: Dict<V>, k: string): Option<V> { if k in d.at then Some(d.at[k]) else None }

  /** `d[k] = v`: a new key goes last, an old one keeps its place. */
  function Set<V>(d: Dict<V>, k: string, v: V): Dict<V> {
    Dict(if k in d.at then d.keys else d.keys + [k], d.at[k := v])
  }

  function Without(keys: seq<string>, k: string): seq<string> {
    if keys == [] then []
    else
      var front := Without(keys[..|keys| - 1], k);
      if keys[|keys| - 1] == k then front else front + [keys[|keys| - 1]]
  }

  /** `d.pop(k, None)`. */
  function Pop<V>(d: Dict<V>, k: string): Dict<V> { Dict(Without(d.keys, k), d.at - {k}) }

  lemma SetIsValid<V>(d: Dict<V>, k: string, v: V)
    requires ValidDict(d)
    ensures ValidDict(Set(d, k, v))
  {}

  ghost predicate Distinct(keys: seq<string>) { forall i, j :: 0 <= i < j < |keys| ==> keys[i] != keys[j] }

  lemma {:induction false} WithoutFacts(keys: seq<string>, k: string)
    requires Distinct(keys)
    ensures forall x :: x in Without(keys, k) <==> x in keys && x != k
    ensures Distinct(Without(keys, k))
  {
    if keys != [] {
      var (front, last) := (keys[..|keys| - 1], keys[|keys| - 1]);
      WithoutFacts(front, k);
      assert last !in front;
      assert last !in Without(front, k);
    }
  }

  lemma PopIsValid<V>(d: Dict<V>, k: string)
    requires ValidDict(d)
    ensures ValidDict(Pop(d, k))
  {
    WithoutFacts(d.keys, k);
  }
}
