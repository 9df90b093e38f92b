/** Small operations on numbers, sequences and maps shared by several components. */
module Collections {
  import opened Wrappers

  function Min(a: nat, b: nat): (m: nat)
    ensures m <= a && m <= b && (m == a || m == b)
  {
    if a < b then a else b
  }

  // The first n elements, or all of them.
  function Take<T>(s: seq<T>, n: nat): (r: seq<T>)
    ensures r <= s && |r| == Min(n, |s|)
  {
    if n < |s| then s[..n] else s
  }

  function Lookup<K, V>(m: map<K, V>, k: K): (r: Option<V>)
    ensures r.Some? <==> k in m
    ensures r.Some? ==> r.value == m[k]
  {
    if k in m then Some(m[k]) else None
  }

  // The elements of s at these places, in order.
  ghost predicate PicksAt<T>(out: seq<T>, s: seq<T>, at: seq<nat>) {
    |at| == |out| &&
    (forall i :: 0 <= i < |at| ==> at[i] < |s| && out[i] == s[at[i]]) &&
    forall i, j :: 0 <= i < j < |at| ==> at[i] < at[j]
  }

  // Going on to a longer sequence, with or without its last element.
  lemma PicksOn<T>(out: seq<T>, s: seq<T>, at: seq<nat>)
    requires s != [] && PicksAt(out, s[..|s| - 1], at)
    ensures PicksAt(out, s, at)
    ensures PicksAt(out + [s[|s| - 1]], s, at + [|s| - 1])
    ensures |s| - 1 !in at
    ensures forall j: nat :: j in at + [|s| - 1] <==> j in at || j == |s| - 1
  {
  }
}
