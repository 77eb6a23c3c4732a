/** Conflict resolution shared by the batch accumulator and the latest-value
    store: one merge step, the left fold of merge over a key's values, and the
    observed rule "a strictly later timestamp wins, a tie keeps what is stored". */
module Merging {
  import opened Results

  /** Reads key k of m as an optional value. */
  function Get<K, V>(m: map<K, V>, k: K): (r: Option<V>)
    ensures r.Some? <==> k in m
    ensures r.Some? ==> r.value == m[k]
  {
    if k in m then Some(m[k]) else None
  }

  /** Two maps that answer every lookup alike are the same map. */
  lemma GetExtensional<K, V>(m1: map<K, V>, m2: map<K, V>)
    requires forall k :: Get(m1, k) == Get(m2, k)
    ensures m1 == m2
  {
    forall k | k in m1
      ensures k in m2 && m1[k] == m2[k]
    {
      assert Get(m1, k) == Get(m2, k);
    }
    forall k | k in m2
      ensures k in m1
    {
      assert Get(m1, k) == Get(m2, k);
    }
  }

  /** One merge step for a single key: with nothing stored the incoming value
      is kept as it is; with nothing incoming the stored value stays; otherwise
      `merge(existing, incoming)` decides the winner. */
  function Combine<V>(merge: (V, V) -> V, existing: Option<V>, incoming: Option<V>): (r: Option<V>)
    ensures r.None? <==> existing.None? && incoming.None?
    ensures existing.None? ==> r == incoming
    ensures incoming.None? ==> r == existing
  {
    match (existing, incoming)
    case (None, _) => incoming
    case (Some(_), None) => existing
    case (Some(e), Some(i)) => Some(merge(e, i))
  }

  /** The left-to-right fold of merge over the values added for one key, in
      call order, starting from what is already stored. */
  function Fold<V>(merge: (V, V) -> V, stored: Option<V>, vs: seq<V>): (r: Option<V>)
    ensures r.None? <==> stored.None? && vs == []
    decreases |vs|
  {
    if vs == [] then stored else Fold(merge, Combine(merge, stored, Some(vs[0])), vs[1..])
  }

  /** Merge functions for which the grouping of merge steps does not matter. */
  ghost predicate Associative<V(!new)>(merge: (V, V) -> V) {
    forall a, b, c :: merge(merge(a, b), c) == merge(a, merge(b, c))
  }

  lemma {:induction false} FoldRegroup<V(!new)>(merge: (V, V) -> V, a: V, b: V, vs: seq<V>)
    requires Associative(merge)
    ensures Fold(merge, Some(merge(a, b)), vs) == Combine(merge, Some(a), Fold(merge, Some(b), vs))
    decreases |vs|
  {
    if vs != [] {
      assert merge(merge(a, b), vs[0]) == merge(a, merge(b, vs[0]));
      FoldRegroup(merge, a, merge(b, vs[0]), vs[1..]);
    }
  }

  /** With an associative merge, folding a key's values onto a stored value is
      the same as folding them on their own first and merging the result into
      the stored value in one step. */
  lemma {:induction false} FoldThenCombine<V(!new)>(merge: (V, V) -> V, stored: Option<V>, vs: seq<V>)
    requires Associative(merge)
    ensures Fold(merge, stored, vs) == Combine(merge, stored, Fold(merge, None, vs))
  {
    if stored.Some? && vs != [] {
      FoldRegroup(merge, stored.value, vs[0], vs[1..]);
    }
  }

  /** A value with its effectiveness timestamp and an opaque payload. */
  datatype Stamped<P> = Stamped(at: int, payload: P)

  /** The observed conflict rule: the incoming value replaces the existing one
      only when its timestamp is strictly later. */
  function LaterWins<P>(existing: Stamped<P>, incoming: Stamped<P>): (r: Stamped<P>)
    ensures r == existing || r == incoming
    ensures r.at >= existing.at && r.at >= incoming.at
    ensures r.at == existing.at ==> r == existing
  {
    if existing.at < incoming.at then incoming else existing
  }

  /** The latest-timestamp rule does not depend on how merge steps are grouped. */
  lemma LaterWinsAssociative<P(!new)>()
    ensures Associative<Stamped<P>>(LaterWins)
  {
  }

  /** The latest timestamp among a non-empty sequence of values. */
  function MaxStamp<P>(vs: seq<Stamped<P>>): (t: int)
    requires vs != []
    ensures forall i :: 0 <= i < |vs| ==> vs[i].at <= t
    ensures exists i :: 0 <= i < |vs| && vs[i].at == t
    decreases |vs|
  {
    if |vs| == 1 then vs[0].at
    else
      var rest := MaxStamp(vs[1..]);
      assert forall i :: 1 <= i < |vs| ==> vs[i] == vs[1..][i - 1];
      if vs[0].at < rest then rest else vs[0].at
  }

  /** The position of the first value carrying timestamp t. */
  function FirstWithStamp<P>(vs: seq<Stamped<P>>, t: int): (i: nat)
    requires exists j :: 0 <= j < |vs| && vs[j].at == t
    ensures i < |vs| && vs[i].at == t
    ensures forall j :: 0 <= j < i ==> vs[j].at != t
    decreases |vs|
  {
    if vs[0].at == t then 0
    else
      assert exists j :: 0 <= j < |vs[1..]| && vs[1..][j].at == t by {
        var j :| 0 <= j < |vs| && vs[j].at == t;
        assert vs[1..][j - 1] == vs[j];
      }
      1 + FirstWithStamp(vs[1..], t)
  }

  /** Folding the latest-timestamp rule over values, starting from a stored
      value, keeps the stored value unless some value is strictly later; then
      it yields the first value carrying the latest timestamp. */
  lemma {:induction false} FoldLaterWinsFrom<P>(stored: Stamped<P>, vs: seq<Stamped<P>>)
    ensures vs == [] || MaxStamp(vs) <= stored.at ==> Fold(LaterWins, Some(stored), vs) == Some(stored)
    ensures vs != [] && stored.at < MaxStamp(vs) ==>
              Fold(LaterWins, Some(stored), vs) == Some(vs[FirstWithStamp(vs, MaxStamp(vs))])
    decreases |vs|
  {
    if vs != [] {
      var next := LaterWins(stored, vs[0]);
      assert Fold(LaterWins, Some(stored), vs) == Fold(LaterWins, Some(next), vs[1..]);
      FoldLaterWinsFrom(next, vs[1..]);
      if |vs| > 1 {
        var m := MaxStamp(vs[1..]);
        var i := FirstWithStamp(vs[1..], m);
        if vs[0].at < m {
          assert MaxStamp(vs) == m;
          assert FirstWithStamp(vs, m) == 1 + i;
          assert vs[1 + i] == vs[1..][i];
        }
      }
    }
  }

  /** Folding the latest-timestamp rule over a non-empty sequence of values
      yields the value with the latest timestamp; among values that share it,
      the first one added wins. */
  lemma {:induction false} FoldLaterWinsPicksFirstLatest<P>(vs: seq<Stamped<P>>)
    requires vs != []
    ensures Fold(LaterWins, None, vs) == Some(vs[FirstWithStamp(vs, MaxStamp(vs))])
  {
    assert Fold(LaterWins, None, vs) == Fold(LaterWins, Some(vs[0]), vs[1..]);
    FoldLaterWinsFrom(vs[0], vs[1..]);
    if |vs| > 1 {
      var m := MaxStamp(vs[1..]);
      if vs[0].at < m {
        var i := FirstWithStamp(vs[1..], m);
        assert MaxStamp(vs) == m;
        assert FirstWithStamp(vs, m) == 1 + i;
        assert vs[1 + i] == vs[1..][i];
      } else {
        assert MaxStamp(vs) == vs[0].at;
      }
    }
  }
}
