/**
 * The in-memory vector index. Components are real numbers, and the square root
 * enters as a given non-negative number whose square is the sum of squares.
 */
module VectorIndex {
  import opened Wrappers

  type Vector = seq<real>

  function Dot(a: Vector, b: Vector): real {
    if a == [] || b == [] then 0.0 else a[0] * b[0] + Dot(a[1..], b[1..])
  }

  predicate IsNorm(v: Vector, norm: real) {
    norm >= 0.0 && norm * norm == Dot(v, v)
  }

  function Divide(v: Vector, d: real): (r: Vector)
    requires d != 0.0
    ensures |r| == |v|
  {
    if v == [] then [] else [v[0] / d] + Divide(v[1..], d)
  }

  function ZeroVector(n: nat): (r: Vector)
    ensures |r| == n
  {
    if n == 0 then [] else [0.0] + ZeroVector(n - 1)
  }

  function Normalize(v: Vector, norm: real): (r: Vector)
    ensures |r| == |v|
  {
    if norm == 0.0 then ZeroVector(|v|) else Divide(v, norm)
  }

  function CosineDistance(a: Vector, b: Vector): real {
    var d := 1.0 - Dot(a, b);
    if d > 0.0 then d else 0.0
  }

  /** A raw vector with its norm. */
  datatype Raw = Raw(v: Vector, norm: real)

  /** The cosine of the angle between two raw vectors; 0 when one of them is zero. */
  function Cosine(a: Raw, b: Raw): real {
    if a.norm == 0.0 || b.norm == 0.0 then 0.0 else Dot(a.v, b.v) / (a.norm * b.norm)
  }

  ghost predicate IsRaw(r: Raw, dim: nat) {
    |r.v| == dim && IsNorm(r.v, r.norm)
  }

  // ---- Normalised vectors ----

  lemma DotFirst(a: Vector, b: Vector, first: real)
    requires |a| == |b| && a != [] && first == a[0] * b[0]
    ensures Dot(a, b) == first + Dot(a[1..], b[1..])
  {
  }

  /** The dot product adds over parts of the vectors, down to the products of single components. */
  lemma {:induction false} DotAddsUp(a: Vector, b: Vector, c: Vector, d: Vector)
    requires |a| == |b| && |c| == |d|
    ensures Dot(a + c, b + d) == Dot(a, b) + Dot(c, d)
    ensures |a| == 1 ==> Dot(a, b) == a[0] * b[0]
  {
    if a == [] {
      assert a + c == c && b + d == d;
    } else {
      DotAddsUp(a[1..], b[1..], c, d);
      DotFirst(a, b, a[0] * b[0]);
      DotFirst(a + c, b + d, a[0] * b[0]);
      assert (a + c)[1..] == a[1..] + c && (b + d)[1..] == b[1..] + d;
    }
  }

  lemma SumOfQuotients(x: real, y: real, d: real)
    requires d != 0.0
    ensures x / d + y / d == (x + y) / d
  {
  }

  lemma {:induction false} DotOfQuotients(a: Vector, b: Vector, n: real, m: real, d: real)
    requires n != 0.0 && m != 0.0 && |a| == |b| && d == n * m && d != 0.0
    ensures Dot(Divide(a, n), Divide(b, m)) == Dot(a, b) / d
  {
    if a != [] {
      DotOfQuotients(a[1..], b[1..], n, m, d);
      assert Divide(a, n)[1..] == Divide(a[1..], n) && Divide(b, m)[1..] == Divide(b[1..], m);
      OneMoreQuotient(a[0], b[0], Dot(a[1..], b[1..]), n, m, d);
    }
  }

  lemma OneMoreQuotient(x: real, y: real, rest: real, n: real, m: real, d: real)
    requires n != 0.0 && m != 0.0 && d == n * m && d != 0.0
    ensures x / n * (y / m) + rest / d == (x * y + rest) / d
  {
    ProductOfQuotients(x, y, n, m);
    SumOfQuotients(x * y, rest, d);
  }

  lemma ProductOfQuotients(x: real, y: real, n: real, m: real)
    requires n != 0.0 && m != 0.0 && n * m != 0.0
    ensures x / n * (y / m) == x * y / (n * m)
  {
  }

  lemma {:induction false} DotWithZero(a: Vector, n: nat)
    ensures Dot(ZeroVector(n), a) == 0.0 && Dot(a, ZeroVector(n)) == 0.0
  {
    if a != [] && n > 0 {
      DotWithZero(a[1..], n - 1);
      assert ZeroVector(n)[1..] == ZeroVector(n - 1);
    }
  }

  /** The dot product of normalised vectors is the cosine of the raw ones. */
  lemma NormalizedDotIsCosine(a: Raw, b: Raw)
    requires |a.v| == |b.v|
    ensures Dot(Normalize(a.v, a.norm), Normalize(b.v, b.norm)) == Cosine(a, b)
  {
    if a.norm == 0.0 {
      DotWithZero(Normalize(b.v, b.norm), |a.v|);
    } else if b.norm == 0.0 {
      DotWithZero(Normalize(a.v, a.norm), |b.v|);
    } else {
      ProductIsNotZero(a.norm, b.norm, a.norm * b.norm);
      DotOfQuotients(a.v, b.v, a.norm, b.norm, a.norm * b.norm);
    }
  }

  lemma NormalizedLength(a: Raw)
    requires IsNorm(a.v, a.norm)
    ensures Dot(Normalize(a.v, a.norm), Normalize(a.v, a.norm)) <= 1.0
  {
    NormalizedDotIsCosine(a, a);
    if a.norm != 0.0 {
      CosineWithItself(a);
    }
  }

  lemma CosineWithItself(a: Raw)
    requires IsNorm(a.v, a.norm) && a.norm != 0.0
    ensures Cosine(a, a) == 1.0
  {
    var square := Dot(a.v, a.v);
    ProductIsNotZero(a.norm, a.norm, square);
    SelfQuotient(square, a.norm * a.norm);
  }

  lemma SelfQuotient(x: real, y: real)
    requires x == y && x != 0.0
    ensures x / y == 1.0
  {
  }

  lemma ProductIsNotZero(x: real, y: real, p: real)
    requires p == x * y && x != 0.0 && y != 0.0
    ensures p != 0.0
  {
  }

  lemma SquareIsNotNegative(x: real)
    ensures x * x >= 0.0
  {
  }

  lemma {:induction false} DotBound(a: Vector, b: Vector)
    requires |a| == |b|
    ensures -(Dot(a, a) + Dot(b, b)) <= 2.0 * Dot(a, b) <= Dot(a, a) + Dot(b, b)
  {
    if a != [] {
      DotBound(a[1..], b[1..]);
      var x, y := a[0], b[0];
      SquareIsNotNegative(x - y);
      SquareIsNotNegative(x + y);
      assert (x - y) * (x - y) == x * x - 2.0 * (x * y) + y * y;
      assert (x + y) * (x + y) == x * x + 2.0 * (x * y) + y * y;
    }
  }

  /**
   * The cosine lies in [-1, 1] (Cauchy-Schwarz), so the distance is 1 minus the
   * cosine, lies in [0, 2], and the clamp never changes it.
   */
  lemma DistanceIsOneMinusCosine(a: Raw, b: Raw)
    requires |a.v| == |b.v| && IsNorm(a.v, a.norm) && IsNorm(b.v, b.norm)
    ensures CosineDistance(Normalize(a.v, a.norm), Normalize(b.v, b.norm)) == 1.0 - Cosine(a, b)
    ensures -1.0 <= Cosine(a, b) <= 1.0
  {
    NormalizedDotIsCosine(a, b);
    NormalizedLength(a);
    NormalizedLength(b);
    DotBound(Normalize(a.v, a.norm), Normalize(b.v, b.norm));
  }

  // ---- Sorting by distance ----

  datatype Hit = Hit(id: nat, distance: real)

  predicate ByDistance(hits: seq<Hit>) {
    forall i, j :: 0 <= i < j < |hits| ==> hits[i].distance <= hits[j].distance
  }

  /** Inserts a hit before those that are not nearer. */
  function InsertHit(h: Hit, hits: seq<Hit>): seq<Hit> {
    if hits == [] then [h]
    else if hits[0].distance < h.distance then [hits[0]] + InsertHit(h, hits[1..])
    else [h] + hits
  }

  /** The stable `sort_by` on the distance. */
  function SortHits(hits: seq<Hit>): seq<Hit> {
    if hits == [] then [] else InsertHit(hits[0], SortHits(hits[1..]))
  }

  lemma {:induction false} InsertHitPermutes(h: Hit, hits: seq<Hit>)
    ensures multiset(InsertHit(h, hits)) == multiset(hits) + multiset{h}
  {
    if hits != [] {
      assert hits == [hits[0]] + hits[1..];
      InsertHitPermutes(h, hits[1..]);
    }
  }

  lemma {:induction false} InsertHitOrders(h: Hit, hits: seq<Hit>)
    requires ByDistance(hits)
    ensures ByDistance(InsertHit(h, hits))
  {
    if hits != [] && hits[0].distance < h.distance {
      var rest := InsertHit(h, hits[1..]);
      InsertHitOrders(h, hits[1..]);
      InsertHitPermutes(h, hits[1..]);
      forall i | 0 <= i < |rest| ensures hits[0].distance <= rest[i].distance {
        assert rest[i] in multiset(rest);
      }
      PrependOrders(hits[0], rest);
    }
  }

  lemma PrependOrders(first: Hit, rest: seq<Hit>)
    requires ByDistance(rest) && forall i :: 0 <= i < |rest| ==> first.distance <= rest[i].distance
    ensures ByDistance([first] + rest)
  {
  }

  lemma {:induction false} SortHitsOrders(hits: seq<Hit>)
    ensures multiset(SortHits(hits)) == multiset(hits) && ByDistance(SortHits(hits))
  {
    if hits != [] {
      assert hits == [hits[0]] + hits[1..];
      SortHitsOrders(hits[1..]);
      InsertHitPermutes(hits[0], SortHits(hits[1..]));
      InsertHitOrders(hits[0], SortHits(hits[1..]));
    }
  }

  // ---- The result of a search ----

  ghost predicate DistinctIds(hits: seq<Hit>) {
    forall i, j :: 0 <= i < j < |hits| ==> hits[i].id != hits[j].id
  }

  /** The distance of each stored vector from the query: 1 minus the cosine. */
  ghost function DistancesFrom(query: Raw, stored: map<nat, Raw>): map<nat, real> {
    map id | id in stored :: 1.0 - Cosine(query, stored[id])
  }

  /**
   * The hits are a top `k` of the given distances: as many as there can be,
   * nearest first, and nothing left out is nearer.
   */
  ghost predicate IsTopK(distances: map<nat, real>, k: nat, hits: seq<Hit>) {
    && |hits| == (if k < |distances| then k else |distances|)
    && DistinctIds(hits) && ByDistance(hits)
    && (forall i :: 0 <= i < |hits| ==> hits[i].id in distances && hits[i].distance == distances[hits[i].id])
    && (forall id, i :: id in distances && 0 <= i < |hits| && !HasHit(hits, id) ==> hits[i].distance <= distances[id])
  }

  ghost predicate HasHit(hits: seq<Hit>, id: nat) {
    exists i :: 0 <= i < |hits| && hits[i].id == id
  }

  lemma HitsOneMore(hits: seq<Hit>)
    requires hits != []
    ensures forall id :: HasHit(hits, id) <==> HasHit(hits[..|hits| - 1], id) || id == hits[|hits| - 1].id
  {
    var n := |hits| - 1;
    forall id ensures HasHit(hits, id) <==> HasHit(hits[..n], id) || id == hits[n].id {
      if HasHit(hits, id) {
        var i :| 0 <= i < |hits| && hits[i].id == id;
        assert i < n ==> hits[..n][i].id == id;
      }
      if HasHit(hits[..n], id) {
        var i :| 0 <= i < n && hits[..n][i].id == id;
        assert hits[i].id == id;
      }
    }
  }

  ghost function HitIds(hits: seq<Hit>): (ids: set<nat>)
    ensures forall id :: id in ids <==> HasHit(hits, id)
    ensures DistinctIds(hits) ==> |ids| == |hits|
  {
    if hits == [] then {}
    else
      var n := |hits| - 1;
      var before := HitIds(hits[..n]);
      assert forall id :: HasHit(hits, id) <==> HasHit(hits[..n], id) || id == hits[n].id by {
        HitsOneMore(hits);
      }
      before + {hits[n].id}
  }

  /**
   * Top-k lists of the same data agree position by position on the distances, so
   * a search equals the plain definition up to ties.
   */
  lemma TopKDistancesAgree(distances: map<nat, real>, k: nat, a: seq<Hit>, b: seq<Hit>, i: nat)
    requires IsTopK(distances, k, a) && IsTopK(distances, k, b) && i < |a|
    ensures |a| == |b| && a[i].distance == b[i].distance
  {
    if a[i].distance < b[i].distance {
      NearerIsImpossible(distances, k, a, b, i);
    } else if b[i].distance < a[i].distance {
      NearerIsImpossible(distances, k, b, a, i);
    }
  }

  lemma NearerIsImpossible(distances: map<nat, real>, k: nat, a: seq<Hit>, b: seq<Hit>, i: nat)
    requires IsTopK(distances, k, a) && IsTopK(distances, k, b) && i < |a|
    ensures b[i].distance <= a[i].distance
  {
    var j := NewHit(a[..i + 1], b[..i]);
    var id := a[j].id;
    assert a[j].distance <= a[i].distance;
    forall m | 0 <= m < i ensures b[m].id != id {
      assert b[m] == b[..i][m];
    }
  }

  /** Of two lists with distinct ids the longer one has a hit the other lacks. */
  lemma NewHit(longer: seq<Hit>, shorter: seq<Hit>) returns (j: nat)
    requires DistinctIds(longer) && DistinctIds(shorter) && |shorter| < |longer|
    ensures j < |longer| && !HasHit(shorter, longer[j].id)
  {
    var near, few := HitIds(longer), HitIds(shorter);
    if near <= few {
      SubsetIsSmaller(near, few);
    }
    var id :| id in near && id !in few;
    j :| 0 <= j < |longer| && longer[j].id == id;
  }

  lemma {:induction false} SubsetIsSmaller(a: set<nat>, b: set<nat>)
    requires a <= b
    ensures |a| <= |b|
  {
    if a != {} {
      var x :| x in a;
      SubsetIsSmaller(a - {x}, b - {x});
    }
  }

  // ---- The index ----

  /** A component as it comes in: infinities and NaN are not finite. */
  datatype Float = Finite(r: real) | NonFinite

  predicate AllFinite(v: seq<Float>) {
    forall i :: 0 <= i < |v| ==> v[i].Finite?
  }

  function Reals(v: seq<Float>): (r: Vector)
    requires AllFinite(v)
    ensures |r| == |v|
  {
    seq(|v|, i requires 0 <= i < |v| => v[i].r)
  }

  ghost predicate Stores(vectors: map<nat, Vector>, raw: map<nat, Raw>, dimension: nat) {
    && vectors.Keys == raw.Keys
    && forall id :: id in raw ==> IsRaw(raw[id], dimension) && vectors[id] == Normalize(raw[id].v, raw[id].norm)
  }

  ghost function ComputedDistances(query: Vector, vectors: map<nat, Vector>): (distances: map<nat, real>)
    ensures |distances| == |distances.Keys|
  {
    map id | id in vectors :: CosineDistance(query, vectors[id])
  }

  /** The distances to all stored vectors, in whatever order the map yields them. */
  method Distances(query: Vector, vectors: map<nat, Vector>) returns (hits: seq<Hit>)
    ensures AreHitsOf(ComputedDistances(query, vectors), hits)
  {
    hits := [];
    var todo := vectors.Keys;
    while todo != {}
      invariant todo <= vectors.Keys && |hits| + |todo| == |vectors.Keys|
      invariant DistinctIds(hits)
      invariant forall i :: 0 <= i < |hits| ==> hits[i].id in vectors.Keys - todo
      invariant forall i :: 0 <= i < |hits| ==> hits[i].distance == CosineDistance(query, vectors[hits[i].id])
    {
      var id :| id in todo;
      hits := hits + [Hit(id, CosineDistance(query, vectors[id]))];
      todo := todo - {id};
    }
    assert ComputedDistances(query, vectors).Keys == vectors.Keys;
  }

  lemma StoredDistances(vectors: map<nat, Vector>, raw: map<nat, Raw>, dimension: nat, query: Raw)
    requires Stores(vectors, raw, dimension) && IsRaw(query, dimension)
    ensures ComputedDistances(Normalize(query.v, query.norm), vectors) == DistancesFrom(query, raw)
  {
    forall id | id in raw
      ensures CosineDistance(Normalize(query.v, query.norm), vectors[id]) == 1.0 - Cosine(query, raw[id])
    {
      DistanceIsOneMinusCosine(query, raw[id]);
    }
  }

  class VectorIndex {
    const dimension: nat
    var vectors: map<nat, Vector>
    ghost var raw: map<nat, Raw>   // what was inserted under each id

    ghost predicate Valid()
      reads this
    {
      Stores(vectors, raw, dimension)
    }

    constructor (dimension: nat)
      ensures Valid() && this.dimension == dimension && raw == map[]
    {
      this.dimension := dimension;
      vectors, raw := map[], map[];
    }

    /**
     * Stores a vector under an id, replacing an earlier one; a wrong dimension and
     * a component that is not finite are errors.
     */
    method Insert(id: nat, vector: seq<Float>, norm: real) returns (ok: bool)
      requires Valid() && (AllFinite(vector) ==> IsNorm(Reals(vector), norm))
      modifies this
      ensures Valid()
      ensures ok <==> |vector| == dimension && AllFinite(vector)
      ensures raw == if ok then old(raw)[id := Raw(Reals(vector), norm)] else old(raw)
    {
      if |vector| != dimension {
        return false;
      }
      if !AllFinite(vector) {
        return false;
      }
      vectors := vectors[id := Normalize(Reals(vector), norm)];
      raw := raw[id := Raw(Reals(vector), norm)];
      ok := true;
    }

    /** The `k` nearest vectors; `None` for an unfit query on a non-empty index. */
    method Search(query: seq<Float>, k: nat, norm: real) returns (r: Option<seq<Hit>>)
      requires Valid() && (AllFinite(query) ==> IsNorm(Reals(query), norm))
      ensures r.None? <==> raw != map[] && (|query| != dimension || !AllFinite(query))
      ensures r.Some? && raw == map[] ==> r.value == []
      ensures r.Some? && raw != map[] ==> IsTopK(DistancesFrom(Raw(Reals(query), norm), raw), k, r.value)
    {
      if vectors == map[] {
        assert raw.Keys == {};
        return Some([]);
      }
      if |query| != dimension {
        return None;
      }
      if !AllFinite(query) {
        return None;
      }
      ghost var q := Raw(Reals(query), norm);
      var hits := Distances(Normalize(Reals(query), norm), vectors);
      var sorted := SortHits(hits);
      var taken := if k < |sorted| then sorted[..k] else sorted;
      StoredDistances(vectors, raw, dimension, q);
      SortingKeepsHits(DistancesFrom(q, raw), hits);
      FirstHitsAreTopK(DistancesFrom(q, raw), k, sorted);
      r := Some(taken);
    }
  }

  /** A rearrangement of hits has the same hits. */
  lemma SameHits(a: seq<Hit>, b: seq<Hit>)
    requires multiset(a) == multiset(b)
    ensures |a| == |b| && forall h :: h in a <==> h in b
  {
    assert |a| == |multiset(a)| && |b| == |multiset(b)|;
    forall h ensures h in a <==> h in b {
      assert h in a <==> h in multiset(a);
      assert h in b <==> h in multiset(b);
    }
  }

  lemma {:induction false} InsertHitKeepsIds(h: Hit, hits: seq<Hit>)
    requires DistinctIds(hits) && !HasHit(hits, h.id)
    ensures DistinctIds(InsertHit(h, hits))
  {
    if hits != [] && hits[0].distance < h.distance {
      var tail := hits[1..];
      var rest := InsertHit(h, tail);
      assert forall i :: 0 <= i < |tail| ==> tail[i] == hits[i + 1];
      assert HasHit(tail, h.id) ==> HasHit(hits, h.id);
      InsertHitKeepsIds(h, tail);
      InsertHitPermutes(h, tail);
      assert multiset(tail + [h]) == multiset(rest);
      SameHits(tail + [h], rest);
      forall i | 0 <= i < |rest| ensures hits[0].id != rest[i].id {
        assert rest[i] in rest;
      }
    }
  }

  lemma {:induction false} SortHitsKeepsIds(hits: seq<Hit>)
    requires DistinctIds(hits)
    ensures DistinctIds(SortHits(hits))
  {
    if hits != [] {
      var tail := hits[1..];
      SortHitsKeepsIds(tail);
      SortHitsOrders(tail);
      SameHits(tail, SortHits(tail));
      forall i | 0 <= i < |tail| ensures SortHits(tail)[i].id != hits[0].id {
        assert SortHits(tail)[i] in tail;
      }
      InsertHitKeepsIds(hits[0], SortHits(tail));
    }
  }

  ghost predicate AreHitsOf(distances: map<nat, real>, hits: seq<Hit>) {
    && DistinctIds(hits) && |hits| == |distances|
    && (forall i :: 0 <= i < |hits| ==> hits[i].id in distances && hits[i].distance == distances[hits[i].id])
  }

  lemma SortingKeepsHits(distances: map<nat, real>, hits: seq<Hit>)
    requires AreHitsOf(distances, hits)
    ensures AreHitsOf(distances, SortHits(hits)) && ByDistance(SortHits(hits))
  {
    var sorted := SortHits(hits);
    SortHitsOrders(hits);
    SameHits(hits, sorted);
    SortHitsKeepsIds(hits);
    forall i | 0 <= i < |sorted|
      ensures sorted[i].id in distances && sorted[i].distance == distances[sorted[i].id]
    {
      assert sorted[i] in hits;
    }
  }

  lemma EveryIdIsHit(distances: map<nat, real>, hits: seq<Hit>, id: nat)
    requires AreHitsOf(distances, hits) && id in distances
    ensures HasHit(hits, id)
  {
    var ids := HitIds(hits);
    if id !in ids {
      SubsetIsSmaller(ids, distances.Keys - {id});
    }
  }

  lemma FirstHitsAreTopK(distances: map<nat, real>, k: nat, sorted: seq<Hit>)
    requires AreHitsOf(distances, sorted) && ByDistance(sorted)
    ensures IsTopK(distances, k, if k < |sorted| then sorted[..k] else sorted)
  {
    var taken := if k < |sorted| then sorted[..k] else sorted;
    forall id, i | id in distances && 0 <= i < |taken| && !HasHit(taken, id)
      ensures taken[i].distance <= distances[id]
    {
      EveryIdIsHit(distances, sorted, id);
      var m :| 0 <= m < |sorted| && sorted[m].id == id;
      forall n | 0 <= n < |taken| ensures sorted[n].id != id {
        assert sorted[n] == taken[n];
      }
    }
  }
}
