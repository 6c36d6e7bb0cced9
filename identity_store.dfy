/**
 * The state and the two operations of HumanDataBase (nnio/utils.py) as
 * functions on values: Assign is find_closest, Consolidate is optimize.
 * The class in human_database.dfy keeps its state in fields and is proved
 * to follow these functions; the lemmas here state what the operations do.
 *
 * Keys are the decimal strings str(n); as that map is injective they are
 * modelled by n itself.  The two dictionaries `vectors` and `counts` are
 * always written together, so they share one insertion order, `order`.
 */
module IdentityStore {
  import opened Wrappers
  import opened Vectors
  import opened Search

  type Key = nat

  datatype Db = Db(order: seq<Key>, vectors: map<Key, Vector>, counts: map<Key, nat>)

  /** numpy's ValueError from `@` on vectors of different lengths. */
  datatype StoreError = DimensionMismatch

  /** The new state and the key find_closest returns. */
  datatype Assigned = Assigned(db: Db, key: Key)

  /** An entry [i, j, dst] of the `distances` list built by optimize. */
  datatype Pair = Pair(i: nat, j: nat, dst: real)

  const DefaultNewEntityThreshold: real := 0.25
  const DefaultMergingThreshold: real := 0.2

  ghost predicate Distinct(s: seq<Key>) {
    forall a, b :: 0 <= a < b < |s| ==> s[a] != s[b]
  }

  /**
   * The store's invariant: the keys in insertion order, each once, are the
   * keys of both dictionaries; every count is at least 1; all centroids
   * have the length of the first.
   */
  ghost predicate Valid(db: Db) {
    && Distinct(db.order)
    && (forall k :: k in db.vectors <==> k in db.order)
    && db.counts.Keys == db.vectors.Keys
    && (forall k :: k in db.counts ==> db.counts[k] >= 1)
    && (forall k :: k in db.vectors ==> |db.vectors[k]| == |db.vectors[db.order[0]]|)
  }

  /** All vectors of cs have the length of the first. */
  ghost predicate SameDim(cs: seq<Vector>) {
    forall a :: 0 <= a < |cs| ==> |cs[a]| == |cs[0]|
  }

  /** A freshly constructed HumanDataBase: both dictionaries empty. */
  function Empty(): Db {
    Db([], map[], map[])
  }

  /** The centroids in insertion order. */
  function Centroids(db: Db): (cs: seq<Vector>)
    requires Valid(db)
    ensures |cs| == |db.order| && SameDim(cs)
    ensures forall a :: 0 <= a < |cs| ==> cs[a] == db.vectors[db.order[a]]
  {
    seq(|db.order|, a requires 0 <= a < |db.order| => db.vectors[db.order[a]])
  }

  /** v can be compared with every stored centroid. */
  predicate Fits(db: Db, v: Vector) {
    forall k :: k in db.vectors ==> |db.vectors[k]| == |v|
  }

  /** The list `distances` of find_closest. */
  function Distances(v: Vector, cs: seq<Vector>): seq<real>
    requires forall a :: 0 <= a < |cs| ==> |cs[a]| == |v|
  {
    seq(|cs|, a requires 0 <= a < |cs| => Distance(v, cs[a]))
  }

  /** find_closest(vec) */
  function Assign(db: Db, vec: Vector, threshold: real, rsqrt: real -> real): Result<Assigned, StoreError>
    requires Valid(db)
  {
    var v := Normalize(vec, rsqrt);
    if !Fits(db, v) then Failure(DimensionMismatch)
    else if |db.order| == 0 then Success(Create(db, v))
    else
      var d := Distances(v, Centroids(db));
      var m := ArgMin(d);
      if d[m] > threshold then Success(Create(db, v))
      else Success(Update(db, db.order[m], v, rsqrt))
  }

  /** The branch of find_closest that adds an entry under key str(len(vectors)). */
  function Create(db: Db, v: Vector): Assigned {
    var key := |db.vectors|;
    Assigned(
      Db(if key in db.vectors then db.order else db.order + [key],
         db.vectors[key := v],
         db.counts[key := 1]),
      key)
  }

  /** normalize(centroid * count + v): the running mean of the entry, renormalized. */
  function RunningMean(centroid: Vector, count: nat, v: Vector, rsqrt: real -> real): Vector
    requires |centroid| == |v|
  {
    Normalize(Add(Scale(centroid, count as real), v), rsqrt)
  }

  /** The branch of find_closest that moves the matched centroid toward v. */
  function Update(db: Db, key: Key, v: Vector, rsqrt: real -> real): Assigned
    requires key in db.vectors && key in db.counts && |db.vectors[key]| == |v|
  {
    var centroid := RunningMean(db.vectors[key], db.counts[key], v, rsqrt);
    Assigned(db.(vectors := db.vectors[key := centroid], counts := db.counts[key := db.counts[key] + 1]), key)
  }

  /** The pairs (i, j) of row i with i < j' < j, in scan order, whose distance is below threshold. */
  function RowPairs(cs: seq<Vector>, threshold: real, i: nat, j: nat): (ps: seq<Pair>)
    requires SameDim(cs) && i < j <= |cs|
    ensures forall p :: 0 <= p < |ps| ==> ps[p].i == i && i < ps[p].j < j
    decreases j
  {
    if j == i + 1 then []
    else
      var rest := RowPairs(cs, threshold, i, j - 1);
      var d := Distance(cs[i], cs[j - 1]);
      if d < threshold then rest + [Pair(i, j - 1, d)] else rest
  }

  /** The `distances` list of optimize after its first `rows` rows. */
  function ScanPairs(cs: seq<Vector>, threshold: real, rows: nat): (ps: seq<Pair>)
    requires SameDim(cs) && rows <= |cs|
    ensures forall p :: 0 <= p < |ps| ==> ps[p].i < rows && ps[p].i < ps[p].j < |cs|
  {
    if rows == 0 then []
    else ScanPairs(cs, threshold, rows - 1) + RowPairs(cs, threshold, rows - 1, |cs|)
  }

  /** One step of the inner loop of optimize. */
  lemma RowPairsStep(cs: seq<Vector>, threshold: real, i: nat, j: nat)
    requires SameDim(cs) && i < j < |cs|
    ensures RowPairs(cs, threshold, i, j + 1) == RowPairs(cs, threshold, i, j) +
      (if Distance(cs[i], cs[j]) < threshold then [Pair(i, j, Distance(cs[i], cs[j]))] else [])
  {
  }

  /** The same step, read off the store's entries as the inner loop of optimize reads them. */
  lemma RowPairsNext(db: Db, threshold: real, i: nat, j: nat, row: seq<Pair>)
    requires Valid(db) && i < j < |db.order| && row == RowPairs(Centroids(db), threshold, i, j)
    ensures var dst := Distance(db.vectors[db.order[i]], db.vectors[db.order[j]]);
      && (dst < threshold ==> RowPairs(Centroids(db), threshold, i, j + 1) == row + [Pair(i, j, dst)])
      && (!(dst < threshold) ==> RowPairs(Centroids(db), threshold, i, j + 1) == row)
  {
    RowPairsStep(Centroids(db), threshold, i, j);
  }

  /** np.array(distances)[:, 2] */
  function Dsts(ps: seq<Pair>): seq<real> {
    seq(|ps|, p requires 0 <= p < |ps| => ps[p].dst)
  }

  /** optimize() */
  function Consolidate(db: Db, threshold: real, rsqrt: real -> real): Db
    requires Valid(db)
  {
    if |db.order| < 2 then db
    else
      var ps := ScanPairs(Centroids(db), threshold, |db.order|);
      if |ps| == 0 then db
      else
        var best := ps[ArgMin(Dsts(ps))];
        Merge(db, best.i, best.j, rsqrt)
  }

  /** Merge entry j into entry i: keys[i] gets the normalized sum and count 1, keys[j] is deleted. */
  function Merge(db: Db, i: nat, j: nat, rsqrt: real -> real): Db
    requires Valid(db) && i < j < |db.order|
  {
    var ki := db.order[i];
    var kj := db.order[j];
    Db(db.order[..j] + db.order[j + 1..],
       db.vectors[ki := Normalize(Add(db.vectors[ki], db.vectors[kj]), rsqrt)] - {kj},
       db.counts[ki := 1] - {kj})
  }

  // ----- find_closest -----

  function KeySet(s: seq<Key>): set<Key> {
    set k | k in s
  }

  lemma {:induction false} DistinctCard(s: seq<Key>)
    requires Distinct(s)
    ensures |KeySet(s)| == |s|
  {
    if |s| > 0 {
      var init := s[..|s| - 1];
      var last := s[|s| - 1];
      assert s == init + [last];
      DistinctCard(init);
      var before := KeySet(init);
      assert KeySet(s) == before + {last};
      assert last !in before;
    }
  }

  /** len(self.vectors) is the number of live entries. */
  lemma LiveCount(db: Db)
    requires Valid(db)
    ensures |db.vectors| == |db.order|
  {
    DistinctCard(db.order);
    assert db.vectors.Keys == KeySet(db.order);
  }

  /**
   * Creating: the key is the number of live entries; it gets the normalized
   * input and count 1. If that key is still live (possible after a merge)
   * the entry is overwritten where it stands; otherwise exactly one entry is
   * appended. No entry is removed and every other entry is unchanged.
   * CreateValid shows the invariant is kept.
   */
  lemma CreateEffect(db: Db, v: Vector)
    requires Valid(db) && Fits(db, v)
    ensures var a := Create(db, v);
      && a.key == |db.order|
      && a.db.vectors[a.key] == v && a.db.counts[a.key] == 1
      && a.db.vectors.Keys == db.vectors.Keys + {a.key}
      && (forall k :: k in db.vectors && k != a.key ==>
            a.db.vectors[k] == db.vectors[k] && a.db.counts[k] == db.counts[k])
      && (a.key in db.vectors ==> a.db.order == db.order)
      && (a.key !in db.vectors ==> a.db.order == db.order + [a.key])
  {
    LiveCount(db);
  }

  lemma CreateValid(db: Db, v: Vector)
    requires Valid(db) && Fits(db, v)
    ensures Valid(Create(db, v).db)
  {
    var a := Create(db, v);
    if a.key !in db.vectors {
      AppendDistinct(db.order, a.key);
    }
    forall k, k' | k in a.db.vectors && k' in a.db.vectors
      ensures |a.db.vectors[k]| == |a.db.vectors[k']|
    {
      assert |a.db.vectors[k]| == |v| && |a.db.vectors[k']| == |v|;
    }
  }

  lemma AppendDistinct(s: seq<Key>, x: Key)
    requires Distinct(s) && x !in s
    ensures Distinct(s + [x])
  {
    forall a, b | 0 <= a < b < |s| + 1 ensures (s + [x])[a] != (s + [x])[b] {
      assert (s + [x])[a] == s[a];
    }
  }

  /**
   * Matching key: its centroid becomes normalize(old * count + v), its count
   * grows by exactly 1, and the order and every other entry are unchanged.
   */
  lemma UpdateEffect(db: Db, key: Key, v: Vector, rsqrt: real -> real)
    requires Valid(db) && Fits(db, v) && key in db.vectors
    ensures var a := Update(db, key, v, rsqrt);
      && Valid(a.db)
      && a.key == key
      && a.db.order == db.order
      && a.db.vectors.Keys == db.vectors.Keys
      && a.db.vectors[key] == Normalize(Add(Scale(db.vectors[key], db.counts[key] as real), v), rsqrt)
      && a.db.counts[key] == db.counts[key] + 1
      && (forall k :: k in db.vectors && k != key ==>
            a.db.vectors[k] == db.vectors[k] && a.db.counts[k] == db.counts[k])
  {
    UpdateValid(db, key, v, rsqrt);
  }

  lemma UpdateValid(db: Db, key: Key, v: Vector, rsqrt: real -> real)
    requires Valid(db) && Fits(db, v) && key in db.vectors
    ensures Valid(Update(db, key, v, rsqrt).db)
  {
  }

  /**
   * find_closest keeps the invariant, never removes an entry, adds at most
   * one, and fails exactly when the input's length differs from the stored
   * centroids' (leaving the state as it was).
   */
  lemma AssignKeepsValid(db: Db, vec: Vector, threshold: real, rsqrt: real -> real)
    requires Valid(db)
    ensures Assign(db, vec, threshold, rsqrt).Failure? <==> !Fits(db, Normalize(vec, rsqrt))
    ensures Assign(db, vec, threshold, rsqrt).Success? ==>
      GrowsByAtMostOne(db, Assign(db, vec, threshold, rsqrt).value)
  {
    var r := Assign(db, vec, threshold, rsqrt);
    var v := Normalize(vec, rsqrt);
    if Fits(db, v) {
      if |db.order| == 0 {
        assert r == Success(Create(db, v));
        CreateGrows(db, v);
      } else {
        var d := Distances(v, Centroids(db));
        var m := ArgMin(d);
        if d[m] > threshold {
          assert r == Success(Create(db, v));
          CreateGrows(db, v);
        } else {
          assert r == Success(Update(db, db.order[m], v, rsqrt));
          UpdateEffect(db, db.order[m], v, rsqrt);
        }
      }
    }
  }

  /** The state after find_closest keeps the invariant, has every old entry and at most one more, and holds the key returned. */
  ghost predicate GrowsByAtMostOne(db: Db, a: Assigned) {
    && Valid(a.db)
    && db.vectors.Keys <= a.db.vectors.Keys
    && |db.order| <= |a.db.order| <= |db.order| + 1
    && a.key in a.db.vectors
  }

  lemma CreateGrows(db: Db, v: Vector)
    requires Valid(db) && Fits(db, v)
    ensures GrowsByAtMostOne(db, Create(db, v))
  {
    CreateEffect(db, v);
    CreateValid(db, v);
  }

  /** The create branch of find_closest, given its list of distances. */
  lemma AssignCreateBranch(db: Db, vec: Vector, threshold: real, rsqrt: real -> real, d: seq<real>)
    requires Valid(db) && Fits(db, Normalize(vec, rsqrt))
    requires d == Distances(Normalize(vec, rsqrt), Centroids(db))
    requires |d| == 0 || d[ArgMin(d)] > threshold
    ensures Assign(db, vec, threshold, rsqrt) == Success(Create(db, Normalize(vec, rsqrt)))
  {
  }

  /** The update branch of find_closest, given its list of distances. */
  lemma AssignUpdateBranch(db: Db, vec: Vector, threshold: real, rsqrt: real -> real, d: seq<real>)
    requires Valid(db) && Fits(db, Normalize(vec, rsqrt))
    requires d == Distances(Normalize(vec, rsqrt), Centroids(db))
    requires |d| > 0 && d[ArgMin(d)] <= threshold
    ensures ArgMin(d) < |db.order|
    ensures Assign(db, vec, threshold, rsqrt) ==
      Success(Update(db, db.order[ArgMin(d)], Normalize(vec, rsqrt), rsqrt))
  {
  }

  /** On an empty store find_closest adds key 0 with the normalized input and count 1. */
  lemma AssignEmpty(vec: Vector, threshold: real, rsqrt: real -> real)
    ensures Assign(Empty(), vec, threshold, rsqrt) ==
      Success(Assigned(Db([0], map[0 := Normalize(vec, rsqrt)], map[0 := 1]), 0))
  {
    var none: map<Key, Vector> := map[];
    assert |none| == 0;
    assert [] + [0 as Key] == [0];
  }

  /** A new entry is created when every centroid is strictly farther than the threshold. */
  lemma AssignCreatesWhenAllFar(db: Db, vec: Vector, threshold: real, rsqrt: real -> real)
    requires Valid(db) && Fits(db, Normalize(vec, rsqrt))
    requires forall a :: 0 <= a < |db.order| ==>
      Distance(Normalize(vec, rsqrt), db.vectors[db.order[a]]) > threshold
    ensures Assign(db, vec, threshold, rsqrt) == Success(Create(db, Normalize(vec, rsqrt)))
  {
    if |db.order| > 0 {
      var v := Normalize(vec, rsqrt);
      var d := Distances(v, Centroids(db));
      var m := ArgMin(d);
      assert d[m] == Distance(v, db.vectors[db.order[m]]);
    }
  }

  /**
   * Otherwise the entry matched is the first nearest one in insertion order,
   * and a distance equal to the threshold still matches.
   */
  lemma AssignUpdatesFirstNearest(db: Db, vec: Vector, threshold: real, rsqrt: real -> real, m: nat)
    requires Valid(db) && Fits(db, Normalize(vec, rsqrt)) && m < |db.order|
    requires var v := Normalize(vec, rsqrt);
      && (forall a :: 0 <= a < |db.order| ==>
            Distance(v, db.vectors[db.order[m]]) <= Distance(v, db.vectors[db.order[a]]))
      && (forall a :: 0 <= a < m ==>
            Distance(v, db.vectors[db.order[m]]) < Distance(v, db.vectors[db.order[a]]))
      && Distance(v, db.vectors[db.order[m]]) <= threshold
    ensures Assign(db, vec, threshold, rsqrt) ==
      Success(Update(db, db.order[m], Normalize(vec, rsqrt), rsqrt))
  {
    var v := Normalize(vec, rsqrt);
    var d := Distances(v, Centroids(db));
    ArgMinIsFirstMin(d);
    assert IsFirstMin(d, m);
    FirstMinUnique(d, ArgMin(d), m);
  }

  // ----- optimize -----

  ghost predicate Qualifies(cs: seq<Vector>, threshold: real, a: int, b: int)
    requires SameDim(cs)
  {
    0 <= a < b < |cs| && Distance(cs[a], cs[b]) < threshold
  }

  /** (a, b) comes before (c, d) in the nested scan `for i: for j`. */
  predicate ScanBefore(a: int, b: int, c: int, d: int) {
    a < c || (a == c && b < d)
  }

  /**
   * (i, j) is the pair optimize merges: it qualifies, no qualifying pair is
   * closer, and every qualifying pair scanned before it is strictly farther.
   */
  ghost predicate BestPair(cs: seq<Vector>, threshold: real, i: nat, j: nat)
    requires SameDim(cs)
  {
    && Qualifies(cs, threshold, i, j)
    && (forall a, b :: Qualifies(cs, threshold, a, b) ==> Distance(cs[i], cs[j]) <= Distance(cs[a], cs[b]))
    && (forall a, b :: Qualifies(cs, threshold, a, b) && ScanBefore(a, b, i, j) ==>
          Distance(cs[i], cs[j]) < Distance(cs[a], cs[b]))
  }

  /** What a prefix of the `distances` list holds: qualifying pairs, all of them, in scan order. */
  ghost predicate ListsQualifying(cs: seq<Vector>, threshold: real, ps: seq<Pair>, rows: int)
    requires SameDim(cs)
  {
    && PairsQualify(cs, threshold, ps)
    && (forall a, b :: Qualifies(cs, threshold, a, b) && a < rows ==> Pair(a, b, Distance(cs[a], cs[b])) in ps)
    && InScanOrder(ps)
  }

  lemma {:induction false} RowPairsSound(cs: seq<Vector>, threshold: real, i: nat, j: nat)
    requires SameDim(cs) && i < j <= |cs|
    ensures PairsQualify(cs, threshold, RowPairs(cs, threshold, i, j))
    decreases j
  {
    if j > i + 1 {
      RowPairsSound(cs, threshold, i, j - 1);
      RowPairsStep(cs, threshold, i, j - 1);
    }
  }
  lemma {:induction false} RowPairsComplete(cs: seq<Vector>, threshold: real, i: nat, j: nat)
    requires SameDim(cs) && i < j <= |cs|
    ensures forall b :: i < b < j && Qualifies(cs, threshold, i, b) ==>
      Pair(i, b, Distance(cs[i], cs[b])) in RowPairs(cs, threshold, i, j)
    decreases j
  {
    if j > i + 1 {
      RowPairsComplete(cs, threshold, i, j - 1);
      RowPairsStep(cs, threshold, i, j - 1);
    }
  }
  lemma {:induction false} RowPairsOrdered(cs: seq<Vector>, threshold: real, i: nat, j: nat)
    requires SameDim(cs) && i < j <= |cs|
    ensures ColumnsIncrease(RowPairs(cs, threshold, i, j))
    decreases j
  {
    if j > i + 1 {
      RowPairsOrdered(cs, threshold, i, j - 1);
      RowPairsStep(cs, threshold, i, j - 1);
    }
  }

  ghost predicate ColumnsIncrease(ps: seq<Pair>) {
    forall p, q :: 0 <= p < q < |ps| ==> ps[p].j < ps[q].j
  }

  ghost predicate InScanOrder(ps: seq<Pair>) {
    forall p, q :: 0 <= p < q < |ps| ==> ScanBefore(ps[p].i, ps[p].j, ps[q].i, ps[q].j)
  }

  ghost predicate PairsQualify(cs: seq<Vector>, threshold: real, ps: seq<Pair>)
    requires SameDim(cs)
  {
    forall p :: 0 <= p < |ps| ==>
      Qualifies(cs, threshold, ps[p].i, ps[p].j) && ps[p].dst == Distance(cs[ps[p].i], cs[ps[p].j])
  }

  lemma ScanPairsSpec(cs: seq<Vector>, threshold: real, rows: nat)
    requires SameDim(cs) && rows <= |cs|
    ensures ListsQualifying(cs, threshold, ScanPairs(cs, threshold, rows), rows)
  {
    ScanPairsSound(cs, threshold, rows);
    ScanPairsComplete(cs, threshold, rows);
    ScanPairsOrdered(cs, threshold, rows);
  }

  lemma {:induction false} ScanPairsSound(cs: seq<Vector>, threshold: real, rows: nat)
    requires SameDim(cs) && rows <= |cs|
    ensures PairsQualify(cs, threshold, ScanPairs(cs, threshold, rows))
  {
    if rows > 0 {
      var prev := ScanPairs(cs, threshold, rows - 1);
      var row := RowPairs(cs, threshold, rows - 1, |cs|);
      ScanPairsStep(cs, threshold, rows);
      ScanPairsSound(cs, threshold, rows - 1);
      RowPairsSound(cs, threshold, rows - 1, |cs|);
      QualifyAppend(cs, threshold, prev, row);
    }
  }

  /** One more row of the outer loop of optimize. */
  lemma ScanPairsStep(cs: seq<Vector>, threshold: real, rows: nat)
    requires SameDim(cs) && 0 < rows <= |cs|
    ensures ScanPairs(cs, threshold, rows) ==
      ScanPairs(cs, threshold, rows - 1) + RowPairs(cs, threshold, rows - 1, |cs|)
  {
  }

  lemma QualifyAppend(cs: seq<Vector>, threshold: real, ps: seq<Pair>, qs: seq<Pair>)
    requires SameDim(cs) && PairsQualify(cs, threshold, ps) && PairsQualify(cs, threshold, qs)
    ensures PairsQualify(cs, threshold, ps + qs)
  {
    forall p | 0 <= p < |ps + qs|
      ensures Qualifies(cs, threshold, (ps + qs)[p].i, (ps + qs)[p].j) &&
        (ps + qs)[p].dst == Distance(cs[(ps + qs)[p].i], cs[(ps + qs)[p].j])
    {
      if p < |ps| {
        assert (ps + qs)[p] == ps[p];
      } else {
        assert (ps + qs)[p] == qs[p - |ps|];
      }
    }
  }

  lemma {:induction false} ScanPairsComplete(cs: seq<Vector>, threshold: real, rows: nat)
    requires SameDim(cs) && rows <= |cs|
    ensures forall a, b :: Qualifies(cs, threshold, a, b) && a < rows ==>
      Pair(a, b, Distance(cs[a], cs[b])) in ScanPairs(cs, threshold, rows)
  {
    if rows > 0 {
      var prev := ScanPairs(cs, threshold, rows - 1);
      var row := RowPairs(cs, threshold, rows - 1, |cs|);
      ScanPairsComplete(cs, threshold, rows - 1);
      RowPairsComplete(cs, threshold, rows - 1, |cs|);
      assert ScanPairs(cs, threshold, rows) == prev + row;
      forall a, b | Qualifies(cs, threshold, a, b) && a < rows
        ensures Pair(a, b, Distance(cs[a], cs[b])) in prev + row
      {
        if a < rows - 1 {
          assert Pair(a, b, Distance(cs[a], cs[b])) in prev;
        } else {
          assert Pair(a, b, Distance(cs[a], cs[b])) in row;
        }
      }
    }
  }

  lemma {:induction false} ScanPairsOrdered(cs: seq<Vector>, threshold: real, rows: nat)
    requires SameDim(cs) && rows <= |cs|
    ensures InScanOrder(ScanPairs(cs, threshold, rows))
  {
    if rows > 0 {
      var prev := ScanPairs(cs, threshold, rows - 1);
      var row := RowPairs(cs, threshold, rows - 1, |cs|);
      ScanPairsOrdered(cs, threshold, rows - 1);
      RowPairsOrdered(cs, threshold, rows - 1, |cs|);
      OrderAppend(prev, row, rows - 1);
      assert ScanPairs(cs, threshold, rows) == prev + row;
    }
  }

  /** Earlier rows, in scan order, followed by one later row with increasing columns, are in scan order. */
  lemma OrderAppend(ps: seq<Pair>, qs: seq<Pair>, row: nat)
    requires InScanOrder(ps) && ColumnsIncrease(qs)
    requires forall p :: 0 <= p < |ps| ==> ps[p].i < row
    requires forall q :: 0 <= q < |qs| ==> qs[q].i == row
    ensures InScanOrder(ps + qs)
  {
    var rs := ps + qs;
    forall p, q | 0 <= p < q < |rs| ensures ScanBefore(rs[p].i, rs[p].j, rs[q].i, rs[q].j) {
      if q < |ps| {
        assert rs[p] == ps[p] && rs[q] == ps[q];
      } else if p < |ps| {
        assert rs[p] == ps[p] && rs[q] == qs[q - |ps|];
      } else {
        assert rs[p] == qs[p - |ps|] && rs[q] == qs[q - |ps|];
      }
    }
  }

  /** The pair optimize picks, when its `distances` list is not empty, is the best pair. */
  lemma ChosenIsBest(cs: seq<Vector>, threshold: real)
    requires SameDim(cs) && |ScanPairs(cs, threshold, |cs|)| > 0
    ensures var ps := ScanPairs(cs, threshold, |cs|);
      var best := ps[ArgMin(Dsts(ps))];
      BestPair(cs, threshold, best.i, best.j)
  {
    var ps := ScanPairs(cs, threshold, |cs|);
    ScanPairsSpec(cs, threshold, |cs|);
    var m := ArgMin(Dsts(ps));
    ArgMinIsFirstMin(Dsts(ps));
    var best := ps[m];
    forall a, b | Qualifies(cs, threshold, a, b)
      ensures Distance(cs[best.i], cs[best.j]) <= Distance(cs[a], cs[b])
      ensures ScanBefore(a, b, best.i, best.j) ==> Distance(cs[best.i], cs[best.j]) < Distance(cs[a], cs[b])
    {
      var pr := Pair(a, b, Distance(cs[a], cs[b]));
      assert pr in ps;
      var p :| 0 <= p < |ps| && ps[p] == pr;
      assert Dsts(ps)[p] == pr.dst;
      if ScanBefore(a, b, best.i, best.j) {
        ScanOrderIndex(ps, p, m);
      }
    }
  }

  /** In a list in strict scan order, a pair scanned earlier sits at an earlier index. */
  lemma ScanOrderIndex(ps: seq<Pair>, p: nat, q: nat)
    requires forall p', q' :: 0 <= p' < q' < |ps| ==> ScanBefore(ps[p'].i, ps[p'].j, ps[q'].i, ps[q'].j)
    requires p < |ps| && q < |ps| && ScanBefore(ps[p].i, ps[p].j, ps[q].i, ps[q].j)
    ensures p < q
  {
  }

  /** At most one pair can be the best one. */
  lemma BestPairUnique(cs: seq<Vector>, threshold: real, i: nat, j: nat, i': nat, j': nat)
    requires SameDim(cs) && BestPair(cs, threshold, i, j) && BestPair(cs, threshold, i', j')
    ensures i == i' && j == j'
  {
    assert Qualifies(cs, threshold, i, j) && Qualifies(cs, threshold, i', j');
    assert Distance(cs[i], cs[j]) <= Distance(cs[i'], cs[j']) && Distance(cs[i'], cs[j']) <= Distance(cs[i], cs[j]);
  }

  /**
   * optimize changes nothing exactly when the store has fewer than two
   * entries or no pair is strictly closer than the merging threshold.
   */
  lemma ConsolidateNoOp(db: Db, threshold: real, rsqrt: real -> real)
    requires Valid(db)
    ensures Consolidate(db, threshold, rsqrt) == db <==>
      (|db.order| < 2 || forall a, b :: !Qualifies(Centroids(db), threshold, a, b))
  {
    if |db.order| >= 2 {
      if |ScanPairs(Centroids(db), threshold, |db.order|)| > 0 {
        ConsolidateShrinks(db, threshold, rsqrt);
      } else {
        ScanPairsComplete(Centroids(db), threshold, |db.order|);
      }
    }
  }

  /** With a non-empty `distances` list, optimize removes one entry, and some pair qualifies. */
  lemma ConsolidateShrinks(db: Db, threshold: real, rsqrt: real -> real)
    requires Valid(db) && |db.order| >= 2 && |ScanPairs(Centroids(db), threshold, |db.order|)| > 0
    ensures |Consolidate(db, threshold, rsqrt).order| == |db.order| - 1
    ensures exists a, b :: Qualifies(Centroids(db), threshold, a, b)
  {
    var cs := Centroids(db);
    var ps := ScanPairs(cs, threshold, |db.order|);
    ScanPairsSound(cs, threshold, |db.order|);
    assert Qualifies(cs, threshold, ps[0].i, ps[0].j);
  }

  /** When some pair qualifies, optimize merges the best pair and only that one. */
  lemma ConsolidateMergesBest(db: Db, threshold: real, rsqrt: real -> real, i: nat, j: nat)
    requires Valid(db) && BestPair(Centroids(db), threshold, i, j)
    ensures Consolidate(db, threshold, rsqrt) == Merge(db, i, j, rsqrt)
  {
    var cs := Centroids(db);
    var ps := ScanPairs(cs, threshold, |db.order|);
    ScanPairsSpec(cs, threshold, |db.order|);
    assert Pair(i, j, Distance(cs[i], cs[j])) in ps;
    ChosenIsBest(cs, threshold);
    var best := ps[ArgMin(Dsts(ps))];
    BestPairUnique(cs, threshold, best.i, best.j, i, j);
  }

  /** Some pair qualifies exactly when a best pair exists. */
  lemma BestPairExists(db: Db, threshold: real, a: nat, b: nat)
    requires Valid(db) && Qualifies(Centroids(db), threshold, a, b)
    ensures exists i: nat, j: nat :: BestPair(Centroids(db), threshold, i, j)
  {
    var cs := Centroids(db);
    ScanPairsSpec(cs, threshold, |cs|);
    assert Pair(a, b, Distance(cs[a], cs[b])) in ScanPairs(cs, threshold, |cs|);
    ChosenIsBest(cs, threshold);
  }

  /** Removing the element at index j of a list without duplicates. */
  lemma RemoveAtEffect(s: seq<Key>, j: nat)
    requires Distinct(s) && j < |s|
    ensures var r := s[..j] + s[j + 1..];
      && Distinct(r)
      && (forall k :: k in r <==> k in s && k != s[j])
  {
    var r := s[..j] + s[j + 1..];
    forall k ensures k in r <==> k in s && k != s[j] {
      if k in r {
        var p :| 0 <= p < |r| && r[p] == k;
        if p < j { assert s[p] == k; } else { assert s[p + 1] == k; }
      }
      if k in s && k != s[j] {
        var p :| 0 <= p < |s| && s[p] == k;
        if p < j { assert r[p] == k; } else { assert r[p - 1] == k; }
      }
    }
    forall a, b | 0 <= a < b < |r| ensures r[a] != r[b] {
      var a' := if a < j then a else a + 1;
      var b' := if b < j then b else b + 1;
      assert r[a] == s[a'] && r[b] == s[b'];
    }
  }

  /**
   * A merge of (i, j): keys[i] gets normalize(v_i + v_j) and count 1 in its
   * old position, keys[j] leaves both dictionaries, and every other entry
   * and the order of the rest are unchanged.  MergeValid shows the
   * invariant is kept.
   */
  lemma MergeEffect(db: Db, i: nat, j: nat, rsqrt: real -> real)
    requires Valid(db) && i < j < |db.order|
    ensures var r := Merge(db, i, j, rsqrt);
      var ki := db.order[i];
      var kj := db.order[j];
      && |r.order| == |db.order| - 1
      && r.order == db.order[..j] + db.order[j + 1..]
      && r.vectors.Keys == db.vectors.Keys - {kj}
      && r.vectors[ki] == Normalize(Add(db.vectors[ki], db.vectors[kj]), rsqrt)
      && r.counts[ki] == 1
      && (forall k :: k in r.vectors && k != ki ==> r.vectors[k] == db.vectors[k] && r.counts[k] == db.counts[k])
  {
    assert db.order[i] != db.order[j];
  }

  lemma MergeValid(db: Db, i: nat, j: nat, rsqrt: real -> real)
    requires Valid(db) && i < j < |db.order|
    ensures Valid(Merge(db, i, j, rsqrt))
  {
    var r := Merge(db, i, j, rsqrt);
    RemoveAtEffect(db.order, j);
    var ki := db.order[i];
    assert ki != db.order[j];
    var n := |db.vectors[ki]|;
    forall k | k in r.vectors ensures |r.vectors[k]| == n {
    }
  }

  /**
   * Key reuse: with three entries 0, 1, 2, merging 1 into 0 leaves two live
   * entries, so the next created key is 2 -- the key of a live entry, which
   * is overwritten in place and keeps its position; the store still has two
   * entries afterwards.
   */
  lemma CreateAfterMergeOverwrites(db: Db, v: Vector, rsqrt: real -> real)
    requires Valid(db) && db.order == [0, 1, 2]
    ensures var m := Merge(db, 0, 1, rsqrt);
      var a := Create(m, v);
      && m.order == [0, 2]
      && a.key == 2
      && a.db.order == [0, 2]
      && a.db.vectors.Keys == {0, 2} && a.db.vectors[0] == m.vectors[0] && a.db.vectors[2] == v
      && a.db.counts[0] == 1 && a.db.counts[2] == 1
  {
    var m := Merge(db, 0, 1, rsqrt);
    assert db.order[1] == 1;
    assert db.vectors.Keys == {0, 1, 2};
    assert m.order == [0] + [2];
    assert m.vectors.Keys == {0, 2};
    assert |m.vectors.Keys| == 2;
  }


  // ----- unit centroids -----

  /** Every stored centroid has squared norm 1, as normalize leaves it. */
  ghost predicate UnitCentroids(db: Db) {
    forall k :: k in db.vectors ==> SquaredNorm(db.vectors[k]) == 1.0
  }

  lemma EmptyIsUnit()
    ensures Valid(Empty()) && UnitCentroids(Empty())
  {
  }

  /**
   * find_closest stores only unit vectors: the new entry is the normalized
   * input, and a matched centroid is renormalized after the running mean.
   * The input must not be the zero vector (normalize would divide by zero)
   * and the threshold must lie below 2, the distance of opposite unit
   * vectors, whose running mean with count 1 is zero.
   */
  lemma AssignKeepsUnit(db: Db, vec: Vector, threshold: real, rsqrt: real -> real)
    requires Valid(db) && UnitCentroids(db) && IsRsqrt(rsqrt)
    requires SquaredNorm(vec) > 0.0 && threshold < 2.0
    ensures Assign(db, vec, threshold, rsqrt).Success? ==>
      UnitCentroids(Assign(db, vec, threshold, rsqrt).value.db)
  {
    var v := Normalize(vec, rsqrt);
    NormalizeIsUnit(vec, rsqrt);
    if Fits(db, v) {
      if |db.order| == 0 {
        CreateKeepsUnit(db, v);
      } else {
        var d := Distances(v, Centroids(db));
        var m := ArgMin(d);
        if d[m] > threshold {
          CreateKeepsUnit(db, v);
        } else {
          assert d[m] == Distance(v, db.vectors[db.order[m]]);
          UpdateKeepsUnit(db, db.order[m], v, rsqrt);
        }
      }
    }
  }

  lemma CreateKeepsUnit(db: Db, v: Vector)
    requires UnitCentroids(db) && SquaredNorm(v) == 1.0
    ensures UnitCentroids(Create(db, v).db)
  {
  }

  lemma UpdateKeepsUnit(db: Db, key: Key, v: Vector, rsqrt: real -> real)
    requires Valid(db) && UnitCentroids(db) && IsRsqrt(rsqrt) && Fits(db, v) && key in db.vectors
    requires SquaredNorm(v) == 1.0 && Distance(v, db.vectors[key]) < 2.0
    ensures UnitCentroids(Update(db, key, v, rsqrt).db)
  {
    WeightedSumNormalizes(db.vectors[key], db.counts[key] as real, v, rsqrt);
  }

  /**
   * optimize stores only unit vectors: the merged centroid is the
   * normalized sum of two unit vectors closer than the threshold, which
   * is at most 2, so the sum is never zero.
   */
  lemma ConsolidateKeepsUnit(db: Db, threshold: real, rsqrt: real -> real)
    requires Valid(db) && UnitCentroids(db) && IsRsqrt(rsqrt) && threshold <= 2.0
    ensures UnitCentroids(Consolidate(db, threshold, rsqrt))
  {
    if |db.order| >= 2 {
      var cs := Centroids(db);
      var ps := ScanPairs(cs, threshold, |db.order|);
      if |ps| > 0 {
        ChosenIsBest(cs, threshold);
        var best := ps[ArgMin(Dsts(ps))];
        MergeKeepsUnit(db, best.i, best.j, rsqrt);
      }
    }
  }

  lemma MergeKeepsUnit(db: Db, i: nat, j: nat, rsqrt: real -> real)
    requires Valid(db) && UnitCentroids(db) && IsRsqrt(rsqrt) && i < j < |db.order|
    requires Distance(db.vectors[db.order[i]], db.vectors[db.order[j]]) < 2.0
    ensures UnitCentroids(Merge(db, i, j, rsqrt))
  {
    MergeEffect(db, i, j, rsqrt);
    SumNormalizes(db.vectors[db.order[i]], db.vectors[db.order[j]], rsqrt);
  }
}
