/**
 * HumanDataBase (nnio/utils.py) as a class: the two dictionaries and
 * their shared insertion order are fields that find_closest and optimize
 * update in place.  Each method is proved to leave the state that the
 * corresponding function of IdentityStore computes from the old state.
 */
module HumanDatabase {
  import opened Wrappers
  import opened Vectors
  import opened Search
  import opened IdentityStore

  class HumanDataBase {
    /** The keys of `vectors` (and of `counts`) in dict insertion order. */
    var order: seq<Key>
    var vectors: map<Key, Vector>
    var counts: map<Key, nat>
    const newEntityThreshold: real
    const mergingThreshold: real
    /** Stands for x |-> 1 / sqrt(x) in normalize. */
    const rsqrt: real -> real

    function Model(): Db
      reads this
    {
      Db(order, vectors, counts)
    }

    ghost predicate Valid()
      reads this
    {
      IdentityStore.Valid(Model())
    }

    /** HumanDataBase(new_entity_threshold, merging_threshold) */
    constructor (newEntityThreshold: real, mergingThreshold: real, rsqrt: real -> real)
      ensures Valid() && Model() == Empty()
      ensures this.newEntityThreshold == newEntityThreshold
      ensures this.mergingThreshold == mergingThreshold
      ensures this.rsqrt == rsqrt
    {
      order := [];
      vectors := map[];
      counts := map[];
      this.newEntityThreshold := newEntityThreshold;
      this.mergingThreshold := mergingThreshold;
      this.rsqrt := rsqrt;
    }

    /** HumanDataBase() with the default thresholds 0.25 and 0.2. */
    constructor Default(rsqrt: real -> real)
      ensures Valid() && Model() == Empty()
      ensures newEntityThreshold == DefaultNewEntityThreshold
      ensures mergingThreshold == DefaultMergingThreshold
      ensures this.rsqrt == rsqrt
    {
      order := [];
      vectors := map[];
      counts := map[];
      newEntityThreshold := DefaultNewEntityThreshold;
      mergingThreshold := DefaultMergingThreshold;
      this.rsqrt := rsqrt;
    }

    /**
     * The list `distances` of find_closest, from the centroids in insertion
     * order; None where `@` raises because some centroid's length differs.
     */
    method DistancesTo(v: Vector) returns (d: Option<seq<real>>)
      requires Valid()
      ensures d.None? <==> !Fits(Model(), v)
      ensures d.Some? ==> Fits(Model(), v) && d.value == Distances(v, Centroids(Model()))
    {
      var distances: seq<real> := [];
      var k := 0;
      while k < |order|
        invariant 0 <= k <= |order|
        invariant |distances| == k
        invariant forall a :: 0 <= a < k ==>
          |vectors[order[a]]| == |v| && distances[a] == Distance(v, vectors[order[a]])
      {
        var c := vectors[order[k]];
        if |c| != |v| {
          return None;
        }
        distances := distances + [Distance(v, c)];
        k := k + 1;
      }
      assert Fits(Model(), v) by {
        forall key | key in vectors ensures |vectors[key]| == |v| {
          var a :| 0 <= a < |order| && order[a] == key;
        }
      }
      return Some(distances);
    }

    /** find_closest(vec): the key vec is assigned to; the state is left unchanged on failure. */
    method FindClosest(vec: Vector) returns (r: Result<Key, StoreError>)
      requires Valid()
      modifies this
      ensures Valid()
      ensures match Assign(old(Model()), vec, newEntityThreshold, rsqrt)
        case Failure(e) => r == Failure(e) && Model() == old(Model())
        case Success(a) => r == Success(a.key) && Model() == a.db
    {
      ghost var db := Model();
      var keys := order;
      var v := Normalize(vec, rsqrt);
      var d := DistancesTo(v);
      if d.None? {
        return Failure(DimensionMismatch);
      }
      var distances := d.value;
      if |distances| == 0 || distances[ArgMin(distances)] > newEntityThreshold {
        AssignCreateBranch(db, vec, newEntityThreshold, rsqrt, distances);
        var newKey := AddEntry(v);
        r := Success(newKey);
      } else {
        AssignUpdateBranch(db, vec, newEntityThreshold, rsqrt, distances);
        var key := keys[ArgMin(distances)];
        MoveEntry(key, v);
        r := Success(key);
      }
    }

    /** The create branch of find_closest: store v under str(len(self.vectors)) with count 1. */
    method AddEntry(v: Vector) returns (newKey: Key)
      requires Valid() && Fits(Model(), v)
      modifies this
      ensures Valid()
      ensures Model() == Create(old(Model()), v).db && newKey == Create(old(Model()), v).key
    {
      ghost var db := Model();
      CreateValid(db, v);
      newKey := |vectors|;
      if newKey !in vectors {
        order := order + [newKey];
      }
      vectors := vectors[newKey := v];
      counts := counts[newKey := 1];
      assert Model() == Create(db, v).db;
    }

    /** The update branch of find_closest: fold v into the running mean of `key`. */
    method MoveEntry(key: Key, v: Vector)
      requires Valid() && Fits(Model(), v) && key in vectors
      modifies this
      ensures Valid()
      ensures Model() == Update(old(Model()), key, v, rsqrt).db
    {
      ghost var db := Model();
      UpdateValid(db, key, v, rsqrt);
      var sum := Add(Scale(vectors[key], counts[key] as real), v);
      vectors := vectors[key := Normalize(sum, rsqrt)];
      counts := counts[key := counts[key] + 1];
      assert Model() == Update(db, key, v, rsqrt).db;
    }

    /** The `distances` list of optimize: the pairs i < j strictly below merging_threshold, in scan order. */
    method CloseCandidates() returns (distances: seq<Pair>)
      requires Valid()
      ensures distances == ScanPairs(Centroids(Model()), mergingThreshold, |order|)
    {
      ghost var cs := Centroids(Model());
      distances := [];
      if |order| == 0 {
        return;
      }
      var i := 0;
      while i < |order| - 1
        invariant 0 <= i <= |order| - 1
        invariant distances == ScanPairs(cs, mergingThreshold, i)
      {
        var row := CloseInRow(i);
        distances := distances + row;
        i := i + 1;
      }
      assert RowPairs(cs, mergingThreshold, i, |order|) == [];
    }

    /** One pass of the inner loop of optimize: the pairs (i, j), j > i, strictly below merging_threshold. */
    method CloseInRow(i: nat) returns (row: seq<Pair>)
      requires Valid() && i < |order|
      ensures row == RowPairs(Centroids(Model()), mergingThreshold, i, |order|)
    {
      ghost var db := Model();
      row := [];
      var j := i + 1;
      var vi := vectors[order[i]];
      while j < |order|
        invariant i + 1 <= j <= |order|
        invariant row == RowPairs(Centroids(db), mergingThreshold, i, j)
      {
        var vj := vectors[order[j]];
        var dst := Distance(vi, vj);
        RowPairsNext(db, mergingThreshold, i, j, row);
        if dst < mergingThreshold {
          row := row + [Pair(i, j, dst)];
        }
        j := j + 1;
      }
      assert Model() == db;
    }

    /** optimize(): merge the closest pair strictly below merging_threshold, if any. */
    method Optimize()
      requires Valid()
      modifies this
      ensures Valid()
      ensures Model() == Consolidate(old(Model()), mergingThreshold, rsqrt)
    {
      if |order| < 2 {
        return;
      }
      var distances := CloseCandidates();
      if |distances| > 0 {
        var best := distances[ArgMin(Dsts(distances))];
        MergeEntries(best.i, best.j);
      }
    }

    /** The merge step of optimize: keys[j] is folded into keys[i] and deleted. */
    method MergeEntries(i: nat, j: nat)
      requires Valid() && i < j < |order|
      modifies this
      ensures Valid()
      ensures Model() == Merge(old(Model()), i, j, rsqrt)
    {
      ghost var db := Model();
      MergeValid(db, i, j, rsqrt);
      var keys := order;
      var sum := Add(vectors[keys[i]], vectors[keys[j]]);
      vectors := vectors[keys[i] := Normalize(sum, rsqrt)];
      counts := counts[keys[i] := 1];
      vectors := vectors - {keys[j]};
      counts := counts - {keys[j]};
      order := order[..j] + order[j + 1..];
      assert Model() == Merge(db, i, j, rsqrt);
    }
  }
}
