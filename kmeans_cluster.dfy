/**
 * bost7517.oldprojects.BDSM_KMeansAsteroidCluster: a group of asteroids with
 * running coordinate and resource sums, a centroid recomputed on demand, and
 * an ordering by resources per unit of distance to the ship. The divisions
 * of doubles here can meet a zero divisor, so their results are taken in an
 * extended domain with infinities and NaN.
 */
module KMeansClusters {
  import opened Wrappers
  import opened JavaNum
  import opened GameObjects

  /** A double: finite, an infinity, or NaN (signed zeros are not distinguished). */
  datatype Double = Finite(v: real) | PosInf | NegInf | NaN

  /** num / den in double arithmetic: a non-zero number over zero is an infinity, zero over zero is NaN. */
  function Divide(num: real, den: Double): (r: Double)
    ensures den.Finite? && den.v != 0.0 ==> r == Finite(num / den.v)
    ensures r == NaN <==> den == NaN || (den == Finite(0.0) && num == 0.0)
    ensures r == PosInf <==> den == Finite(0.0) && num > 0.0
    ensures r == NegInf <==> den == Finite(0.0) && num < 0.0
  {
    match den
    case Finite(d) =>
      if d != 0.0 then Finite(num / d)
      else if num > 0.0 then PosInf
      else if num < 0.0 then NegInf
      else NaN
    case PosInf => Finite(0.0)
    case NegInf => Finite(0.0)
    case NaN => NaN
  }

  /** The place of a double in Double.compare's order: -infinity, the finite values, +infinity, NaN. */
  function Rank(a: Double): int
  {
    match a
    case NegInf => 0
    case Finite(_) => 1
    case PosInf => 2
    case NaN => 3
  }

  /** Double.compare: -1, 0 or 1, NaN above every other value and equal to itself. */
  function Compare(a: Double, b: Double): int
  {
    if Rank(a) != Rank(b) then (if Rank(a) < Rank(b) then -1 else 1)
    else if a.Finite? then DoubleCompare(a.v, b.v)
    else 0
  }

  /** Double.compare is a total order: equal only at equal values, antisymmetric and transitive. */
  lemma CompareIsTotalOrder(a: Double, b: Double, c: Double)
    ensures Compare(a, b) == 0 <==> a == b
    ensures Compare(a, b) == -Compare(b, a)
    ensures Compare(a, b) < 0 && Compare(b, c) < 0 ==> Compare(a, c) < 0
    ensures a.Finite? && b.Finite? ==> (Compare(a, b) < 0 <==> a.v < b.v)
  {
    if a.Finite? && b.Finite? {
      DoubleCompareSign(a.v, b.v);
    }
  }

  /** Where a cluster's centroid stands: not yet computed (null), a position, or NaN coordinates. */
  datatype Centroid = NoCentroid | At(pos: Position) | NaNCentroid

  /** BDSM_KMeansAsteroidCluster. */
  class KMeansAsteroidCluster {
    var sumX: real
    var sumY: real
    var totalResources: int
    var asteroidLookupMap: map<Uuid, GameObject>
    var centroid: Centroid
    const shipPosition: Position
    var distanceToShip: Double

    /** The sums are zero whenever the cluster is empty. */
    ghost predicate Valid()
      reads this
    {
      |asteroidLookupMap| == 0 ==> sumX == 0.0 && sumY == 0.0 && totalResources == 0
    }

    /** A cluster seeded with one asteroid: the seed alone, its coordinates and resources as the sums. */
    constructor (a: GameObject, ship: GameObject)
      ensures Valid()
      ensures asteroidLookupMap == map[a.id := a] && centroid == NoCentroid
      ensures sumX == a.position.x && sumY == a.position.y && totalResources == a.resources
      ensures shipPosition == ship.position && distanceToShip == Finite(0.0)
    {
      asteroidLookupMap := map[];
      sumX := 0.0;
      sumY := 0.0;
      totalResources := 0;
      centroid := NoCentroid;
      shipPosition := ship.position;
      distanceToShip := Finite(0.0);
      new;
      Add(a);
    }

    /** add: the asteroid is put under its id and its values are added to the sums, even when its id is already present. */
    method Add(a: GameObject)
      modifies this`asteroidLookupMap, this`sumX, this`sumY, this`totalResources
      ensures Valid()
      ensures asteroidLookupMap == old(asteroidLookupMap)[a.id := a]
      ensures sumX == old(sumX) + a.position.x && sumY == old(sumY) + a.position.y
      ensures totalResources == old(totalResources) + a.resources
    {
      asteroidLookupMap := asteroidLookupMap[a.id := a];
      sumX := sumX + a.position.x;
      sumY := sumY + a.position.y;
      totalResources := totalResources + a.resources;
    }

    /** clear: no members and zero sums; the centroid and distance are kept. */
    method Clear()
      modifies this`asteroidLookupMap, this`sumX, this`sumY, this`totalResources
      ensures Valid()
      ensures asteroidLookupMap == map[] && sumX == 0.0 && sumY == 0.0 && totalResources == 0
    {
      asteroidLookupMap := map[];
      sumX := 0.0;
      sumY := 0.0;
      totalResources := 0;
    }

    /**
     * resetCentroid: the mean of the summed coordinates over the member
     * count, and its distance to the ship. An empty cluster divides zero by
     * zero, which gives NaN coordinates and a NaN distance.
     */
    method ResetCentroid(dist: Distance)
      requires Valid()
      modifies this`centroid, this`distanceToShip
      ensures |asteroidLookupMap| > 0 ==>
        var n := |asteroidLookupMap| as real;
        centroid == At(Position(sumX / n, sumY / n)) && distanceToShip == Finite(dist(centroid.pos, shipPosition))
      ensures |asteroidLookupMap| == 0 ==> centroid == NaNCentroid && distanceToShip == NaN
    {
      var numAsts := |asteroidLookupMap| as real;
      if numAsts == 0.0 {
        centroid := NaNCentroid;
        distanceToShip := NaN;
      } else {
        var cent := Position(sumX / numAsts, sumY / numAsts);
        centroid := At(cent);
        distanceToShip := Finite(dist(cent, shipPosition));
      }
    }

    /** getCentroid. */
    function GetCentroid(): (c: Centroid)
      reads this
      ensures c == centroid
    {
      centroid
    }

    /** The cluster's resources per unit of distance, the key of compareTo. */
    function Ratio(): Double
      reads this
    {
      Divide(totalResources as real, distanceToShip)
    }

    /**
     * getBestAsteroid over the members in the map's iteration order: the
     * first member with the most resources, or null for an empty cluster
     * (resource totals are never negative, which the -1 sentinel relies on).
     */
    method GetBestAsteroid(order: seq<Uuid>) returns (r: Option<GameObject>)
      requires forall id :: id in order <==> id in asteroidLookupMap
      ensures r.None? <==> |order| == 0
      ensures r.Some? ==> r.value in asteroidLookupMap.Values
      ensures r.Some? && (forall k :: 0 <= k < |order| ==> asteroidLookupMap[order[k]].resources >= 0) ==>
        (forall k :: 0 <= k < |order| ==> asteroidLookupMap[order[k]].resources <= r.value.resources)
        && exists k :: 0 <= k < |order| && asteroidLookupMap[order[k]] == r.value
             && forall j :: 0 <= j < k ==> asteroidLookupMap[order[j]].resources < r.value.resources
    {
      var bestA: Option<GameObject> := None;
      var bestValue := -1;
      ghost var bestAt := 0;
      var i := 0;
      ghost var nonNeg := forall k :: 0 <= k < |order| ==> asteroidLookupMap[order[k]].resources >= 0;
      while i < |order|
        invariant 0 <= i <= |order|
        invariant bestA.None? <==> i == 0
        invariant bestA.Some? ==> bestA.value in asteroidLookupMap.Values && bestValue == bestA.value.resources
        invariant bestA.Some? ==> 0 <= bestAt < i && asteroidLookupMap[order[bestAt]] == bestA.value
        invariant nonNeg && bestA.Some? ==>
          (forall k :: 0 <= k < i ==> asteroidLookupMap[order[k]].resources <= bestValue)
          && forall j :: 0 <= j < bestAt ==> asteroidLookupMap[order[j]].resources < bestValue
        invariant nonNeg && i > 0 ==> bestValue >= 0
        invariant i == 0 ==> bestValue == -1
      {
        var a := asteroidLookupMap[order[i]];
        if bestValue == -1 || a.resources > bestValue {
          bestValue := a.resources;
          bestA := Some(a);
          bestAt := i;
        }
        i := i + 1;
      }
      r := bestA;
    }
  }

  /**
   * compareTo: the arguments are swapped in Double.compare, so a cluster
   * with more resources per unit of distance comes first.
   */
  function CompareTo(c: KMeansAsteroidCluster, o: KMeansAsteroidCluster): (r: int)
    reads c, o
    ensures r < 0 <==> Compare(c.Ratio(), o.Ratio()) > 0
    ensures r == 0 <==> c.Ratio() == o.Ratio()
  {
    CompareIsTotalOrder(o.Ratio(), c.Ratio(), c.Ratio());
    Compare(o.Ratio(), c.Ratio())
  }

  /** The ordering of clusters is antisymmetric, and a finite higher ratio sorts first. */
  lemma ClusterOrder(c: KMeansAsteroidCluster, o: KMeansAsteroidCluster)
    ensures CompareTo(c, o) == -CompareTo(o, c)
    ensures c.Ratio().Finite? && o.Ratio().Finite? ==> (CompareTo(c, o) < 0 <==> c.Ratio().v > o.Ratio().v)
  {
    CompareIsTotalOrder(o.Ratio(), c.Ratio(), c.Ratio());
  }

  /**
   * A cluster whose distance was never computed sorts by its resources
   * alone: with resources it is +infinity and comes before every cluster of
   * finite ratio, and with none it is NaN.
   */
  lemma UncomputedDistance(c: KMeansAsteroidCluster, o: KMeansAsteroidCluster)
    requires c.distanceToShip == Finite(0.0)
    ensures c.totalResources > 0 ==> c.Ratio() == PosInf
    ensures c.totalResources == 0 ==> c.Ratio() == NaN
    ensures c.totalResources > 0 && o.Ratio().Finite? ==> CompareTo(c, o) < 0
  {
  }
}
