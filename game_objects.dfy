/**
 * The simulator's objects as the agents see them: records of identity, kind,
 * team, liveness and holdings. Positions are kept only so that a caller-supplied
 * distance can be applied to them; the toroidal geometry itself is not modelled.
 */
module GameObjects {
  import opened JavaNum

  /** The run-time class of an object, as tested with instanceof. */
  datatype Kind = ShipKind | DroneKind | BaseKind | AsteroidKind | BeaconKind | AiCoreKind | MissileKind | FlagKind | OtherKind

  /** An object's UUID: opaque, only compared for equality and used as a map key. */
  datatype Uuid = Uuid(bits: int)

  /**
   * An AbstractObject. resources is ResourcePile.getTotal(); cores and flags
   * are the counts a ship carries; className is getClass().getName(); radius
   * is getRadius().
   */
  datatype GameObject = GameObject(
    id: Uuid,
    kind: Kind,
    className: string,
    team: string,
    alive: bool,
    mineable: bool,
    moveable: bool,
    resources: int,
    energy: real,
    cores: int,
    flags: int,
    carryingFlag: bool,
    position: Position,
    radius: int)

  /** A distance between positions, supplied by the physics engine (findShortestDistance). */
  type Distance = (Position, Position) -> real

  /** Character.toLowerCase for ASCII letters; other characters are left alone. */
  function LowerAscii(ch: char): (r: char)
    ensures 'A' <= ch <= 'Z' ==> r as int == ch as int + 32
    ensures !('A' <= ch <= 'Z') ==> r == ch
  {
    if 'A' <= ch <= 'Z' then (ch as int + 32) as char else ch
  }

  /** String.equalsIgnoreCase, restricted to ASCII case folding. */
  predicate EqualsIgnoreCase(a: string, b: string)
  {
    |a| == |b| && forall i :: 0 <= i < |a| ==> LowerAscii(a[i]) == LowerAscii(b[i])
  }

  /** equalsIgnoreCase is an equivalence that contains equals. */
  lemma EqualsIgnoreCaseIsEquivalence(a: string, b: string, c: string)
    ensures a == b ==> EqualsIgnoreCase(a, b)
    ensures EqualsIgnoreCase(a, b) ==> EqualsIgnoreCase(b, a)
    ensures EqualsIgnoreCase(a, b) && EqualsIgnoreCase(b, c) ==> EqualsIgnoreCase(a, c)
  {
  }

  /** Case matters to equals but not to equalsIgnoreCase. */
  lemma EqualsIgnoreCaseIsWeaker()
    ensures EqualsIgnoreCase("Team", "TEAM") && "Team" != "TEAM"
  {
    assert LowerAscii('e') == LowerAscii('E');
    assert LowerAscii('a') == LowerAscii('A');
    assert LowerAscii('m') == LowerAscii('M');
    assert "Team"[1] != "TEAM"[1];
  }
}
