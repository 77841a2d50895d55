/**
 * Characters (src/js/Character.js): the six playable kinds, the construction
 * guard that refuses the abstract base class, and levelling up.
 */
module CharacterModel {
  import opened Wrappers

  /** The six concrete subclasses; the first three are the user's side, the last three the bot's. */
  datatype Kind = Bowman | Swordsman | Magician | Daemon | Undead | Vampire {
    predicate IsUser() { this == Bowman || this == Swordsman || this == Magician }
    predicate IsBot() { this == Daemon || this == Undead || this == Vampire }
  }

  /** The type tag each subclass hands to the base constructor. */
  function Tag(k: Kind): string {
    match k
    case Bowman => "bowman"
    case Swordsman => "swordsman"
    case Magician => "magician"
    case Daemon => "daemon"
    case Undead => "undead"
    case Vampire => "vampire"
  }

  /** Different kinds carry different tags, so a saved tag names its kind. */
  lemma TagNamesKind(a: Kind, b: Kind)
    ensures Tag(a) == Tag(b) <==> a == b
  {
  }

  lemma SidesPartition(k: Kind)
    ensures k.IsUser() != k.IsBot()
  {
  }

  /**
   * What a subclass sets after calling the base constructor: its attack and
   * defence, and the radii it moves and attacks within. The subclasses are
   * not part of this model, so the values are a parameter.
   */
  datatype Profile = Profile(attack: real, defence: real, distance: nat, attackRange: nat)

  /** The class a `new` expression names: the abstract base class or one of the subclasses. */
  datatype ClassRef = BaseClass | Subclass(kind: Kind)

  const ForbiddenMessage: string := "It is forbidden to create objects of the Character class"

  /** The four figures levelling changes. */
  datatype Stats = Stats(level: int, attack: real, defence: real, health: real)

  /** Math.max on two numbers. */
  function Max(a: real, b: real): (m: real)
    ensures m >= a && m >= b && (m == a || m == b)
  {
    if a >= b then a else b
  }

  /**
   * levelUp: attack and defence grow by the factor (80 + health) / 100 but never
   * shrink, health gains 80 capped at 100, and the level goes up by one; all
   * three figures are computed from the stats before the call.
   */
  function LevelledUp(s: Stats): (t: Stats)
    ensures t.level == s.level + 1
    ensures t.attack >= s.attack && t.attack >= s.attack * (80.0 + s.health) / 100.0
    ensures t.attack == s.attack || t.attack == s.attack * (80.0 + s.health) / 100.0
    ensures t.defence >= s.defence && t.defence >= s.defence * (80.0 + s.health) / 100.0
    ensures t.defence == s.defence || t.defence == s.defence * (80.0 + s.health) / 100.0
    ensures t.health <= 100.0 && t.health <= s.health + 80.0
    ensures t.health == 100.0 || t.health == s.health + 80.0
  {
    Stats(
      s.level + 1,
      Max(s.attack, (s.attack * (80.0 + s.health)) / 100.0),
      Max(s.defence, (s.defence * (80.0 + s.health)) / 100.0),
      if s.health + 80.0 > 100.0 then 100.0 else s.health + 80.0)
  }

  /** A character with at least 20 health comes out of levelling at full health 100. */
  lemma LevelUpHeals(s: Stats)
    requires s.health >= 20.0
    ensures LevelledUp(s).health == 100.0
  {
  }

  /**
   * With at least 20 health and a non-negative attack the growth factor is at
   * least one, so the new attack is exactly the grown one.
   */
  lemma LevelUpGrowth(s: Stats)
    requires s.health >= 20.0 && s.attack >= 0.0 && s.defence >= 0.0
    ensures LevelledUp(s).attack == s.attack * (80.0 + s.health) / 100.0
    ensures LevelledUp(s).defence == s.defence * (80.0 + s.health) / 100.0
  {
    var f := (80.0 + s.health) / 100.0;
    assert f >= 1.0;
    assert s.attack * (80.0 + s.health) / 100.0 == s.attack * f;
    assert s.defence * (80.0 + s.health) / 100.0 == s.defence * f;
  }

  /** Levelling up a living character keeps it alive, at more than 80 health. */
  lemma LevelUpKeepsAlive(s: Stats)
    requires s.health > 0.0
    ensures 80.0 < LevelledUp(s).health <= 100.0
  {
  }

  /** A character object: its four figures change in place, its kind, tag and radii never do. */
  class Character {
    var level: int
    var attack: real
    var defence: real
    var health: real
    const kind: Kind
    const tag: string
    const distance: nat
    const attackRange: nat

    function Figures(): Stats
      reads this
    {
      Stats(level, attack, defence, health)
    }

    /**
     * `new Subclass(level)`: the base constructor sets the level, zero attack
     * and defence, 50 health and the tag; the subclass then sets its own
     * attack, defence and radii.
     */
    constructor (level: int, kind: Kind, p: Profile)
      ensures this.level == level && health == 50.0
      ensures attack == p.attack && defence == p.defence
      ensures this.kind == kind && tag == Tag(kind)
      ensures distance == p.distance && attackRange == p.attackRange
    {
      this.level := level;
      this.attack := 0.0;
      this.defence := 0.0;
      this.health := 50.0;
      this.tag := Tag(kind);
      this.kind := kind;
      this.distance := p.distance;
      this.attackRange := p.attackRange;
      new;
      this.attack := p.attack;
      this.defence := p.defence;
    }

    /** levelUp: the new figures are computed first, then assigned. */
    method LevelUp()
      modifies this
      ensures Figures() == LevelledUp(old(Figures()))
    {
      var attackAfter := Max(attack, (attack * (80.0 + health)) / 100.0);
      var defenceAfter := Max(defence, (defence * (80.0 + health)) / 100.0);
      var healthAfter := if health + 80.0 > 100.0 then 100.0 else health + 80.0;
      attack := attackAfter;
      defence := defenceAfter;
      health := healthAfter;
      level := level + 1;
    }
  }

  /**
   * `new C(level)` for a class C: the abstract base class throws, every
   * subclass yields a fresh character.
   */
  method Create(c: ClassRef, level: int, profile: Kind -> Profile) returns (r: Result<Character, string>)
    ensures r.Failure? <==> c == BaseClass
    ensures r.Failure? ==> r.error == ForbiddenMessage
    ensures r.Success? ==> fresh(r.value) && r.value.kind == c.kind && r.value.tag == Tag(c.kind)
    ensures r.Success? ==> r.value.level == level && r.value.health == 50.0
  {
    match c
    case BaseClass =>
      r := Failure(ForbiddenMessage);
    case Subclass(k) =>
      var ch := new Character(level, k, profile(k));
      r := Success(ch);
  }
}
