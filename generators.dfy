/**
 * Random team generation (src/js/generators.js). `Math.random` is an oracle:
 * an endless stream of draws in [0, 1) read through a cursor that every draw
 * advances.
 */
module Generators {
  import opened CharacterModel

  /** Every draw of the stream lies in [0, 1), as Math.random promises. */
  ghost predicate UnitDraws(draws: nat -> real) {
    forall n :: 0.0 <= Draw(draws, n) < 1.0
  }

  /** Draw number t of the stream. */
  function Draw(draws: nat -> real, t: nat): real {
    draws(t)
  }

  /** The source of Math.random: the stream of draws and how many have been taken. */
  class Random {
    const draws: nat -> real
    var tick: nat

    constructor (draws: nat -> real)
      requires UnitDraws(draws)
      ensures this.draws == draws && tick == 0
    {
      this.draws := draws;
      tick := 0;
    }

    /** Math.random(): the next draw of the stream. */
    method Next() returns (x: real)
      requires UnitDraws(draws)
      modifies this
      ensures x == Draw(draws, old(tick)) && tick == old(tick) + 1
      ensures 0.0 <= x < 1.0
    {
      x := Draw(draws, tick);
      tick := tick + 1;
    }
  }

  /** Math.floor(x * n): an index into a list of n elements, or 0 when the list is empty. */
  function Scale(x: real, n: nat): (k: int)
    requires 0.0 <= x < 1.0
    ensures n > 0 ==> 0 <= k < n
    ensures n == 0 ==> k == 0
  {
    ScaleBelow(x, n);
    (x * n as real).Floor
  }

  /** Scale is the floor of x * n. */
  lemma ScaleFloor(x: real, n: nat)
    requires 0.0 <= x < 1.0
    ensures Scale(x, n) as real <= x * n as real < Scale(x, n) as real + 1.0
  {
  }

  lemma ScaleBelow(x: real, n: nat)
    requires 0.0 <= x < 1.0
    ensures 0.0 <= x * n as real
    ensures n > 0 ==> x * n as real < n as real
  {
    if n > 0 {
      assert x * n as real < 1.0 * n as real;
    }
  }

  /**
   * characterGenerator: an endless generator that, on each request, draws an
   * index into the allowed kinds, then a level from 1 to maxLevel, and yields a
   * new character of that kind and level.
   */
  class CharacterGenerator {
    const allowedTypes: seq<Kind>
    const maxLevel: nat
    const rng: Random
    const profile: Kind -> Profile

    constructor (allowedTypes: seq<Kind>, maxLevel: nat, rng: Random, profile: Kind -> Profile)
      ensures this.allowedTypes == allowedTypes && this.maxLevel == maxLevel
      ensures this.rng == rng && this.profile == profile
    {
      this.allowedTypes := allowedTypes;
      this.maxLevel := maxLevel;
      this.rng := rng;
      this.profile := profile;
    }

    /** character.next().value */
    method Next() returns (c: Character)
      requires |allowedTypes| > 0 && UnitDraws(rng.draws)
      modifies rng
      ensures rng.tick == old(rng.tick) + 2
      ensures fresh(c) && Yielded(c, allowedTypes, maxLevel, profile, rng.draws, old(rng.tick))
    {
      var x := rng.Next();
      var tipe := Scale(x, |allowedTypes|);
      var y := rng.Next();
      var level := Scale(y, maxLevel) + 1;
      c := new Character(level, allowedTypes[tipe], profile(allowedTypes[tipe]));
    }
  }

  /**
   * c is the character a generator yields when the stream is at t: its kind is
   * picked by draw t and its level by draw t + 1, and it is freshly built.
   */
  ghost predicate Yielded(c: Character, allowed: seq<Kind>, maxLevel: nat, profile: Kind -> Profile,
                          draws: nat -> real, t: nat)
    requires |allowed| > 0 && UnitDraws(draws)
    reads c
  {
    && c.kind == allowed[Scale(Draw(draws, t), |allowed|)]
    && c.level == Scale(Draw(draws, t + 1), maxLevel) + 1
    && c.health == 50.0 && c.tag == Tag(c.kind)
    && c.attack == profile(c.kind).attack && c.defence == profile(c.kind).defence
    && c.distance == profile(c.kind).distance && c.attackRange == profile(c.kind).attackRange
  }

  /** A yielded character has one of the allowed kinds and a level from 1 to maxLevel (1 when maxLevel is 0). */
  lemma YieldedBounds(c: Character, allowed: seq<Kind>, maxLevel: nat, profile: Kind -> Profile,
                      draws: nat -> real, t: nat)
    requires |allowed| > 0 && UnitDraws(draws)
    requires Yielded(c, allowed, maxLevel, profile, draws, t)
    ensures c.kind in allowed
    ensures 1 <= c.level <= if maxLevel == 0 then 1 else maxLevel
  {
  }

  /**
   * generateTeam: requests characters from one generator until the team holds
   * characterCount of them, and returns them in the order they were yielded.
   */
  method GenerateTeam(allowedTypes: seq<Kind>, maxLevel: nat, characterCount: int, rng: Random,
                      profile: Kind -> Profile) returns (team: seq<Character>)
    requires |allowedTypes| > 0 || characterCount <= 0
    requires UnitDraws(rng.draws)
    modifies rng
    ensures |team| == if characterCount > 0 then characterCount else 0
    ensures rng.tick == old(rng.tick) + 2 * |team|
    ensures forall i :: 0 <= i < |team| ==> fresh(team[i])
    ensures forall i, j :: 0 <= i < j < |team| ==> team[i] != team[j]
    ensures forall i :: 0 <= i < |team| ==>
              |allowedTypes| > 0 && Yielded(team[i], allowedTypes, maxLevel, profile, rng.draws, old(rng.tick) + 2 * i)
  {
    team := [];
    if characterCount <= 0 {
      return;
    }
    var character := new CharacterGenerator(allowedTypes, maxLevel, rng, profile);
    while |team| < characterCount
      invariant |team| <= characterCount
      invariant rng.tick == old(rng.tick) + 2 * |team|
      invariant forall i :: 0 <= i < |team| ==> fresh(team[i])
      invariant forall i, j :: 0 <= i < j < |team| ==> team[i] != team[j]
      invariant forall i :: 0 <= i < |team| ==>
                  Yielded(team[i], allowedTypes, maxLevel, profile, rng.draws, old(rng.tick) + 2 * i)
    {
      var c := character.Next();
      team := team + [c];
    }
  }
}
