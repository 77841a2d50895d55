/**
 * The expression-level rules the game controller (src/js/GameController.js)
 * relies on: combat damage, the `find`/`filter`/`reduce`/`indexOf`/`splice`
 * computations over the list of placed characters, the start-cell pools, the
 * random placement of a team, roster sizes per level and the occupancy grid
 * handed to the path finder.
 */
module GameRules {
  import opened Wrappers
  import opened BoardGeometry
  import opened CharacterModel
  import opened Generators

  /** A PositionedCharacter: a character and the index of the cell it stands on. */
  datatype Positioned = Positioned(character: Character, position: int)

  // ---------------------------------------------------------------------------
  // Combat

  /** damage = Math.max(attack − defence, attack · 0.1), for player and AI attacks alike. */
  function Damage(attack: real, defence: real): (d: real)
    ensures d >= attack - defence && d >= attack * 0.1
    ensures d == attack - defence || d == attack * 0.1
  {
    Max(attack - defence, attack * 0.1)
  }

  /** An attacker with positive attack always does positive damage, however strong the defence. */
  lemma DamagePositive(attack: real, defence: real)
    requires attack > 0.0
    ensures Damage(attack, defence) > 0.0
  {
  }

  /** Against a weak defence (at most 90% of the attack) the damage is the difference. */
  lemma DamageOnWeakDefence(attack: real, defence: real)
    requires defence <= attack * 0.9
    ensures Damage(attack, defence) == attack - defence
  {
  }

  /** Against a strong defence (at least 90% of the attack) the damage is a tenth of the attack. */
  lemma DamageOnStrongDefence(attack: real, defence: real)
    requires defence >= attack * 0.9
    ensures Damage(attack, defence) == attack * 0.1
  {
  }

  // ---------------------------------------------------------------------------
  // Array.prototype.find, filter, reduce, indexOf and splice

  /** allPositions.find(e => e.position === idx), as the index of the entry found. */
  function FindAt(ps: seq<Positioned>, idx: int): (k: Option<nat>)
    ensures k.Some? ==> k.value < |ps| && ps[k.value].position == idx
    ensures k.Some? ==> forall j :: 0 <= j < k.value ==> ps[j].position != idx
    ensures k.None? ==> forall j :: 0 <= j < |ps| ==> ps[j].position != idx
  {
    if |ps| == 0 then None
    else if ps[0].position == idx then Some(0)
    else match FindAt(ps[1..], idx)
      case None => None
      case Some(j) => Some(j + 1)
  }

  /** Some entry stands on cell z. */
  ghost predicate Occupied(ps: seq<Positioned>, z: int) {
    exists k :: 0 <= k < |ps| && ps[k].position == z
  }

  /** Entry k is the first entry standing on cell z, the one find returns. */
  ghost predicate FirstOn(ps: seq<Positioned>, k: int, z: int) {
    0 <= k < |ps| && ps[k].position == z && forall j :: 0 <= j < k ==> ps[j].position != z
  }

  /** Character c stands on cell z. */
  ghost predicate StandsOn(ps: seq<Positioned>, c: Character, z: int) {
    exists k :: 0 <= k < |ps| && ps[k].character == c && ps[k].position == z
  }

  /**
   * allPositions.filter(e => e.character instanceof one of the side's classes):
   * the entries of one side, in list order, given by their indices.
   */
  function SideIndices(ps: seq<Positioned>, user: bool): (ks: seq<nat>)
    ensures forall i :: 0 <= i < |ks| ==> ks[i] < |ps| && ps[ks[i]].character.kind.IsUser() == user
    ensures forall k :: 0 <= k < |ps| && ps[k].character.kind.IsUser() == user ==> k in ks
  {
    if |ps| == 0 then []
    else
      var front := SideIndices(ps[..|ps| - 1], user);
      if ps[|ps| - 1].character.kind.IsUser() == user then front + [|ps| - 1] else front
  }

  /** Strictly increasing: every index at most once, in list order. */
  ghost predicate Ascending(ks: seq<nat>) {
    forall i, j :: 0 <= i < j < |ks| ==> ks[i] < ks[j]
  }

  /** A side's indices come in the order of allPositions, each once. */
  lemma {:induction false} SideIndicesAscending(ps: seq<Positioned>, user: bool)
    ensures Ascending(SideIndices(ps, user))
  {
    if |ps| > 0 {
      var init := ps[..|ps| - 1];
      var front, ks := SideIndices(init, user), SideIndices(ps, user);
      SideIndicesAscending(init, user);
      assert Ascending(front);
      if ps[|ps| - 1].character.kind.IsUser() == user {
        assert ks == front + [|ps| - 1];
        forall i, j | 0 <= i < j < |ks|
          ensures ks[i] < ks[j]
        {
          if j < |front| {
            assert ks[i] == front[i] && ks[j] == front[j];
          } else {
            assert front[i] < |init|;
          }
        }
      } else {
        assert ks == front;
      }
    }
  }

  /**
   * waysToTargets.reduce((acc, loc) => acc.length < loc.length ? acc : loc):
   * the index of a shortest way; among several shortest ways, the last one.
   */
  function ClosestIndex<T>(ways: seq<seq<T>>): (k: nat)
    requires |ways| > 0
    ensures k < |ways|
    ensures forall j :: 0 <= j < |ways| ==> |ways[k]| <= |ways[j]|
    ensures forall j :: k < j < |ways| ==> |ways[k]| < |ways[j]|
  {
    if |ways| == 1 then 0
    else
      var acc := ClosestIndex(ways[..|ways| - 1]);
      if |ways[acc]| < |ways[|ways| - 1]| then acc else |ways| - 1
  }

  /** team.toArray().reduce((a, b) => a + b.health, 0): the team's total health. */
  function TeamHealth(team: seq<Character>): (total: real)
    reads team
    ensures (forall i :: 0 <= i < |team| ==> team[i].health >= 0.0) ==> total >= 0.0
    ensures (forall i :: 0 <= i < |team| ==> team[i].health > 0.0) && |team| > 0 ==> total > 0.0
  {
    if |team| == 0 then 0.0 else TeamHealth(team[..|team| - 1]) + team[|team| - 1].health
  }

  /** The scan behind indexOf: the first index from k on holding x, or -1. */
  function IndexFrom(s: seq<int>, x: int, k: nat): (r: int)
    ensures r == -1 || k <= r < |s|
    ensures r >= 0 ==> s[r] == x && forall j :: k <= j < r ==> s[j] != x
    ensures r == -1 ==> forall j :: k <= j < |s| ==> s[j] != x
    decreases |s| - k
  {
    if k >= |s| then -1
    else if s[k] == x then k
    else IndexFrom(s, x, k + 1)
  }

  /** Array.prototype.indexOf: the first index holding x, or -1. */
  function IndexOf(s: seq<int>, x: int): (k: int)
    ensures -1 <= k < |s|
    ensures k >= 0 ==> s[k] == x && forall j :: 0 <= j < k ==> s[j] != x
    ensures k == -1 <==> x !in s
  {
    IndexFrom(s, x, 0)
  }

  /**
   * Array.prototype.splice(k, 1): the element at the start index is taken out
   * and the later ones move down by one. A negative k counts from the end
   * (start |s| + k, and 0 when that is still negative); a start past the end
   * takes out nothing.
   */
  function SpliceOne<T>(s: seq<T>, k: int): (t: seq<T>)
    ensures |t| == if SpliceStart(|s|, k) < |s| then |s| - 1 else |s|
    ensures 0 <= k < |s| ==> forall j {:trigger t[j]} :: 0 <= j < |t| ==> t[j] == s[if j < k then j else j + 1]
    ensures k < 0 && |s| > 0 ==>
              forall j {:trigger t[j]} :: 0 <= j < |t| ==> t[j] == s[if j < SpliceStart(|s|, k) then j else j + 1]
    ensures k >= |s| ==> t == s
    decreases |s|, if k < 0 then 1 else 0
  {
    if k < 0 then (if |s| == 0 then s else SpliceOne(s, SpliceStart(|s|, k)))
    else if k < |s| - 1 then SpliceOne(s[..|s| - 1], k) + [s[|s| - 1]]
    else if k == |s| - 1 then s[..|s| - 1]
    else s
  }

  /** The index splice starts at for a start argument k on a list of n elements. */
  function SpliceStart(n: nat, k: int): nat {
    if k >= 0 then k else if n + k >= 0 then n + k else 0
  }

  /** splice(-1, 1) takes out the last element, and a start below -|s| the first. */
  lemma SpliceNegative<T>(s: seq<T>, k: int)
    requires |s| > 0 && k < 0
    ensures k == -1 ==> SpliceOne(s, k) == s[..|s| - 1]
    ensures k < -|s| ==> SpliceOne(s, k) == s[1..]
  {
  }

  /** Team.delete(c): the team without c. */
  function Without(team: seq<Character>, c: Character): (t: seq<Character>)
    ensures forall i :: 0 <= i < |t| ==> t[i] in team && t[i] != c
    ensures forall i :: 0 <= i < |team| && team[i] != c ==> team[i] in t
    ensures |t| <= |team|
    ensures Distinct(team) ==> Distinct(t)
  {
    if |team| == 0 then []
    else
      var rest := Without(team[1..], c);
      DistinctTail(team);
      if team[0] == c then rest
      else
        DistinctCons(team[0], rest);
        [team[0]] + rest
  }

  /** No element occurs twice. */
  predicate Distinct<T(==)>(s: seq<T>) {
    forall i, j {:trigger Differ(s, i, j)} :: 0 <= i < j < |s| ==> Differ(s, i, j)
  }

  /** The elements at i and j differ. */
  predicate Differ<T(==)>(s: seq<T>, i: int, j: int)
    requires 0 <= i < |s| && 0 <= j < |s|
  {
    s[i] != s[j]
  }

  /** Two positions of a distinct sequence hold different elements. */
  lemma DistinctAt<T>(s: seq<T>, i: int, j: int)
    requires Distinct(s) && 0 <= i < |s| && 0 <= j < |s| && i != j
    ensures s[i] != s[j]
  {
    if i < j {
      assert Differ(s, i, j);
    } else {
      assert Differ(s, j, i);
    }
  }

  /** The tail of a distinct sequence is distinct and does not hold its head. */
  lemma DistinctTail<T>(s: seq<T>)
    ensures |s| > 0 && Distinct(s) ==> Distinct(s[1..]) && s[0] !in s[1..]
  {
    if |s| > 0 && Distinct(s) {
      forall i, j | 0 <= i < j < |s| - 1
        ensures Differ(s[1..], i, j)
      {
        assert Differ(s, i + 1, j + 1);
      }
      forall i | 0 <= i < |s| - 1
        ensures s[1..][i] != s[0]
      {
        assert Differ(s, 0, i + 1);
      }
    }
  }

  /** Putting a new element in front of a distinct sequence keeps it distinct. */
  lemma DistinctCons<T>(x: T, s: seq<T>)
    ensures Distinct(s) && x !in s ==> Distinct([x] + s)
  {
    if Distinct(s) && x !in s {
      var t := [x] + s;
      forall i, j | 0 <= i < j < |t|
        ensures Differ(t, i, j)
      {
        assert t[j] == s[j - 1];
        if i > 0 {
          assert Differ(s, i - 1, j - 1);
        }
      }
    }
  }

  /** Joining two distinct sequences with no element in common gives a distinct sequence. */
  lemma DistinctJoin<T>(a: seq<T>, b: seq<T>)
    requires Distinct(a) && forall i, j :: 0 <= i < j < |b| ==> b[i] != b[j]
    requires forall i, j :: 0 <= i < |a| && 0 <= j < |b| ==> a[i] != b[j]
    ensures Distinct(a + b)
  {
    var t := a + b;
    forall i, j | 0 <= i < j < |t|
      ensures Differ(t, i, j)
    {
      if j < |a| {
        assert Differ(a, i, j);
      } else if i >= |a| {
        assert t[i] == b[i - |a|] && t[j] == b[j - |a|];
      } else {
        assert t[i] == a[i] && t[j] == b[j - |a|];
      }
    }
  }

  /** Deleting a member of a team of distinct characters shortens it by one. */
  lemma {:induction false} WithoutMember(team: seq<Character>, c: Character)
    requires Distinct(team) && c in team
    ensures |Without(team, c)| == |team| - 1
  {
    DistinctTail(team);
    if team[0] == c {
      WithoutAbsent(team[1..], c);
    } else {
      assert c in team[1..];
      WithoutMember(team[1..], c);
    }
  }

  lemma {:induction false} WithoutAbsent(team: seq<Character>, c: Character)
    requires c !in team
    ensures Without(team, c) == team
  {
    if |team| > 0 {
      assert c !in team[1..];
      WithoutAbsent(team[1..], c);
      assert [team[0]] + team[1..] == team;
    }
  }

  // ---------------------------------------------------------------------------
  // Rosters per level

  /** Largest team a level can field: 2 at the start, then 3, 5 and 7 as recruits join. */
  function Capacity(level: int): nat {
    if level <= 1 then 2 else if level == 2 then 3 else if level == 3 then 5 else 7
  }

  /** How many user characters getLevelUp recruits on reaching a level (1 at level 2, 2 at levels 3 and 4). */
  function Recruits(level: int): nat {
    if level == 2 then 1 else if level == 3 || level == 4 then 2 else 0
  }

  /** Recruits fill exactly the growth of the capacity, and the capacity never exceeds a start pool. */
  lemma CapacityGrowth(level: int)
    requires 2 <= level <= 4
    ensures Capacity(level) == Capacity(level - 1) + Recruits(level)
    ensures Capacity(level) <= 2 * 8
  {
  }

  // ---------------------------------------------------------------------------
  // Start cells and placement

  /**
   * The start pool the builders fill, one row at a time: for each of the first
   * rows rows k, the pair first + k·size, first + k·size + 1.
   */
  function StartPool(first: int, size: nat, rows: nat): (pool: seq<int>)
    ensures |pool| == 2 * rows
    ensures forall k {:trigger pool[k]} :: 0 <= k < |pool| ==> pool[k] == first + k / 2 * size + k % 2
  {
    if rows == 0 then []
    else
      var row := first + (rows - 1) * size;
      StartPool(first, size, rows - 1) + [row, row + 1]
  }

  /**
   * On the 8×8 board the pool that starts at column first holds exactly the
   * cells of columns first and first + 1, each once: columns 0 and 1 for the
   * users, 6 and 7 for the bots.
   */
  lemma PoolColumns(first: int)
    requires 0 <= first <= 6
    ensures forall z :: z in StartPool(first, 8, 8) <==> IsCell(z) && first <= Col(z) <= first + 1
    ensures Distinct(StartPool(first, 8, 8))
  {
    var pool := StartPool(first, 8, 8);
    forall k | 0 <= k < 16
      ensures IsCell(pool[k]) && first <= Col(pool[k]) <= first + 1
    {
      PoolEntry(first, k);
    }
    forall z | IsCell(z) && first <= Col(z) <= first + 1
      ensures z in pool
    {
      var k := 2 * Row(z) + (Col(z) - first);
      PoolEntry(first, k);
    }
    forall i, j | 0 <= i < j < 16
      ensures Differ(pool, i, j)
    {
      PoolEntry(first, i);
      PoolEntry(first, j);
    }
  }

  /** Entry k of a start pool stands on row k div 2 and column first + k mod 2. */
  lemma PoolEntry(first: int, k: int)
    requires 0 <= first <= 6 && 0 <= k < 16
    ensures var z := StartPool(first, 8, 8)[k];
            IsCell(z) && Row(z) == k / 2 && Col(z) == first + k % 2
    ensures forall z :: IsCell(z) && Row(z) == k / 2 && Col(z) == first + k % 2 ==> StartPool(first, 8, 8)[k] == z
  {
    var a, b := k / 2, first + k % 2;
    assert StartPool(first, 8, 8)[k] == 8 * a + b;
    CellSplit(a, b);
  }

  /** 8 · a + b, for a column b of the board, has row a and column b. */
  lemma CellSplit(a: int, b: int)
    requires 0 <= a < 8 && 0 <= b < 8
    ensures IsCell(8 * a + b) && Row(8 * a + b) == a && Col(8 * a + b) == b
    ensures forall z :: IsCell(z) && Row(z) == a && Col(z) == b ==> z == 8 * a + b
  {
  }

  /** A deal's next round hands out the cell drawn from what is left, and splices its first occurrence out. */
  lemma DealRound(pool: seq<int>, draws: nat -> real, t: nat, i: nat, h: Hand, now: nat, cell: int)
    requires UnitDraws(draws) && i < |pool| && now == t + i && Deal(pool, draws, t, i) == h
    requires cell == h.left[Scale(Draw(draws, now), |h.left|)]
    ensures Deal(pool, draws, t, i + 1) == Hand(h.cells + [cell], SpliceOne(h.left, IndexOf(h.left, cell)))
  {
    assert Draw(draws, t + (i + 1) - 1) == Draw(draws, now);
    DealNext(pool, draws, t, i + 1);
  }

  /** Splicing out the element at k takes exactly one copy of it out. */
  lemma {:induction false} SpliceMultiset(s: seq<int>, k: int)
    requires 0 <= k < |s|
    ensures multiset(SpliceOne(s, k)) == multiset(s) - multiset{s[k]}
  {
    var init, last := s[..|s| - 1], s[|s| - 1];
    assert s == init + [last];
    if k < |s| - 1 {
      SpliceMultiset(init, k);
      assert init[k] == s[k] && s[k] in multiset(init);
    }
  }

  /** A sequence is distinct exactly when no element occurs in it twice. */
  lemma {:induction false} DistinctCounts(s: seq<int>)
    ensures Distinct(s) <==> forall z :: multiset(s)[z] <= 1
  {
    if |s| > 0 {
      var r := s[1..];
      assert s == [s[0]] + r;
      DistinctCounts(r);
      assert forall z :: multiset(s)[z] == multiset(r)[z] + (if z == s[0] then 1 else 0);
      assert Distinct(s) <==> s[0] !in r && Distinct(r) by {
        DistinctTail(s);
        DistinctCons(s[0], r);
      }
    }
  }

  /** A deal in progress: the cells handed out so far and what is left of the pool. */
  datatype Hand = Hand(cells: seq<int>, left: seq<int>)

  /**
   * addCharsToBoard after n members, the stream of draws having been at t when
   * it started: each member in turn gets left[floor(draw · |left|)], and the
   * first occurrence of that cell is spliced out of what is left.
   */
  function Deal(pool: seq<int>, draws: nat -> real, t: nat, n: nat): (h: Hand)
    requires UnitDraws(draws) && n <= |pool|
    ensures |h.cells| == n && |h.left| == |pool| - n
    decreases n
  {
    if n == 0 then Hand([], pool) else Step(Deal(pool, draws, t, n - 1), Draw(draws, t + n - 1))
  }

  /** One round of a deal with draw x: the cell left[floor(x · |left|)] is handed out and spliced out of what is left. */
  function Step(h: Hand, x: real): (h': Hand)
    requires |h.left| > 0 && 0.0 <= x < 1.0
    ensures |h'.cells| == |h.cells| + 1 && |h'.left| == |h.left| - 1
  {
    var cell := h.left[Scale(x, |h.left|)];
    Hand(h.cells + [cell], SpliceOne(h.left, IndexOf(h.left, cell)))
  }

  /** Round n of a deal, the one that follows the first n - 1 rounds, uses draw number t + n - 1. */
  lemma DealNext(pool: seq<int>, draws: nat -> real, t: nat, n: nat)
    requires UnitDraws(draws) && 0 < n <= |pool|
    ensures Deal(pool, draws, t, n) == Step(Deal(pool, draws, t, n - 1), Draw(draws, t + n - 1))
  {
  }

  /** A round of a deal moves one cell from what is left to the cells handed out. */
  lemma StepSplits(h: Hand, x: real)
    requires |h.left| > 0 && 0.0 <= x < 1.0
    ensures multiset(Step(h, x).cells) + multiset(Step(h, x).left) == multiset(h.cells) + multiset(h.left)
  {
    var cell := h.left[Scale(x, |h.left|)];
    var k := IndexOf(h.left, cell);
    SpliceMultiset(h.left, k);
    calc {
      multiset(h.cells + [cell]) + multiset(SpliceOne(h.left, k));
      multiset(h.cells) + multiset{cell} + (multiset(h.left) - multiset{cell});
      { assert cell in multiset(h.left); }
      multiset(h.cells) + multiset(h.left);
    }
  }

  /** A deal splits the pool: the cells handed out and the cells left are the pool's cells, each as often. */
  lemma {:induction false} DealSplits(pool: seq<int>, draws: nat -> real, t: nat, n: nat)
    requires UnitDraws(draws) && n <= |pool|
    ensures multiset(Deal(pool, draws, t, n).cells) + multiset(Deal(pool, draws, t, n).left) == multiset(pool)
    decreases n
  {
    if n > 0 {
      DealSplits(pool, draws, t, n - 1);
      DealNext(pool, draws, t, n);
      StepSplits(Deal(pool, draws, t, n - 1), Draw(draws, t + n - 1));
    }
  }

  /** Every dealt cell comes from the pool. */
  lemma DealFromPool(pool: seq<int>, draws: nat -> real, t: nat, n: nat)
    requires UnitDraws(draws) && n <= |pool|
    ensures forall i :: 0 <= i < n ==> Deal(pool, draws, t, n).cells[i] in pool
  {
    var h := Deal(pool, draws, t, n);
    DealSplits(pool, draws, t, n);
    forall i | 0 <= i < n
      ensures h.cells[i] in pool
    {
      var z := h.cells[i];
      assert z in multiset(h.cells);
      assert multiset(pool)[z] == multiset(h.cells)[z] + multiset(h.left)[z];
    }
  }

  /** Dealing from a pool of distinct cells hands out distinct cells. */
  lemma DealDistinct(pool: seq<int>, draws: nat -> real, t: nat, n: nat)
    requires UnitDraws(draws) && n <= |pool| && Distinct(pool)
    ensures Distinct(Deal(pool, draws, t, n).cells)
  {
    var h := Deal(pool, draws, t, n);
    DealSplits(pool, draws, t, n);
    DistinctCounts(pool);
    DistinctCounts(h.cells);
    forall z
      ensures multiset(h.cells)[z] <= 1
    {
      assert multiset(h.cells)[z] <= multiset(pool)[z];
    }
  }

  /** The entries addCharsToBoard appends: member i of the team on cell i of the deal. */
  function Pair(team: seq<Character>, cells: seq<int>): (ps: seq<Positioned>)
    requires |team| == |cells|
    ensures |ps| == |team|
    ensures forall i {:trigger ps[i]} :: 0 <= i < |ps| ==> ps[i].character == team[i] && ps[i].position == cells[i]
  {
    seq(|team|, i requires 0 <= i < |team| => Positioned(team[i], cells[i]))
  }

  /** Pairing one more member with one more cell appends one entry. */
  lemma PairPrefix(team: seq<Character>, i: nat, cells: seq<int>, z: int)
    requires i < |team| && |cells| == i
    ensures Pair(team[..i + 1], cells + [z]) == Pair(team[..i], cells) + [Positioned(team[i], z)]
  {
    var a, b := Pair(team[..i + 1], cells + [z]), Pair(team[..i], cells) + [Positioned(team[i], z)];
    assert |a| == |b|;
    forall j | 0 <= j < |a|
      ensures a[j] == b[j]
    {
      if j < i {
        assert a[j] == Positioned(team[j], cells[j]) == b[j];
      }
    }
  }

  // ---------------------------------------------------------------------------
  // The occupancy grid of stepsToTarget

  type Grid = seq<seq<int>>

  predicate IsGrid(g: Grid) {
    |g| == 8 && forall r :: 0 <= r < 8 ==> |g[r]| == 8
  }

  /**
   * The grid stepsToTarget hands to the path finder: 0 on every cell some
   * character stands on, 1 elsewhere, and the target cell forced to 1.
   */
  ghost function OccupancyGrid(ps: seq<Positioned>, target: Coord): (g: Grid)
    ensures IsGrid(g)
    ensures forall r, c {:trigger g[r][c]} :: 0 <= r < 8 && 0 <= c < 8 ==> g[r][c] == GridCell(ps, target, r, c)
  {
    GridRows(ps, target, 8)
  }

  /** The first n rows of the occupancy grid. */
  ghost function GridRows(ps: seq<Positioned>, target: Coord, n: nat): (g: seq<seq<int>>)
    requires n <= 8
    ensures |g| == n
    ensures forall r {:trigger g[r]} :: 0 <= r < n ==> |g[r]| == 8
    ensures forall r, c {:trigger g[r][c]} :: 0 <= r < n && 0 <= c < 8 ==> g[r][c] == GridCell(ps, target, r, c)
  {
    if n == 0 then [] else GridRows(ps, target, n - 1) + [seq(8, c => GridCell(ps, target, n - 1, c))]
  }

  /** One cell of the occupancy grid. */
  ghost function GridCell(ps: seq<Positioned>, target: Coord, r: int, c: int): int {
    if (r, c) == target then 1 else if Occupied(ps, 8 * r + c) then 0 else 1
  }

  /**
   * What the model assumes of the path finder's answer (its source is not part of
   * this model): when it has at least two waypoints, the last but one is a cell of
   * the board other than the end, and free in the grid it was given.
   */
  ghost predicate PathSound(g: Grid, end: Coord, path: seq<Coord>) {
    |path| >= 2 ==>
      var p := path[|path| - 2];
      OnBoard(p) && p != end && (IsGrid(g) ==> g[p.0][p.1] == 1)
  }

  /** The path finder keeps PathSound for every grid, start and end. */
  ghost predicate AstarSound(astar: (Grid, Coord, Coord) -> seq<Coord>) {
    forall g, start, end :: PathSound(g, end, astar(g, start, end))
  }

  /** The grid stepsToTarget starts from: every cell free. */
  const FreeGrid: Grid := [
    [1, 1, 1, 1, 1, 1, 1, 1],
    [1, 1, 1, 1, 1, 1, 1, 1],
    [1, 1, 1, 1, 1, 1, 1, 1],
    [1, 1, 1, 1, 1, 1, 1, 1],
    [1, 1, 1, 1, 1, 1, 1, 1],
    [1, 1, 1, 1, 1, 1, 1, 1],
    [1, 1, 1, 1, 1, 1, 1, 1],
    [1, 1, 1, 1, 1, 1, 1, 1]
  ]

  /** Every index listed in ks is an entry of ps standing on a board cell. */
  ghost predicate Listed(ps: seq<Positioned>, ks: seq<nat>) {
    forall i :: 0 <= i < |ks| ==> ks[i] < |ps| && IsCell(ps[ks[i]].position)
  }

  /** Some entry listed in ks stands on cell z. */
  ghost predicate MarkedBy(ps: seq<Positioned>, ks: seq<nat>, z: int) {
    exists i :: 0 <= i < |ks| && ks[i] < |ps| && ps[ks[i]].position == z
  }

  /** The free grid with the cell of each listed entry in turn set to 0. */
  ghost function Blocked(ps: seq<Positioned>, ks: seq<nat>): (g: Grid)
    requires Listed(ps, ks)
    ensures IsGrid(g)
  {
    if |ks| == 0 then FreeGrid
    else
      var g := Blocked(ps, ks[..|ks| - 1]);
      var z := CellOf(ps[ks[|ks| - 1]].position);
      g[z.0 := g[z.0][z.1 := 0]]
  }

  /** The users' indices followed by the bots' list every entry once placed. */
  lemma SidesListed(ps: seq<Positioned>, order: seq<nat>)
    requires PositionsOk(ps) && order == SideIndices(ps, true) + SideIndices(ps, false)
    ensures Listed(ps, order)
    ensures forall k :: 0 <= k < |ps| ==> k in order
  {
    var us, bs := SideIndices(ps, true), SideIndices(ps, false);
    forall k | 0 <= k < |ps|
      ensures k in order
    {
      if ps[k].character.kind.IsUser() {
        assert k in us;
      } else {
        assert k in bs;
      }
    }
  }

  /** Blocking one more listed entry marks its cell. */
  lemma BlockedNext(ps: seq<Positioned>, ks: seq<nat>, t: nat, g: Grid, z: Coord)
    requires Listed(ps, ks) && t < |ks| && g == Blocked(ps, ks[..t])
    requires z == CellOf(ps[ks[t]].position)
    ensures Blocked(ps, ks[..t + 1]) == g[z.0 := g[z.0][z.1 := 0]]
  {
    assert ks[..t + 1][..t] == ks[..t];
  }

  /** A cell of the blocked grid is 0 exactly when a listed entry stands on it. */
  lemma {:induction false} BlockedAt(ps: seq<Positioned>, ks: seq<nat>, r: int, c: int)
    requires Listed(ps, ks) && 0 <= r < 8 && 0 <= c < 8
    ensures Blocked(ps, ks)[r][c] == if MarkedBy(ps, ks, 8 * r + c) then 0 else 1
  {
    if |ks| > 0 {
      var front, last := ks[..|ks| - 1], ks[|ks| - 1];
      BlockedAt(ps, front, r, c);
      var z := 8 * r + c;
      if MarkedBy(ps, ks, z) {
        var i :| 0 <= i < |ks| && ks[i] < |ps| && ps[ks[i]].position == z;
        if i < |ks| - 1 {
          assert front[i] == ks[i];
        }
      }
      if MarkedBy(ps, front, z) {
        var i :| 0 <= i < |front| && front[i] < |ps| && ps[front[i]].position == z;
        assert ks[i] == front[i];
      }
    }
  }

  /**
   * Blocking the cells of a list that names every entry, then freeing the
   * target, gives the occupancy grid.
   */
  lemma BlockedGrid(ps: seq<Positioned>, ks: seq<nat>, target: Coord)
    requires Listed(ps, ks) && OnBoard(target)
    requires forall k :: 0 <= k < |ps| ==> k in ks
    ensures var g := Blocked(ps, ks); g[target.0 := g[target.0][target.1 := 1]] == OccupancyGrid(ps, target)
  {
    var g := Blocked(ps, ks);
    var h, o := g[target.0 := g[target.0][target.1 := 1]], OccupancyGrid(ps, target);
    forall r | 0 <= r < 8
      ensures h[r] == o[r]
    {
      forall c | 0 <= c < 8
        ensures h[r][c] == o[r][c]
      {
        BlockedAt(ps, ks, r, c);
        var z := 8 * r + c;
        if Occupied(ps, z) {
          var k :| 0 <= k < |ps| && ps[k].position == z;
          assert k in ks;
          var i :| 0 <= i < |ks| && ks[i] == k;
          assert ks[i] < |ps| && ps[ks[i]].position == z;
        }
      }
    }
  }

  /** A cell free in an occupancy grid, other than its target, holds nobody. */
  lemma FreeCellUnoccupied(ps: seq<Positioned>, target: Coord, p: Coord)
    requires OnBoard(p) && p != target && OccupancyGrid(ps, target)[p.0][p.1] == 1
    ensures !Occupied(ps, 8 * p.0 + p.1)
  {
  }

  // ---------------------------------------------------------------------------
  // Invariants of the list of placed characters

  /** Every entry stands on a board cell, no two share a cell, and no character is placed twice. */
  ghost predicate PositionsOk(ps: seq<Positioned>) {
    && (forall k :: 0 <= k < |ps| ==> IsCell(ps[k].position))
    && (forall j, k {:trigger Apart(ps, j, k)} :: 0 <= j < k < |ps| ==> Apart(ps, j, k))
  }

  /** Entries j and k stand on different cells and hold different characters. */
  ghost predicate Apart(ps: seq<Positioned>, j: int, k: int)
    requires 0 <= j < |ps| && 0 <= k < |ps|
  {
    ps[j].position != ps[k].position && ps[j].character != ps[k].character
  }

  /** In a well-formed list, two entries holding the same character are the same entry. */
  lemma SameCharacterSameEntry(ps: seq<Positioned>, j: nat, k: nat)
    requires PositionsOk(ps) && j < |ps| && k < |ps|
    ensures ps[j].character == ps[k].character ==> j == k
  {
    if j < k {
      assert Apart(ps, j, k);
    } else if k < j {
      assert Apart(ps, k, j);
    }
  }

  /** Splicing out another entry keeps entry k's character on its cell. */
  lemma StandsOnSplice(ps: seq<Positioned>, u: nat, k: nat)
    requires u < |ps| && k < |ps| && u != k
    ensures StandsOn(SpliceOne(ps, u), ps[k].character, ps[k].position)
  {
    var i := if k < u then k else k - 1;
    assert SpliceOne(ps, u)[i] == ps[k];
  }

  /** In a well-formed list, getChar on an entry's cell finds that entry. */
  lemma FoundAt(ps: seq<Positioned>, k: nat)
    requires PositionsOk(ps) && k < |ps|
    ensures FindAt(ps, ps[k].position) == Some(k)
  {
    var r := FindAt(ps, ps[k].position);
    assert r.Some? && r.value < k ==> Apart(ps, r.value, k);
  }

  /** Character c has an entry. */
  ghost predicate Placed(ps: seq<Positioned>, c: Character) {
    exists k :: 0 <= k < |ps| && ps[k].character == c
  }

  /** The characters placed are exactly the members of the two teams. */
  ghost predicate Placement(ps: seq<Positioned>, users: seq<Character>, bots: seq<Character>) {
    && (forall k :: 0 <= k < |ps| ==> ps[k].character in users || ps[k].character in bots)
    && (forall i :: 0 <= i < |users| ==> Placed(ps, users[i]))
    && (forall i :: 0 <= i < |bots| ==> Placed(ps, bots[i]))
  }

  /** A team of distinct characters, all of one side, no larger than the level allows. */
  ghost predicate Roster(team: seq<Character>, user: bool, level: int) {
    && Distinct(team)
    && (forall i :: 0 <= i < |team| ==> team[i].kind.IsUser() == user)
    && |team| <= Capacity(level)
  }

  /** Rosters of the right sides and sizes, and each of their members placed once, on a cell of its own. */
  ghost predicate Consistent(ps: seq<Positioned>, users: seq<Character>, bots: seq<Character>, level: int) {
    && Roster(users, true, level) && Roster(bots, false, level)
    && PositionsOk(ps) && Placement(ps, users, bots)
  }

  /** The invariants survive a level change that does not shrink the rosters' capacity. */
  lemma ConsistentAtLevel(ps: seq<Positioned>, users: seq<Character>, bots: seq<Character>, level: int, next: int)
    requires Consistent(ps, users, bots, level) && Capacity(level) <= Capacity(next)
    ensures Consistent(ps, users, bots, next)
  {
  }

  /**
   * The settings every handler keeps: a board whose cell table is built, draws
   * in [0, 1), a sound path finder, a level from 1 to 5 and a selection that is a cell.
   */
  ghost predicate Settled(board: Board, draws: nat -> real, astar: (Grid, Coord, Coord) -> seq<Coord>, level: int,
                          selected: Option<int>)
    reads board
  {
    && board.Valid() && UnitDraws(draws) && AstarSound(astar)
    && 1 <= level <= 5
    && (selected.Some? ==> IsCell(selected.value))
  }

  /** Splicing out the entry of a character and deleting it from its team keeps the invariants. */
  lemma RemovalKeepsInvariants(ps: seq<Positioned>, k: int, users: seq<Character>, bots: seq<Character>)
    requires PositionsOk(ps) && Placement(ps, users, bots) && 0 <= k < |ps|
    ensures PositionsOk(SpliceOne(ps, k))
    ensures Placement(SpliceOne(ps, k), Without(users, ps[k].character), Without(bots, ps[k].character))
    ensures !Occupied(SpliceOne(ps, k), ps[k].position)
  {
    var rest, gone := SpliceOne(ps, k), ps[k].character;
    forall i | 0 <= i < |rest|
      ensures rest[i] == ps[if i < k then i else i + 1]
    {
    }
    forall i, j | 0 <= i < j < |rest|
      ensures Apart(rest, i, j)
    {
      assert Apart(ps, if i < k then i else i + 1, if j < k then j else j + 1);
    }
    forall i | 0 <= i < |rest|
      ensures rest[i].position != ps[k].position && rest[i].character != gone
    {
      if i < k {
        assert Apart(ps, i, k);
      } else {
        assert Apart(ps, k, i + 1);
      }
    }
    forall c | (c in users || c in bots) && c != gone
      ensures Placed(rest, c)
    {
      var j :| 0 <= j < |ps| && ps[j].character == c;
      var i := if j < k then j else j - 1;
      assert rest[i].character == c;
    }
    var users', bots' := Without(users, gone), Without(bots, gone);
    forall i | 0 <= i < |rest|
      ensures rest[i].character in users' || rest[i].character in bots'
    {
      var j := if i < k then i else i + 1;
      assert rest[i].character == ps[j].character;
      if rest[i].character in users {
        var u :| 0 <= u < |users| && users[u] == rest[i].character;
      } else {
        var b :| 0 <= b < |bots| && bots[b] == rest[i].character;
      }
    }
    forall i | 0 <= i < |users'|
      ensures Placed(rest, users'[i])
    {
    }
    forall i | 0 <= i < |bots'|
      ensures Placed(rest, bots'[i])
    {
    }
  }

  /** Moving one entry to a free cell keeps the invariants. */
  lemma MoveKeepsInvariants(ps: seq<Positioned>, k: int, z: int, users: seq<Character>, bots: seq<Character>)
    requires PositionsOk(ps) && Placement(ps, users, bots) && 0 <= k < |ps|
    requires IsCell(z) && !Occupied(ps, z)
    ensures PositionsOk(ps[k := ps[k].(position := z)])
    ensures Placement(ps[k := ps[k].(position := z)], users, bots)
  {
    var qs := ps[k := ps[k].(position := z)];
    forall j, l | 0 <= j < l < |qs|
      ensures Apart(qs, j, l)
    {
      assert Apart(ps, j, l);
    }
    forall c | c in users || c in bots
      ensures Placed(qs, c)
    {
      var j :| 0 <= j < |ps| && ps[j].character == c;
      assert qs[j].character == c;
    }
  }

  /**
   * Users holding distinct cells of columns 0 and 1 followed by bots holding
   * distinct cells of columns 6 and 7: no two entries share a cell or a
   * character, and every member has an entry.
   */
  lemma PlacedSides(ps: seq<Positioned>, users: seq<Character>, bots: seq<Character>, us: seq<int>, bs: seq<int>,
                    level: int)
    requires |us| == |users| && |bs| == |bots|
    requires Roster(users, true, level) && Roster(bots, false, level) && Distinct(us) && Distinct(bs)
    requires forall i :: 0 <= i < |us| ==> IsCell(us[i]) && Col(us[i]) <= 1
    requires forall i :: 0 <= i < |bs| ==> IsCell(bs[i]) && Col(bs[i]) >= 6
    requires ps == Pair(users, us) + Pair(bots, bs)
    ensures && Consistent(ps, users, bots, level) && |ps| == |users| + |bots|
            && (forall k :: 0 <= k < |users| ==> ps[k].character == users[k] && Col(ps[k].position) <= 1)
            && (forall k :: |users| <= k < |ps| ==> ps[k].character == bots[k - |users|] && Col(ps[k].position) >= 6)
  {
    forall k | 0 <= k < |ps|
      ensures k < |users| ==> ps[k].character == users[k] && ps[k].position == us[k]
      ensures k >= |users| ==> ps[k].character == bots[k - |users|] && ps[k].position == bs[k - |users|]
    {
    }
    forall j, k | 0 <= j < k < |ps|
      ensures Apart(ps, j, k)
    {
      if k < |users| {
        assert Differ(users, j, k) && Differ(us, j, k);
      } else if j >= |users| {
        assert Differ(bots, j - |users|, k - |users|) && Differ(bs, j - |users|, k - |users|);
      } else {
        assert ps[j].character.kind.IsUser() && !ps[k].character.kind.IsUser();
      }
    }
    forall i | 0 <= i < |users|
      ensures Placed(ps, users[i])
    {
      assert ps[i].character == users[i];
    }
    forall i | 0 <= i < |bots|
      ensures Placed(ps, bots[i])
    {
      assert ps[|users| + i].character == bots[i];
    }
  }
}
