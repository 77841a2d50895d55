/**
 * The turn engine (src/js/GameController.js): the click handler, player and
 * AI attacks and moves, level completion, the level-up rebuild of the
 * rosters, start positions, random placement and the new-game reset.
 *
 * The game state's fields (selected, isUsersTurn, level, points, statistics,
 * allPositions) are fields of the controller. Each promise chain runs as its
 * ordered synchronous steps. Math.random is the controller's Random, and the
 * path finder is the function `astar`.
 */
module GameControl {
  import opened Wrappers
  import opened BoardGeometry
  import opened CharacterModel
  import opened Generators
  import opened GameRules

  /** What a click came to: the branch of onCellClick that acted, or the notice it showed. */
  datatype Click = Ignored | Idle | Attack | Move | InvalidMove | NotYourUnit | Select

  /**
   * How aiResponse ended: it was not the AI's turn, one side had nobody on the
   * board, a bot struck, a bot moved, or the way found was too short to step on
   * (the source throws there and the turn never comes back to the user).
   */
  datatype AiStatus = Waiting | Unopposed | Struck | Moved | Stalled

  const UserChars: seq<Kind> := [Bowman, Swordsman, Magician]
  const BotChars: seq<Kind> := [Daemon, Undead, Vampire]

  /** gamePlay.boardSize */
  const BoardSize: nat := 8

  class GameController {
    const board: Board
    const rng: Random
    const profile: Kind -> Profile
    const astar: (Grid, Coord, Coord) -> seq<Coord>
    var userTeam: seq<Character>
    var botTeam: seq<Character>
    var selected: Option<int>
    var isUsersTurn: bool
    var level: int
    var points: real
    var statistics: seq<real>
    var allPositions: seq<Positioned>

    /**
     * The state every handler keeps: levels 1 to 5, a selection that is a cell,
     * rosters of the right sides and sizes, and a list of placed characters
     * holding every member exactly once, on distinct cells.
     */
    ghost predicate Valid()
      reads this`level, this`selected, this`userTeam, this`botTeam, this`allPositions, board
    {
      Setup() && Consistent(allPositions, userTeam, botTeam, level)
    }

    /** The part of Valid that no change to the rosters or the board list touches. */
    ghost predicate Setup()
      reads this`level, this`selected, board
    {
      Settled(board, rng.draws, astar, level, selected)
    }

    /** The controller with an empty board and a fresh game state. */
    constructor (draws: nat -> real, astar: (Grid, Coord, Coord) -> seq<Coord>, profile: Kind -> Profile)
      requires UnitDraws(draws) && AstarSound(astar)
      ensures Valid()
      ensures userTeam == [] && botTeam == [] && allPositions == []
      ensures selected == None && isUsersTurn && level == 1 && points == 0.0 && statistics == []
      ensures rng.draws == draws && rng.tick == 0 && this.astar == astar && this.profile == profile
    {
      this.profile := profile;
      this.astar := astar;
      userTeam := [];
      botTeam := [];
      selected := None;
      isUsersTurn := true;
      level := 1;
      points := 0.0;
      statistics := [];
      allPositions := [];
      board := new Board();
      rng := new Random(draws);
    }

    // -------------------------------------------------------------------------
    // Queries

    /** getChar: the first entry standing on idx. */
    function GetChar(idx: int): (p: Option<Positioned>)
      reads this
      ensures p.Some? ==> p.value in allPositions && p.value.position == idx
      ensures p.None? <==> !Occupied(allPositions, idx)
    {
      match FindAt(allPositions, idx)
      case Some(k) => Some(allPositions[k])
      case None => None
    }

    /** getSelectedChar: the entry on the selected cell; none when nothing is selected. */
    function GetSelectedChar(): (p: Option<Positioned>)
      reads this
      ensures p.Some? ==> selected.Some? && p.value in allPositions && p.value.position == selected.value
      ensures selected.Some? && Occupied(allPositions, selected.value) ==> p.Some?
    {
      if selected.None? then None else GetChar(selected.value)
    }

    /** isValidMove: idx is one of getRange(selected, distance of the selected character). */
    function IsValidMove(idx: int): (r: bool)
      reads this
      ensures r <==> GetSelectedChar().Some? && InRange(selected.value, GetSelectedChar().value.character.distance, idx)
    {
      match GetSelectedChar()
      case Some(p) => InRange(selected.value, p.character.distance, idx)
      case None => false
    }

    /** isAttack: idx is one of getRange(selected, attackRange of the selected character). */
    function IsAttack(idx: int): (r: bool)
      reads this
      ensures r <==> GetSelectedChar().Some? && InRange(selected.value, GetSelectedChar().value.character.attackRange, idx)
    {
      match GetSelectedChar()
      case Some(p) => InRange(selected.value, p.character.attackRange, idx)
      case None => false
    }

    /** isUserChar: a user character stands on idx. */
    function IsUserChar(idx: int): (r: bool)
      reads this
      ensures r <==> exists k :: FirstOn(allPositions, k, idx) && allPositions[k].character.kind.IsUser()
      ensures r ==> Occupied(allPositions, idx) && !IsBotChar(idx)
    {
      match GetChar(idx)
      case Some(p) => p.character.kind.IsUser()
      case None => false
    }

    /** isBotChar: a bot stands on idx. */
    function IsBotChar(idx: int): (r: bool)
      reads this
      ensures r <==> exists k :: FirstOn(allPositions, k, idx) && allPositions[k].character.kind.IsBot()
      ensures r ==> Occupied(allPositions, idx)
    {
      match GetChar(idx)
      case Some(p) => p.character.kind.IsBot()
      case None => false
    }

    // -------------------------------------------------------------------------
    // The click handler

    /**
     * What onCellClick does with a click on index: nothing at level 5 or with no
     * user left; attack a bot in reach on the user's turn; move to a free cell in
     * reach on the user's turn; warn of an invalid move onto a free cell; warn
     * that a bot is not the user's unit; select a user unit.
     */
    function Classify(index: int): (c: Click)
      reads this
      ensures c == Ignored <==> level == 5 || |userTeam| == 0
      ensures c == Attack <==> level != 5 && |userTeam| > 0 && isUsersTurn && IsBotChar(index) && IsAttack(index)
      ensures c == Move <==>
                level != 5 && |userTeam| > 0 && isUsersTurn && !Occupied(allPositions, index) && IsValidMove(index)
      ensures c == InvalidMove <==>
                && level != 5 && |userTeam| > 0 && isUsersTurn && selected.Some? && !Occupied(allPositions, index)
                && !IsValidMove(index) && !IsAttack(index)
      ensures c == NotYourUnit <==> level != 5 && |userTeam| > 0 && IsBotChar(index) && !IsAttack(index)
      ensures c == Select <==> level != 5 && |userTeam| > 0 && IsUserChar(index)
    {
      if level == 5 || |userTeam| == 0 then Ignored
      else if selected.Some? && GetChar(index).Some? && IsBotChar(index) && IsAttack(index) && isUsersTurn then Attack
      else if selected.Some? && IsValidMove(index) && GetChar(index).None? && isUsersTurn then Move
      else if GetChar(index).None? then
        if selected.Some? && !IsValidMove(index) && !IsAttack(index) && isUsersTurn then InvalidMove else Idle
      else if IsBotChar(index) && !IsAttack(index) then NotYourUnit
      else if IsUserChar(index) then Select
      else Idle
    }

    /**
     * onCellClick. Once an attack or a move has started, the rest of the handler
     * changes nothing (the clicked cell still holds the bot that is in reach, or
     * now holds the unit just moved and already selected), so the model returns
     * there; the attack's deferred steps then run in order.
     */
    method OnCellClick(index: int) returns (outcome: Click)
      requires Valid() && IsCell(index)
      modifies this, rng, userTeam, botTeam
      ensures Valid()
      ensures outcome == old(Classify(index))
      ensures outcome in {Ignored, Idle, InvalidMove, NotYourUnit} ==>
                unchanged(this) && unchanged(rng) && unchanged(userTeam) && unchanged(botTeam)
      ensures outcome == Select ==>
                && selected == Some(index) && unchanged(rng)
                && userTeam == old(userTeam) && botTeam == old(botTeam) && allPositions == old(allPositions)
                && isUsersTurn == old(isUsersTurn) && level == old(level) && points == old(points)
                && statistics == old(statistics) && unchanged(userTeam) && unchanged(botTeam)
      ensures outcome == Attack ==>
                && old(GetChar(index)).Some? && old(GetSelectedChar()).Some?
                && var target := old(GetChar(index)).value.character;
                   && target.health == old(target.health) - Damage(old(GetSelectedChar().value.character.attack), old(target.defence))
                   && (target.health <= 0.0 ==> target !in botTeam && !Placed(allPositions, target))
      ensures outcome == Move ==>
                && old(GetSelectedChar()).Some?
                && var unit := old(GetSelectedChar()).value.character;
                   unit.kind.IsUser() ==> StandsOn(allPositions, unit, index) || (unit.health <= 0.0 && !Occupied(allPositions, index))
    {
      outcome := Idle;
      if level == 5 || |userTeam| == 0 {
        return Ignored;
      }
      if selected.Some? && GetChar(index).Some? && IsBotChar(index) {
        if IsAttack(index) {
          var started := isUsersTurn;
          GetAttack(index);
          if started {
            return Attack;
          }
        }
      }
      if selected.Some? && IsValidMove(index) && GetChar(index).None? {
        if isUsersTurn {
          GetUsersTurn(index);
          return Move;
        }
      }
      if selected.Some? && !IsValidMove(index) && !IsAttack(index) {
        if isUsersTurn && GetChar(index).None? {
          outcome := InvalidMove;
        }
      }
      if GetChar(index).None? {
        return;
      }
      if GetChar(index).Some? && IsBotChar(index) && !IsAttack(index) {
        outcome := NotYourUnit;
      }
      if GetChar(index).Some? && IsUserChar(index) {
        selected := Some(index);
        outcome := Select;
      }
    }

    // -------------------------------------------------------------------------
    // The player's attack and move

    /**
     * getAttack: on the user's turn the turn passes at once; then, in order, the
     * bot takes the damage (and leaves the board when its health is gone), the
     * level is checked and the AI responds.
     */
    method GetAttack(idx: int)
      requires Valid() && GetChar(idx).Some? && GetSelectedChar().Some?
      requires GetChar(idx).value.character.kind.IsBot()
      modifies this, rng, userTeam, botTeam
      ensures Valid()
      ensures !old(isUsersTurn) ==> unchanged(this) && unchanged(rng) && unchanged(userTeam) && unchanged(botTeam)
      ensures old(isUsersTurn) ==>
                var target := old(GetChar(idx).value.character);
                && target.health == old(target.health) - Damage(old(GetSelectedChar().value.character.attack), old(target.defence))
                && (target.health <= 0.0 ==> target !in botTeam && !Placed(allPositions, target))
    {
      if isUsersTurn {
        isUsersTurn := false;
        AttackChain(idx);
      }
    }

    /**
     * The deferred steps of getAttack, in order: the strike, checkLevel and
     * aiResponse. Only the strike touches the bot: the later steps change user
     * characters only.
     */
    method AttackChain(idx: int)
      requires Valid() && GetChar(idx).Some? && GetSelectedChar().Some?
      requires GetChar(idx).value.character.kind.IsBot()
      modifies this, rng, userTeam, botTeam
      ensures Valid()
      ensures var target := old(GetChar(idx).value.character);
              && target.health == old(target.health) - Damage(old(GetSelectedChar().value.character.attack), old(target.defence))
              && (target.health <= 0.0 ==> target !in botTeam && !Placed(allPositions, target))
    {
      ghost var target := GetChar(idx).value.character;
      PlayerStrike(idx);
      CheckAndRespond(target);
    }

    /** The last two deferred steps of getAttack, checkLevel and aiResponse, leave every bot's health alone. */
    method CheckAndRespond(ghost bot: Character)
      requires Valid() && bot.kind.IsBot()
      modifies this, rng, userTeam
      ensures Valid()
      ensures bot.health == old(bot.health)
      ensures bot !in old(botTeam) ==> bot !in botTeam && !Placed(allPositions, bot)
    {
      NotOnUserTeam(bot);
      CheckLevel();
      NotOnUserTeam(bot);
      var _, _ := AiResponse();
      NotOnUserTeam(bot);
    }

    /** A bot is never a member of the user team. */
    lemma NotOnUserTeam(c: Character)
      requires Valid() && c.kind.IsBot()
      ensures c !in userTeam
    {
      assert forall i :: 0 <= i < |userTeam| ==> userTeam[i] != c;
    }

    /**
     * The first deferred step of getAttack: the bot on idx loses
     * max(attack − defence, attack · 0.1) health, computed from the selected
     * character's attack and the bot's defence; a bot left with no health is
     * spliced out of the list and deleted from the bot team.
     */
    method PlayerStrike(idx: int)
      requires Valid() && GetChar(idx).Some? && GetSelectedChar().Some?
      requires GetChar(idx).value.character.kind.IsBot()
      modifies this`allPositions, this`userTeam, this`botTeam, GetChar(idx).value.character
      ensures Valid()
      ensures var target := old(GetChar(idx).value.character);
              && target.health == old(target.health) - Damage(old(GetSelectedChar().value.character.attack), old(target.defence))
              && (target.health <= 0.0 ==>
                    && allPositions == SpliceOne(old(allPositions), old(FindAt(allPositions, idx).value))
                    && botTeam == Without(old(botTeam), target) && !Occupied(allPositions, idx))
              && (target.health > 0.0 ==> allPositions == old(allPositions) && botTeam == old(botTeam))
      ensures userTeam == old(userTeam)
    {
      var attacker := GetSelectedChar().value.character;
      var target := GetChar(idx).value.character;
      var damage := Damage(attacker.attack, target.defence);
      var k := FindAt(allPositions, idx).value;
      target.health := target.health - damage;
      if target.health <= 0.0 {
        Fall(k);
      }
    }

    /**
     * What follows a strike that leaves the character of entry k with no
     * health: removeChar on its cell, then its deletion from its own team.
     */
    method Fall(k: nat)
      requires Valid() && k < |allPositions|
      modifies this`allPositions, this`userTeam, this`botTeam
      ensures Valid()
      ensures allPositions == SpliceOne(old(allPositions), k) && !Occupied(allPositions, old(allPositions[k].position))
      ensures var gone := old(allPositions[k].character);
              && (gone.kind.IsUser() ==> userTeam == Without(old(userTeam), gone) && botTeam == old(botTeam))
              && (gone.kind.IsBot() ==> botTeam == Without(old(botTeam), gone) && userTeam == old(userTeam))
    {
      var target := allPositions[k];
      var gone := target.character;
      ghost var rest := SpliceOne(allPositions, k);
      FallKeepsInvariants(allPositions, k, userTeam, botTeam, level);
      FoundAt(allPositions, k);
      RemoveChar(target.position);
      assert allPositions == rest;
      if gone.kind.IsUser() {
        userTeam := Without(userTeam, gone);
      } else {
        botTeam := Without(botTeam, gone);
      }
    }

    /**
     * getUsersTurn: the selected character steps onto idx, stays selected there,
     * the turn passes and the AI responds.
     */
    method GetUsersTurn(idx: int)
      requires Valid() && GetSelectedChar().Some? && IsCell(idx) && !Occupied(allPositions, idx)
      modifies this, rng, userTeam
      ensures Valid()
      ensures var c := old(GetSelectedChar().value.character);
              c.kind.IsUser() ==> StandsOn(allPositions, c, idx) || (c.health <= 0.0 && !Occupied(allPositions, idx))
    {
      ghost var c := GetSelectedChar().value.character;
      ghost var k := FindAt(allPositions, selected.value).value;
      MoveSelected(idx);
      ghost var mid, t := allPositions, rng.tick;
      assert mid[k].character == c && mid[k].position == idx;
      var status, pair := AiResponse();
      if c.kind.IsUser() {
        AiKeepsUnit(mid, k, c, idx, t, status, pair);
      }
    }

    /**
     * The AI's response leaves the user character c, which stood on z at entry k,
     * on z, unless it struck c down and z is now empty.
     */
    lemma AiKeepsUnit(mid: seq<Positioned>, k: nat, c: Character, z: int, t: nat, status: AiStatus,
                      pair: Option<(nat, nat)>)
      requires PositionsOk(mid) && k < |mid| && mid[k].character == c && mid[k].position == z && c.kind.IsUser()
      requires UnitDraws(rng.draws)
      requires status == Struck ==>
                 && pair.Some? && pair.value.0 < |SideIndices(mid, false)| && pair.value.1 < |SideIndices(mid, true)|
                 && var u := SideIndices(mid, true)[pair.value.1];
                    (c.health <= 0.0 ==> mid[u].character == c ==> !Occupied(allPositions, mid[u].position))
                    && (mid[u].character.health <= 0.0 ==> allPositions == SpliceOne(mid, u))
                    && (mid[u].character.health > 0.0 ==> allPositions == mid)
      requires status in {Moved, Stalled} ==>
                 && |SideIndices(mid, false)| > 0 && |SideIndices(mid, true)| > 0
                 && var bots := SideIndices(mid, false);
                    var b := bots[Scale(Draw(rng.draws, t), |bots|)];
                    match PlannedStep(astar, mid, b)
                    case Some(p) => allPositions == mid[b := mid[b].(position := p)]
                    case None => allPositions == mid
      requires status in {Waiting, Unopposed} ==> allPositions == mid
      ensures StandsOn(allPositions, c, z) || (c.health <= 0.0 && !Occupied(allPositions, z))
    {
      if status == Struck {
        var u := SideIndices(mid, true)[pair.value.1];
        if mid[u].character == c {
          SameCharacterSameEntry(mid, u, k);
        } else if c.health > 0.0 || mid[u].character.health <= 0.0 {
          if mid[u].character.health <= 0.0 {
            StandsOnSplice(mid, u, k);
          } else {
            assert allPositions[k] == mid[k];
          }
        } else {
          assert allPositions[k] == mid[k];
        }
      } else if status in {Moved, Stalled} {
        var bots := SideIndices(mid, false);
        var b := bots[Scale(Draw(rng.draws, t), |bots|)];
        assert !mid[b].character.kind.IsUser();
        assert allPositions[k] == mid[k];
      } else {
        assert allPositions[k] == mid[k];
      }
    }

    /** The synchronous part of getUsersTurn: only the selected entry moves, and the selection follows it. */
    method MoveSelected(idx: int)
      requires Valid() && GetSelectedChar().Some? && IsCell(idx) && !Occupied(allPositions, idx)
      modifies this
      ensures Valid()
      ensures var k := old(FindAt(allPositions, selected.value).value);
              allPositions == old(allPositions)[k := old(allPositions)[k].(position := idx)]
      ensures selected == Some(idx) && !isUsersTurn
      ensures userTeam == old(userTeam) && botTeam == old(botTeam)
      ensures level == old(level) && points == old(points) && statistics == old(statistics)
    {
      var k := FindAt(allPositions, selected.value).value;
      Relocate(k, idx);
      selected := Some(idx);
      isUsersTurn := false;
    }

    /** The entry at k moves to the free cell z; nothing else changes. */
    method Relocate(k: nat, z: int)
      requires Valid() && k < |allPositions| && IsCell(z) && !Occupied(allPositions, z)
      modifies this`allPositions
      ensures Valid()
      ensures allPositions == old(allPositions)[k := old(allPositions)[k].(position := z)]
    {
      MoveKeepsInvariants(allPositions, k, z, userTeam, botTeam);
      allPositions := allPositions[k := allPositions[k].(position := z)];
    }

    /**
     * removeChar: splices out the entry getChar(idx) finds; when there is none,
     * indexOf gives -1 and splice(-1, 1) drops the last entry.
     */
    method RemoveChar(idx: int)
      modifies this`allPositions
      ensures old(FindAt(allPositions, idx)).Some? ==>
                allPositions == SpliceOne(old(allPositions), old(FindAt(allPositions, idx)).value)
      ensures old(FindAt(allPositions, idx)).None? ==> allPositions == SpliceOne(old(allPositions), -1)
    {
      var state := allPositions;
      var found := FindAt(state, idx);
      allPositions := SpliceOne(state, if found.Some? then found.value else -1);
    }

    // -------------------------------------------------------------------------
    // The AI's turn

    /** The bot of entry b reaches the character of entry u with its attack range. */
    ghost predicate Reaches(b: nat, u: nat)
      reads this
      requires b < |allPositions| && u < |allPositions|
    {
      InRange(allPositions[b].position, allPositions[b].character.attackRange, allPositions[u].position)
    }

    /** Pair (i, j) of the scan comes after the pair found so far (any pair does when none is found). */
    static predicate After(pair: Option<(nat, nat)>, i: int, j: int) {
      pair.None? || i > pair.value.0 || (i == pair.value.0 && j > pair.value.1)
    }

    /** No pair the scan has passed before (i, j), and after the pair found, is in reach. */
    ghost predicate Scanned(bots: seq<nat>, users: seq<nat>, pair: Option<(nat, nat)>, i: int, j: int)
      reads this
      requires forall x :: 0 <= x < |bots| ==> bots[x] < |allPositions|
      requires forall y :: 0 <= y < |users| ==> users[y] < |allPositions|
    {
      forall x, y :: 0 <= x < |bots| && 0 <= y < |users| && (x < i || (x == i && y < j)) && After(pair, x, y) ==>
        !Reaches(bots[x], users[y])
    }

    /**
     * The nested scan of aiResponse: for each bot in list order, getRange of its
     * attack range, and for each user in list order, a hit records the pair. The
     * pair kept is the LAST one in reach.
     */
    method FindAttackPair(bots: seq<nat>, users: seq<nat>) returns (pair: Option<(nat, nat)>)
      requires Valid()
      requires forall x :: 0 <= x < |bots| ==> bots[x] < |allPositions|
      requires forall y :: 0 <= y < |users| ==> users[y] < |allPositions|
      ensures pair.Some? ==> pair.value.0 < |bots| && pair.value.1 < |users|
      ensures pair.Some? ==> Reaches(bots[pair.value.0], users[pair.value.1])
      ensures forall x, y :: 0 <= x < |bots| && 0 <= y < |users| && After(pair, x, y) ==> !Reaches(bots[x], users[y])
    {
      pair := None;
      var i := 0;
      while i < |bots|
        invariant 0 <= i <= |bots|
        invariant pair.Some? ==> pair.value.0 < i && pair.value.1 < |users| && Reaches(bots[pair.value.0], users[pair.value.1])
        invariant Scanned(bots, users, pair, i, 0)
      {
        var elem := allPositions[bots[i]];
        var rangeAttack := board.GetRange(elem.position, elem.character.attackRange);
        var j := 0;
        while j < |users|
          invariant 0 <= j <= |users|
          invariant pair.Some? ==> pair.value.0 <= i && pair.value.1 < |users| && Reaches(bots[pair.value.0], users[pair.value.1])
          invariant pair.Some? && pair.value.0 == i ==> pair.value.1 < j
          invariant Scanned(bots, users, pair, i, j)
        {
          if allPositions[users[j]].position in rangeAttack {
            pair := Some((i, j));
          }
          j := j + 1;
        }
        i := i + 1;
      }
    }

    /**
     * aiResponse: on the AI's turn, with both sides on the board, the last bot /
     * user pair in reach is struck and the level checked; with no pair in reach a
     * random bot walks towards the closest user. The ghost result names the pair
     * struck.
     */
    method AiResponse() returns (status: AiStatus, ghost pair: Option<(nat, nat)>)
      requires Valid()
      modifies this, rng, userTeam
      ensures Valid()
      ensures old(isUsersTurn) ==> status == Waiting
      ensures status in {Waiting, Unopposed} ==> unchanged(this) && unchanged(rng) && unchanged(userTeam)
      ensures status == Unopposed <==>
                !old(isUsersTurn) && (|old(SideIndices(allPositions, false))| == 0 || |old(SideIndices(allPositions, true))| == 0)
      ensures status == Struck <==> !old(isUsersTurn) && AnyInReach(old(allPositions))
      ensures status == Struck ==>
                && pair.Some? && LastInReach(old(allPositions), pair.value.0, pair.value.1)
                && var b, u := old(SideIndices(allPositions, false))[pair.value.0], old(SideIndices(allPositions, true))[pair.value.1];
                   var target := old(allPositions[u].character);
                   && target.health == old(target.health) - Damage(old(allPositions[b].character.attack), old(target.defence))
                   && (target.health <= 0.0 ==>
                         && allPositions == SpliceOne(old(allPositions), u) && !Occupied(allPositions, old(allPositions[u].position))
                         && userTeam == Without(old(userTeam), target) && selected == None)
                   && (target.health > 0.0 ==>
                         allPositions == old(allPositions) && userTeam == old(userTeam) && selected == old(selected))
                   && (forall c :: c in old(userTeam) && c != target ==> unchanged(c))
                   && unchanged(rng)
      ensures status != Struck ==>
                userTeam == old(userTeam) && selected == old(selected) && forall c :: c in old(userTeam) ==> unchanged(c)
      ensures level == old(level) && points == old(points)
      ensures statistics == old(statistics) + (if status == Struck && |userTeam| == 0 then [old(points)] else [])
      ensures status in {Moved, Stalled} ==>
                && !old(isUsersTurn) && |old(SideIndices(allPositions, false))| > 0
                && |old(SideIndices(allPositions, true))| > 0 && !AnyInReach(old(allPositions))
                && rng.tick == old(rng.tick) + 1
                && var bots := old(SideIndices(allPositions, false));
                   var b := bots[Scale(Draw(rng.draws, old(rng.tick)), |bots|)];
                   match old(PlannedStep(astar, allPositions, b))
                   case Some(p) => status == Moved && allPositions == old(allPositions)[b := old(allPositions)[b].(position := p)]
                   case None => status == Stalled && allPositions == old(allPositions)
      ensures status in {Struck, Moved} ==> isUsersTurn
      ensures status == Stalled ==> !isUsersTurn
      ensures botTeam == old(botTeam)
      ensures selected.Some? ==> selected == old(selected)
    {
      pair := None;
      if isUsersTurn {
        return Waiting, pair;
      }
      var botsTeam := SideIndices(allPositions, false);
      var usersTeam := SideIndices(allPositions, true);
      if |botsTeam| == 0 || |usersTeam| == 0 {
        return Unopposed, pair;
      }
      status, pair := AiTurn();
    }

    /**
     * The AI's turn proper, with both sides on the board: the strike by the last
     * bot / user pair in reach, or else a random bot's step.
     */
    method AiTurn() returns (status: AiStatus, ghost pair: Option<(nat, nat)>)
      requires Valid() && !isUsersTurn
      requires |SideIndices(allPositions, false)| > 0 && |SideIndices(allPositions, true)| > 0
      modifies this, rng, userTeam
      ensures Valid()
      ensures status in {Struck, Moved, Stalled}
      ensures status == Struck <==> !old(isUsersTurn) && AnyInReach(old(allPositions))
      ensures status == Struck ==>
                && pair.Some? && LastInReach(old(allPositions), pair.value.0, pair.value.1)
                && var b, u := old(SideIndices(allPositions, false))[pair.value.0], old(SideIndices(allPositions, true))[pair.value.1];
                   var target := old(allPositions[u].character);
                   && target.health == old(target.health) - Damage(old(allPositions[b].character.attack), old(target.defence))
                   && (target.health <= 0.0 ==>
                         && allPositions == SpliceOne(old(allPositions), u) && !Occupied(allPositions, old(allPositions[u].position))
                         && userTeam == Without(old(userTeam), target) && selected == None)
                   && (target.health > 0.0 ==>
                         allPositions == old(allPositions) && userTeam == old(userTeam) && selected == old(selected))
                   && (forall c :: c in old(userTeam) && c != target ==> unchanged(c))
                   && unchanged(rng)
      ensures status != Struck ==>
                userTeam == old(userTeam) && selected == old(selected) && forall c :: c in old(userTeam) ==> unchanged(c)
      ensures level == old(level) && points == old(points)
      ensures statistics == old(statistics) + (if status == Struck && |userTeam| == 0 then [old(points)] else [])
      ensures status in {Moved, Stalled} ==>
                && !old(isUsersTurn) && |old(SideIndices(allPositions, false))| > 0
                && |old(SideIndices(allPositions, true))| > 0 && !AnyInReach(old(allPositions))
                && rng.tick == old(rng.tick) + 1
                && var bots := old(SideIndices(allPositions, false));
                   var b := bots[Scale(Draw(rng.draws, old(rng.tick)), |bots|)];
                   match old(PlannedStep(astar, allPositions, b))
                   case Some(p) => status == Moved && allPositions == old(allPositions)[b := old(allPositions)[b].(position := p)]
                   case None => status == Stalled && allPositions == old(allPositions)
      ensures status in {Struck, Moved} ==> isUsersTurn
      ensures status == Stalled ==> !isUsersTurn
      ensures botTeam == old(botTeam)
      ensures selected.Some? ==> selected == old(selected)
    {
      var botsTeam := SideIndices(allPositions, false);
      var usersTeam := SideIndices(allPositions, true);
      var found := FindAttackPair(botsTeam, usersTeam);
      pair := found;
      ReachFound(botsTeam, usersTeam, found);
      if found.Some? {
        status := AiAttack(found.value.0, found.value.1);
      } else {
        status := AiMove();
      }
    }

    /** The scan finds a pair exactly when some bot has some user character in reach. */
    lemma ReachFound(bots: seq<nat>, users: seq<nat>, found: Option<(nat, nat)>)
      requires bots == SideIndices(allPositions, false) && users == SideIndices(allPositions, true)
      requires found.Some? ==> found.value.0 < |bots| && found.value.1 < |users|
      requires found.Some? ==> Reaches(bots[found.value.0], users[found.value.1])
      requires forall x, y :: 0 <= x < |bots| && 0 <= y < |users| && After(found, x, y) ==> !Reaches(bots[x], users[y])
      ensures found.Some? <==> AnyInReach(allPositions)
      ensures found.Some? ==> LastInReach(allPositions, found.value.0, found.value.1)
    {
      if found.Some? {
        assert InReach(allPositions, bots[found.value.0], users[found.value.1]);
      } else {
        forall x, y | 0 <= x < |bots| && 0 <= y < |users|
          ensures !InReach(allPositions, bots[x], users[y])
        {
          assert After(found, x, y);
        }
      }
    }

    /** The strike branch of aiResponse: the strike, then checkLevel, which finds bots left and changes nothing. */
    method AiAttack(x: nat, y: nat) returns (status: AiStatus)
      requires Valid() && x < |SideIndices(allPositions, false)| && y < |SideIndices(allPositions, true)|
      modifies this`allPositions, this`userTeam, this`botTeam, this`selected, this`isUsersTurn
      modifies this`statistics, this`points, this`level, rng, userTeam
      ensures Valid() && status == Struck && isUsersTurn && botTeam == old(botTeam)
      ensures var b, u := old(SideIndices(allPositions, false))[x], old(SideIndices(allPositions, true))[y];
              var target := old(allPositions[u].character);
              && target.health == old(target.health) - Damage(old(allPositions[b].character.attack), old(target.defence))
              && (target.health <= 0.0 ==>
                    && allPositions == SpliceOne(old(allPositions), u) && !Occupied(allPositions, old(allPositions[u].position))
                    && userTeam == Without(old(userTeam), target) && selected == None)
              && (target.health > 0.0 ==>
                    allPositions == old(allPositions) && userTeam == old(userTeam) && selected == old(selected))
              && (forall c :: c in old(userTeam) && c != target ==> unchanged(c))
      ensures level == old(level) && points == old(points) && unchanged(rng)
      ensures statistics == old(statistics) + (if |userTeam| == 0 then [old(points)] else [])
    {
      var b, u := SideIndices(allPositions, false)[x], SideIndices(allPositions, true)[y];
      OnTeam(b);
      OnTeam(u);
      AiStrike(b, u);
      CheckLevel();
      status := Struck;
    }

    /** Every character on the board is a member of its own side's team. */
    lemma OnTeam(k: nat)
      requires Valid() && k < |allPositions|
      ensures allPositions[k].character.kind.IsUser() ==> allPositions[k].character in userTeam
      ensures !allPositions[k].character.kind.IsUser() ==> allPositions[k].character in botTeam && |botTeam| > 0
    {
      var c := allPositions[k].character;
      if c in userTeam {
        var i :| 0 <= i < |userTeam| && userTeam[i] == c;
      }
      if c in botTeam {
        var i :| 0 <= i < |botTeam| && botTeam[i] == c;
      }
    }

    /**
     * The AI's strike: the user character of entry u loses the damage the bot of
     * entry b deals; a user left with no health leaves the board and the team,
     * and the selection is cleared; then the turn returns to the user.
     */
    method AiStrike(b: nat, u: nat)
      requires Valid() && b < |allPositions| && u < |allPositions|
      requires allPositions[b].character.kind.IsBot() && allPositions[u].character.kind.IsUser()
      modifies this`allPositions, this`userTeam, this`botTeam, this`selected, this`isUsersTurn
      modifies allPositions[u].character
      ensures Valid()
      ensures var target := old(allPositions[u].character);
              && target.health == old(target.health) - Damage(old(allPositions[b].character.attack), old(target.defence))
              && (target.health <= 0.0 ==>
                    && allPositions == SpliceOne(old(allPositions), u) && !Occupied(allPositions, old(allPositions[u].position))
                    && userTeam == Without(old(userTeam), target) && selected == None)
              && (target.health > 0.0 ==>
                    allPositions == old(allPositions) && userTeam == old(userTeam) && selected == old(selected))
      ensures isUsersTurn && botTeam == old(botTeam)
    {
      var bot := allPositions[b];
      var target := allPositions[u];
      var damage := Damage(bot.character.attack, target.character.defence);
      target.character.health := target.character.health - damage;
      if target.character.health <= 0.0 {
        Fall(u);
        selected := None;
      }
      isUsersTurn := true;
    }

    /**
     * The AI's move: a bot drawn at random from the bots on the board moves to
     * its planned step; its move range is not consulted. When the way is too
     * short the source throws: nothing moves and the turn stays with the AI.
     */
    method AiMove() returns (status: AiStatus)
      requires Valid() && |SideIndices(allPositions, false)| > 0 && |SideIndices(allPositions, true)| > 0
      modifies rng, this`allPositions, this`isUsersTurn
      ensures Valid()
      ensures userTeam == old(userTeam) && selected == old(selected) && forall c :: c in old(userTeam) ==> unchanged(c)
      ensures level == old(level) && points == old(points) && statistics == old(statistics)
      ensures rng.tick == old(rng.tick) + 1
      ensures var bots := old(SideIndices(allPositions, false));
              var b := bots[Scale(Draw(rng.draws, old(rng.tick)), |bots|)];
              match old(PlannedStep(astar, allPositions, b))
              case Some(p) =>
                status == Moved && isUsersTurn && allPositions == old(allPositions)[b := old(allPositions)[b].(position := p)]
              case None =>
                status == Stalled && isUsersTurn == old(isUsersTurn) && allPositions == old(allPositions)
    {
      var bots := SideIndices(allPositions, false);
      // The draw changes neither the board nor the users, so the step planned before it still holds.
      ghost var ps, users, rest := allPositions, userTeam, PlannedStep(astar, allPositions, bots[Scale(Draw(rng.draws, rng.tick), |bots|)]);
      var x := rng.Next();
      var bot := bots[Scale(x, |bots|)];
      assert allPositions == ps && userTeam == users && PlannedStep(astar, allPositions, bot) == rest;
      status := MoveBot(bot);
    }

    /** The bot at entry b steps on its planned cell, if the way to it is long enough. */
    method MoveBot(b: nat) returns (status: AiStatus)
      requires Valid() && b < |allPositions| && |SideIndices(allPositions, true)| > 0
      modifies this`allPositions, this`isUsersTurn
      ensures Valid()
      ensures match old(PlannedStep(astar, allPositions, b))
              case Some(p) =>
                status == Moved && isUsersTurn && allPositions == old(allPositions)[b := old(allPositions)[b].(position := p)]
              case None =>
                status == Stalled && isUsersTurn == old(isUsersTurn) && allPositions == old(allPositions)
    {
      var botPos := FindTarget(b);
      if botPos.Some? {
        PlannedStepFree(astar, allPositions, b);
        Relocate(b, botPos.value);
        assert Valid();
        isUsersTurn := true;
        assert Valid();
        status := Moved;
      } else {
        status := Stalled;
      }
    }

    /**
     * findTarget: the ways from entry b to every user character, reduced to the
     * shortest (ties to the later), and the index of its last but one waypoint.
     */
    method FindTarget(b: nat) returns (p: Option<int>)
      requires board.Valid() && PositionsOk(allPositions) && b < |allPositions| && |SideIndices(allPositions, true)| > 0
      ensures p == PlannedStep(astar, allPositions, b)
    {
      ghost var ps := allPositions;
      var usersTeam := SideIndices(allPositions, true);
      var targetsCoords: seq<Coord> := [];
      for t := 0 to |usersTeam|
        invariant |targetsCoords| == t
        invariant forall j :: 0 <= j < t ==> targetsCoords[j] == CellOf(ps[usersTeam[j]].position)
      {
        var position := allPositions[usersTeam[t]].position;
        targetsCoords := targetsCoords + [board.graphCells[position]];
      }
      ghost var ways := Ways(astar, ps, b);
      var waysToTargets: seq<seq<Coord>> := [];
      for t := 0 to |targetsCoords|
        invariant waysToTargets == ways[..t]
      {
        var way := StepsToTarget(b, targetsCoords[t]);
        assert way == ways[t];
        waysToTargets := waysToTargets + [way];
      }
      assert waysToTargets == ways;
      var wayToClosestTarget := waysToTargets[ClosestIndex(waysToTargets)];
      if |wayToClosestTarget| < 2 {
        return None;
      }
      p := board.GetIdx(wayToClosestTarget[|wayToClosestTarget| - 2]);
    }

    /** stepsToTarget: the path finder's way from entry b to target over the occupancy grid. */
    method StepsToTarget(b: nat, target: Coord) returns (steps: seq<Coord>)
      requires board.Valid() && PositionsOk(allPositions) && b < |allPositions| && OnBoard(target)
      ensures steps == WayTo(astar, allPositions, b, target)
    {
      var tdArr := StepsGrid(target);
      var charCoords := board.graphCells[allPositions[b].position];
      steps := astar(tdArr, charCoords, target);
    }

    /**
     * The grid of stepsToTarget: every cell free, then each user's and each
     * bot's cell blocked, then the target freed.
     */
    method StepsGrid(target: Coord) returns (tdArr: Grid)
      requires board.Valid() && PositionsOk(allPositions) && OnBoard(target)
      ensures tdArr == OccupancyGrid(allPositions, target)
    {
      var ps := allPositions;
      var usersTeam := SideIndices(ps, true);
      var botsTeam := SideIndices(ps, false);
      var order := usersTeam + botsTeam;
      SidesListed(ps, order);
      tdArr := BlockAll(ps, order);
      tdArr := tdArr[target.0 := tdArr[target.0][target.1 := 1]];
      BlockedGrid(ps, order, target);
    }

    /** The two forEach loops of stepsToTarget: the cell of each listed entry is set to 0 on a free grid. */
    method BlockAll(ps: seq<Positioned>, order: seq<nat>) returns (tdArr: Grid)
      requires board.Valid() && Listed(ps, order)
      ensures tdArr == Blocked(ps, order)
    {
      tdArr := FreeGrid;
      for t := 0 to |order|
        invariant tdArr == Blocked(ps, order[..t])
      {
        var charCoords := board.graphCells[ps[order[t]].position];
        BlockedNext(ps, order, t, tdArr, charCoords);
        tdArr := tdArr[charCoords.0 := tdArr[charCoords.0][charCoords.1 := 0]];
      }
      assert order[..|order|] == order;
    }

    // -------------------------------------------------------------------------
    // Level completion

    /**
     * checkLevel: with no user left the score is recorded; with no bot left at
     * level 4 the game is won: the users' health is scored, recorded, and the
     * level becomes 5; with no bot left below level 4 the users' health is
     * scored, the turn goes to the user and the next level is set up.
     */
    method CheckLevel()
      requires Valid()
      modifies this`statistics, this`points, this`level, this`isUsersTurn, this`allPositions, this`userTeam, this`botTeam
      modifies rng, userTeam
      ensures Valid()
      ensures var lost := if |old(userTeam)| == 0 then [old(points)] else [];
              var won := if |old(botTeam)| == 0 && old(level) == 4 then [points] else [];
              statistics == old(statistics) + lost + won
      ensures selected == old(selected)
      ensures forall c :: c in userTeam ==> c in old(userTeam) || fresh(c)
      ensures forall c :: c in botTeam ==> c in old(botTeam) || fresh(c)
      ensures |old(botTeam)| == 0 && old(level) <= 4 ==> points == old(points) + old(TeamHealth(userTeam))
      ensures |old(botTeam)| == 0 && old(level) == 4 ==>
                && level == 5 && isUsersTurn == old(isUsersTurn) && allPositions == old(allPositions)
                && userTeam == old(userTeam) && botTeam == old(botTeam) && unchanged(userTeam)
      ensures |old(botTeam)| == 0 && old(level) <= 3 ==>
                && level == old(level) + 1 && isUsersTurn
                && |userTeam| == |old(userTeam)| + Recruits(level) && userTeam[..|old(userTeam)|] == old(userTeam)
                && (forall i :: 0 <= i < |old(userTeam)| ==> userTeam[i].Figures() == LevelledUp(old(userTeam[i].Figures())))
                && |botTeam| == |userTeam|
      ensures !(|old(botTeam)| == 0 && old(level) <= 4) ==>
                && level == old(level) && points == old(points) && isUsersTurn == old(isUsersTurn)
                && allPositions == old(allPositions) && userTeam == old(userTeam) && botTeam == old(botTeam)
                && unchanged(userTeam) && unchanged(rng)
    {
      if |userTeam| == 0 {
        statistics := statistics + [points];
      }
      if |botTeam| == 0 && level <= 4 {
        Advance();
      }
    }

    /** The bot team of checkLevel is empty: level 4 wins the game, a lower level leads to the next one. */
    method Advance()
      requires Valid() && botTeam == [] && level <= 4
      modifies this`statistics, this`points, this`level, this`isUsersTurn, this`allPositions, this`userTeam, this`botTeam
      modifies rng, userTeam
      ensures Valid()
      ensures points == old(points) + old(TeamHealth(userTeam))
      ensures forall c :: c in userTeam ==> c in old(userTeam) || fresh(c)
      ensures forall c :: c in botTeam ==> c in old(botTeam) || fresh(c)
      ensures old(level) == 4 ==>
                && statistics == old(statistics) + [points] && level == 5 && isUsersTurn == old(isUsersTurn)
                && allPositions == old(allPositions) && userTeam == old(userTeam) && botTeam == old(botTeam)
                && unchanged(userTeam)
      ensures old(level) <= 3 ==>
                && statistics == old(statistics) && level == old(level) + 1 && isUsersTurn
                && |userTeam| == |old(userTeam)| + Recruits(level) && userTeam[..|old(userTeam)|] == old(userTeam)
                && (forall i :: 0 <= i < |old(userTeam)| ==> userTeam[i].Figures() == LevelledUp(old(userTeam[i].Figures())))
                && |botTeam| == |userTeam|
    {
      if level == 4 {
        Win();
      } else {
        NextLevel();
      }
    }

    /** The won game of checkLevel: the users' health is scored, the points recorded, and the level becomes 5. */
    method Win()
      requires Valid() && level == 4
      modifies this`points, this`statistics, this`level
      ensures Valid()
      ensures points == old(points) + old(TeamHealth(userTeam))
      ensures statistics == old(statistics) + [points] && level == 5
    {
      ConsistentAtLevel(allPositions, userTeam, botTeam, level, level + 1);
      GetScore();
      statistics := statistics + [points];
      level := level + 1;
    }

    /** The finished level of checkLevel: the turn goes to the user, the users' health is scored, and the next level is set up. */
    method NextLevel()
      requires Valid() && botTeam == [] && level <= 3
      modifies this`isUsersTurn, this`points, this`level, this`allPositions, this`userTeam, this`botTeam
      modifies rng, userTeam
      ensures Valid()
      ensures points == old(points) + old(TeamHealth(userTeam))
      ensures level == old(level) + 1 && isUsersTurn
      ensures |userTeam| == |old(userTeam)| + Recruits(level) && userTeam[..|old(userTeam)|] == old(userTeam)
      ensures forall i :: 0 <= i < |old(userTeam)| ==> userTeam[i].Figures() == LevelledUp(old(userTeam[i].Figures()))
      ensures |botTeam| == |userTeam|
      ensures forall c :: c in userTeam ==> c in old(userTeam) || fresh(c)
      ensures forall c :: c in botTeam ==> fresh(c)
    {
      ScoreLevel();
      GetLevelUp();
    }

    /** The steps of a finished level before getLevelUp: the user's turn, the score, the next level number. */
    method ScoreLevel()
      requires Valid() && level <= 3
      modifies this`isUsersTurn, this`points, this`level
      ensures Valid()
      ensures points == old(points) + old(TeamHealth(userTeam))
      ensures level == old(level) + 1 && isUsersTurn
    {
      ConsistentAtLevel(allPositions, userTeam, botTeam, level, level + 1);
      isUsersTurn := true;
      GetScore();
      level := level + 1;
    }

    /** getScore: the users' total health is added to the points. */
    method GetScore()
      modifies this`points
      ensures points == old(points) + TeamHealth(userTeam)
    {
      points := points + TeamHealth(userTeam);
    }

    /**
     * getLevelUp: the board is cleared, every user character levels up once,
     * recruits join the users (1 at level 2, 2 at levels 3 and 4), a new bot team
     * as large as the user team is generated, and both teams are placed.
     */
    method GetLevelUp()
      requires Valid() && 2 <= level <= 4 && botTeam == [] && |userTeam| <= Capacity(level - 1)
      modifies this`allPositions, this`userTeam, this`botTeam, rng, userTeam
      ensures Valid()
      ensures points == old(points) && isUsersTurn == old(isUsersTurn)
      ensures |userTeam| == |old(userTeam)| + Recruits(level) && userTeam[..|old(userTeam)|] == old(userTeam)
      ensures forall i :: 0 <= i < |old(userTeam)| ==> userTeam[i].Figures() == LevelledUp(old(userTeam[i].Figures()))
      ensures forall i :: |old(userTeam)| <= i < |userTeam| ==>
                fresh(userTeam[i]) && userTeam[i].kind in UserChars && 1 <= userTeam[i].level <= level - 1
      ensures |botTeam| == |userTeam|
      ensures forall i :: 0 <= i < |botTeam| ==>
                fresh(botTeam[i]) && botTeam[i].kind in BotChars && 1 <= botTeam[i].level <= level
      ensures |allPositions| == |userTeam| + |botTeam|
      ensures forall k :: 0 <= k < |userTeam| ==> allPositions[k].character == userTeam[k] && Col(allPositions[k].position) <= 1
      ensures forall k :: |userTeam| <= k < |allPositions| ==>
                allPositions[k].character == botTeam[k - |userTeam|] && Col(allPositions[k].position) >= 6
    {
      allPositions := [];
      LevelUpAll();
      // One branch per level in the source: (1, 1, 2), (2, 2, 3) and (3, 2, 4).
      Reinforce(level - 1, Recruits(level), level);
      CapacityGrowth(level);
      PlaceBoth();
    }

    /** userTeam.members.forEach(char => char.levelUp()): each user character levels up exactly once. */
    method LevelUpAll()
      requires Distinct(userTeam)
      modifies userTeam
      ensures forall i :: 0 <= i < |userTeam| ==> userTeam[i].Figures() == LevelledUp(old(userTeam[i].Figures()))
    {
      for i := 0 to |userTeam|
        invariant forall j :: 0 <= j < i ==> userTeam[j].Figures() == LevelledUp(old(userTeam[j].Figures()))
        invariant forall j :: i <= j < |userTeam| ==> userTeam[j].Figures() == old(userTeam[j].Figures())
      {
        forall j | 0 <= j < |userTeam| && j != i
          ensures userTeam[j] != userTeam[i]
        {
          DistinctAt(userTeam, i, j);
        }
        userTeam[i].LevelUp();
      }
    }

    /**
     * The two addAll lines of each level in getLevelUp: count recruits of levels
     * up to userMax join the users, then as many bots as there now are users,
     * of levels up to botMax, join the (empty) bot team.
     */
    method Reinforce(userMax: nat, count: nat, botMax: nat)
      requires UnitDraws(rng.draws) && botTeam == [] && Distinct(userTeam) && userMax >= 1 && botMax >= 1
      requires forall i :: 0 <= i < |userTeam| ==> userTeam[i].kind.IsUser()
      modifies this`userTeam, this`botTeam, rng
      ensures |userTeam| == |old(userTeam)| + count && userTeam[..|old(userTeam)|] == old(userTeam)
      ensures forall i :: |old(userTeam)| <= i < |userTeam| ==>
                fresh(userTeam[i]) && userTeam[i].kind in UserChars && 1 <= userTeam[i].level <= userMax
      ensures |botTeam| == |userTeam|
      ensures forall i :: 0 <= i < |botTeam| ==>
                fresh(botTeam[i]) && botTeam[i].kind in BotChars && 1 <= botTeam[i].level <= botMax
      ensures Distinct(userTeam) && Distinct(botTeam)
      ensures forall i :: 0 <= i < |userTeam| ==> userTeam[i].kind.IsUser()
      ensures forall i :: 0 <= i < |botTeam| ==> botTeam[i].kind.IsBot()
      ensures forall i :: 0 <= i < |old(userTeam)| ==> unchanged(userTeam[i])
    {
      RecruitUsers(UserChars, userMax, count);
      RecruitBots(botMax, |userTeam|);
    }

    /** userTeam.addAll(generateTeam(kinds, maxLevel, count)): count new characters of the given user kinds join the users. */
    method RecruitUsers(kinds: seq<Kind>, maxLevel: nat, count: nat)
      requires UnitDraws(rng.draws) && Distinct(userTeam) && maxLevel >= 1
      requires |kinds| > 0 && forall i :: 0 <= i < |kinds| ==> kinds[i].IsUser()
      requires forall i :: 0 <= i < |userTeam| ==> userTeam[i].kind.IsUser()
      modifies this`userTeam, rng
      ensures |userTeam| == |old(userTeam)| + count && userTeam[..|old(userTeam)|] == old(userTeam)
      ensures forall i :: |old(userTeam)| <= i < |userTeam| ==>
                fresh(userTeam[i]) && userTeam[i].kind in kinds && 1 <= userTeam[i].level <= maxLevel
      ensures Distinct(userTeam) && forall i :: 0 <= i < |userTeam| ==> userTeam[i].kind.IsUser()
    {
      var recruits := GenerateTeam(kinds, maxLevel, count, rng, profile);
      Recruited(recruits, kinds, maxLevel, profile, rng.draws, old(rng.tick));
      DistinctJoin(userTeam, recruits);
      userTeam := userTeam + recruits;
    }

    /** botTeam.addAll(generateTeam(botChars, maxLevel, count)) on an empty bot team: count new bots join it. */
    method RecruitBots(maxLevel: nat, count: nat)
      requires UnitDraws(rng.draws) && botTeam == [] && maxLevel >= 1
      modifies this`botTeam, rng
      ensures |botTeam| == count
      ensures forall i :: 0 <= i < |botTeam| ==>
                fresh(botTeam[i]) && botTeam[i].kind in BotChars && 1 <= botTeam[i].level <= maxLevel
      ensures Distinct(botTeam) && forall i :: 0 <= i < |botTeam| ==> botTeam[i].kind.IsBot()
    {
      var bots := GenerateTeam(BotChars, maxLevel, count, rng, profile);
      Recruited(bots, BotChars, maxLevel, profile, rng.draws, old(rng.tick));
      DistinctJoin(botTeam, bots);
      botTeam := botTeam + bots;
    }

    // -------------------------------------------------------------------------
    // Start positions and placement

    /** getUserStartPositions: the cells of the first two columns, row by row. */
    method GetUserStartPositions() returns (userPositions: seq<int>)
      ensures userPositions == StartPool(0, BoardSize, BoardSize)
      ensures forall z :: z in userPositions <==> IsCell(z) && Col(z) <= 1
      ensures Distinct(userPositions) && |userPositions| == 16
    {
      var size := BoardSize;
      userPositions := [];
      var i, j := 0, 1;
      while |userPositions| < size * 2
        invariant |userPositions| % 2 == 0 && |userPositions| <= size * 2
        invariant i == |userPositions| / 2 * size && j == i + 1
        invariant userPositions == StartPool(0, size, |userPositions| / 2)
      {
        userPositions := userPositions + [i, j];
        i, j := i + size, j + size;
      }
      PoolColumns(0);
    }

    /** getBotStartPositions: the cells of the last two columns, row by row. */
    method GetBotStartPositions() returns (botPositions: seq<int>)
      ensures botPositions == StartPool(BoardSize - 2, BoardSize, BoardSize)
      ensures forall z :: z in botPositions <==> IsCell(z) && Col(z) >= 6
      ensures Distinct(botPositions) && |botPositions| == 16
    {
      var size := BoardSize;
      botPositions := [];
      var i, j := size - 2, size - 1;
      while |botPositions| < size * 2
        invariant |botPositions| % 2 == 0 && |botPositions| <= size * 2
        invariant i == size - 2 + |botPositions| / 2 * size && j == i + 1
        invariant botPositions == StartPool(size - 2, size, |botPositions| / 2)
      {
        botPositions := botPositions + [i, j];
        i, j := i + size, j + size;
      }
      PoolColumns(size - 2);
    }

    /** getRandom: positions[Math.floor(Math.random() * positions.length)]. */
    method GetRandom(positions: seq<int>) returns (cell: int)
      requires UnitDraws(rng.draws) && |positions| > 0
      modifies rng
      ensures rng.tick == old(rng.tick) + 1
      ensures cell == positions[Scale(Draw(rng.draws, old(rng.tick)), |positions|)]
    {
      var x := rng.Next();
      cell := positions[Scale(x, |positions|)];
    }

    /**
     * addCharsToBoard: each member of the team in turn gets a random cell of the
     * pool, which is then spliced out of the pool; one entry per member is
     * appended, in team order.
     */
    method AddCharsToBoard(team: seq<Character>, positions: seq<int>)
      requires UnitDraws(rng.draws) && |team| <= |positions|
      modifies this`allPositions, rng
      ensures allPositions == old(allPositions) + Pair(team, Deal(positions, rng.draws, old(rng.tick), |team|).cells)
      ensures rng.tick == old(rng.tick) + |team|
    {
      var posArr := positions;
      var placed: seq<Positioned> := [];
      ghost var cells: seq<int> := [];
      for i := 0 to |team|
        invariant rng.tick == old(rng.tick) + i
        invariant Deal(positions, rng.draws, old(rng.tick), i) == Hand(cells, posArr)
        invariant placed == Pair(team[..i], cells)
        invariant allPositions == old(allPositions)
      {
        var item := team[i];
        ghost var now := rng.tick;
        var random := GetRandom(posArr);
        DealRound(positions, rng.draws, old(rng.tick), i, Hand(cells, posArr), now, random);
        PairPrefix(team, i, cells, random);
        placed := placed + [Positioned(item, random)];
        posArr := SpliceOne(posArr, IndexOf(posArr, random));
        cells := cells + [random];
      }
      allPositions := allPositions + placed;
      assert team[..|team|] == team;
    }

    // -------------------------------------------------------------------------
    // Starting a game

    /** init: two user characters of any user kind and two bots, all of level 1, placed on their pools. */
    method Init()
      requires Valid() && userTeam == [] && botTeam == [] && allPositions == []
      modifies this`userTeam, this`botTeam, this`allPositions, rng
      ensures Valid()
      ensures |userTeam| == 2 && |botTeam| == 2
      ensures forall i :: 0 <= i < 2 ==> fresh(userTeam[i]) && userTeam[i].kind in UserChars && userTeam[i].level == 1
      ensures forall i :: 0 <= i < 2 ==> fresh(botTeam[i]) && botTeam[i].kind in BotChars && botTeam[i].level == 1
      ensures |allPositions| == |userTeam| + |botTeam|
      ensures forall k :: 0 <= k < |userTeam| ==> allPositions[k].character == userTeam[k] && Col(allPositions[k].position) <= 1
      ensures forall k :: |userTeam| <= k < |allPositions| ==>
                allPositions[k].character == botTeam[k - |userTeam|] && Col(allPositions[k].position) >= 6
    {
      NewTeams(UserChars);
      PlaceBoth();
    }

    /**
     * The two addAll lines of init and onNewGameClick: two level-1 characters
     * of the given user kinds join the (empty) user team, two level-1 bots the
     * (empty) bot team.
     */
    method NewTeams(kinds: seq<Kind>)
      requires UnitDraws(rng.draws) && userTeam == [] && botTeam == []
      requires |kinds| > 0 && forall i :: 0 <= i < |kinds| ==> kinds[i].IsUser()
      modifies this`userTeam, this`botTeam, rng
      ensures Roster(userTeam, true, 1) && Roster(botTeam, false, 1)
      ensures |userTeam| == 2 && |botTeam| == 2
      ensures forall i :: 0 <= i < 2 ==> fresh(userTeam[i]) && userTeam[i].kind in kinds && userTeam[i].level == 1
      ensures forall i :: 0 <= i < 2 ==> fresh(botTeam[i]) && botTeam[i].kind in BotChars && botTeam[i].level == 1
    {
      RecruitUsers(kinds, 1, 2);
      RecruitBots(1, 2);
    }

    /**
     * onNewGameClick: new empty teams, nothing selected, level 1, no points, an
     * empty board and the user's turn (the statistics are kept); then two level-1
     * users, bowmen or swordsmen only, and two level-1 bots are placed.
     */
    method OnNewGameClick()
      requires Valid()
      modifies this, rng
      ensures Valid()
      ensures selected == None && level == 1 && points == 0.0 && isUsersTurn
      ensures statistics == old(statistics)
      ensures |userTeam| == 2 && |botTeam| == 2
      ensures forall i :: 0 <= i < 2 ==>
                fresh(userTeam[i]) && userTeam[i].kind in [Bowman, Swordsman] && userTeam[i].level == 1
      ensures forall i :: 0 <= i < 2 ==> fresh(botTeam[i]) && botTeam[i].kind in BotChars && botTeam[i].level == 1
      ensures |allPositions| == |userTeam| + |botTeam|
      ensures forall k :: 0 <= k < |userTeam| ==> allPositions[k].character == userTeam[k] && Col(allPositions[k].position) <= 1
      ensures forall k :: |userTeam| <= k < |allPositions| ==>
                allPositions[k].character == botTeam[k - |userTeam|] && Col(allPositions[k].position) >= 6
    {
      userTeam := [];
      botTeam := [];
      selected := None;
      level := 1;
      points := 0.0;
      allPositions := [];
      isUsersTurn := true;
      NewTeams([Bowman, Swordsman]);
      PlaceBoth();
    }

    /** addCharsToBoard(userTeam, getUserStartPositions()): the users get distinct cells of columns 0 and 1. */
    method PlaceUsers() returns (ghost cells: seq<int>)
      requires UnitDraws(rng.draws) && |userTeam| <= 16 && allPositions == []
      modifies this`allPositions, rng
      ensures |cells| == |userTeam| && Distinct(cells)
      ensures allPositions == Pair(userTeam, cells)
      ensures forall i :: 0 <= i < |cells| ==> IsCell(cells[i]) && Col(cells[i]) <= 1
    {
      var userPositions := GetUserStartPositions();
      ghost var t := rng.tick;
      AddCharsToBoard(userTeam, userPositions);
      cells := Deal(userPositions, rng.draws, t, |userTeam|).cells;
      DealDistinct(userPositions, rng.draws, t, |userTeam|);
      DealFromPool(userPositions, rng.draws, t, |userTeam|);
    }

    /** addCharsToBoard(botTeam, getBotStartPositions()): the bots get distinct cells of columns 6 and 7. */
    method PlaceBots() returns (ghost cells: seq<int>)
      requires UnitDraws(rng.draws) && |botTeam| <= 16
      modifies this`allPositions, rng
      ensures |cells| == |botTeam| && Distinct(cells)
      ensures allPositions == old(allPositions) + Pair(botTeam, cells)
      ensures forall i :: 0 <= i < |cells| ==> IsCell(cells[i]) && Col(cells[i]) >= 6
    {
      var botPositions := GetBotStartPositions();
      ghost var t := rng.tick;
      AddCharsToBoard(botTeam, botPositions);
      cells := Deal(botPositions, rng.draws, t, |botTeam|).cells;
      DealDistinct(botPositions, rng.draws, t, |botTeam|);
      DealFromPool(botPositions, rng.draws, t, |botTeam|);
    }

    /** The two addCharsToBoard calls that end init, getLevelUp and onNewGameClick, on an empty board. */
    method PlaceBoth()
      requires Setup() && allPositions == []
      requires Roster(userTeam, true, level) && Roster(botTeam, false, level)
      modifies this`allPositions, rng
      ensures Valid()
      ensures |allPositions| == |userTeam| + |botTeam|
      ensures forall k :: 0 <= k < |userTeam| ==> allPositions[k].character == userTeam[k] && Col(allPositions[k].position) <= 1
      ensures forall k :: |userTeam| <= k < |allPositions| ==>
                allPositions[k].character == botTeam[k - |userTeam|] && Col(allPositions[k].position) >= 6
    {
      assert |userTeam| <= Capacity(level) <= 16;
      ghost var us := PlaceUsers();
      ghost var bs := PlaceBots();
      PlacedSides(allPositions, userTeam, botTeam, us, bs, level);
    }
  }

  // ---------------------------------------------------------------------------
  // The AI's choice of target

  /** Bot entry b has user entry u within its attack range. */
  ghost predicate InReach(ps: seq<Positioned>, b: nat, u: nat)
    requires b < |ps| && u < |ps|
  {
    InRange(ps[b].position, ps[b].character.attackRange, ps[u].position)
  }

  /** Some bot on the board has some user character within its attack range. */
  ghost predicate AnyInReach(ps: seq<Positioned>) {
    var bots, users := SideIndices(ps, false), SideIndices(ps, true);
    exists x, y :: 0 <= x < |bots| && 0 <= y < |users| && InReach(ps, bots[x], users[y])
  }

  /**
   * Bot x and user y (positions in the filtered lists) are in reach, and no pair
   * after them in the scan order of aiResponse is: they are the pair it keeps.
   */
  ghost predicate LastInReach(ps: seq<Positioned>, x: nat, y: nat) {
    var bots, users := SideIndices(ps, false), SideIndices(ps, true);
    && x < |bots| && y < |users| && InReach(ps, bots[x], users[y])
    && forall x', y' :: 0 <= x' < |bots| && 0 <= y' < |users| && GameController.After(Some((x, y)), x', y') ==>
         !InReach(ps, bots[x'], users[y'])
  }

  // ---------------------------------------------------------------------------
  // The AI's way to the closest user

  /** stepsToTarget for entry b and the character of entry u: the path finder's way over the occupancy grid. */
  ghost function Way(find: (Grid, Coord, Coord) -> seq<Coord>, ps: seq<Positioned>, b: nat, u: nat): seq<Coord>
    requires b < |ps| && u < |ps|
  {
    WayTo(find, ps, b, CellOf(ps[u].position))
  }

  /** The path finder's way from entry b to the cell target, over the occupancy grid with target freed. */
  ghost function WayTo(find: (Grid, Coord, Coord) -> seq<Coord>, ps: seq<Positioned>, b: nat, target: Coord): seq<Coord>
    requires b < |ps|
  {
    find(OccupancyGrid(ps, target), CellOf(ps[b].position), target)
  }

  /** The ways the path finder gives from entry b to each user character, in list order. */
  ghost function Ways(find: (Grid, Coord, Coord) -> seq<Coord>, ps: seq<Positioned>, b: nat): (ways: seq<seq<Coord>>)
    requires b < |ps|
    ensures |ways| == |SideIndices(ps, true)|
    ensures forall j {:trigger ways[j]} :: 0 <= j < |ways| ==> ways[j] == Way(find, ps, b, SideIndices(ps, true)[j])
  {
    var users := SideIndices(ps, true);
    seq(|users|, j requires 0 <= j < |users| => Way(find, ps, b, users[j]))
  }

  /**
   * The cell the bot of entry b steps to: the last but one waypoint of the
   * shortest way (the last among equals) to a user character, or none when
   * that way is shorter than two waypoints.
   */
  ghost function PlannedStep(find: (Grid, Coord, Coord) -> seq<Coord>, ps: seq<Positioned>, b: nat): Option<int>
    requires b < |ps| && |SideIndices(ps, true)| > 0
  {
    var ways := Ways(find, ps, b);
    var way := ways[ClosestIndex(ways)];
    if |way| < 2 then None
    else
      var c := way[|way| - 2];
      if OnBoard(c) then Some(8 * c.0 + c.1) else None
  }

  /** The last but one waypoint of a way to a character, when there is one, is a cell nobody stands on. */
  lemma WayFree(find: (Grid, Coord, Coord) -> seq<Coord>, ps: seq<Positioned>, b: nat, u: nat)
    requires AstarSound(find) && b < |ps| && u < |ps|
    ensures |Way(find, ps, b, u)| >= 2 ==>
              var c := Way(find, ps, b, u)[|Way(find, ps, b, u)| - 2];
              OnBoard(c) && !Occupied(ps, 8 * c.0 + c.1)
  {
    var target := CellOf(ps[u].position);
    var g := OccupancyGrid(ps, target);
    var way := find(g, CellOf(ps[b].position), target);
    assert PathSound(g, target, way);
    if |way| >= 2 {
      FreeCellUnoccupied(ps, target, way[|way| - 2]);
    }
  }

  /** The AI never steps onto a cell someone stands on, its own included. */
  lemma PlannedStepFree(find: (Grid, Coord, Coord) -> seq<Coord>, ps: seq<Positioned>, b: nat)
    requires AstarSound(find) && b < |ps| && |SideIndices(ps, true)| > 0
    ensures PlannedStep(find, ps, b).Some? ==>
              IsCell(PlannedStep(find, ps, b).value) && !Occupied(ps, PlannedStep(find, ps, b).value)
  {
    var users := SideIndices(ps, true);
    var ways := Ways(find, ps, b);
    var j := ClosestIndex(ways);
    assert ways[j] == Way(find, ps, b, users[j]);
    WayFree(find, ps, b, users[j]);
  }

  /** Entry k leaving the board, and its character its own team, keeps the placement and the rosters. */
  lemma FallKeepsInvariants(ps: seq<Positioned>, k: nat, users: seq<Character>, bots: seq<Character>, level: int)
    requires PositionsOk(ps) && Placement(ps, users, bots) && k < |ps|
    requires Roster(users, true, level) && Roster(bots, false, level)
    ensures ps[k].character.kind.IsUser() ==> Consistent(SpliceOne(ps, k), Without(users, ps[k].character), bots, level)
    ensures !ps[k].character.kind.IsUser() ==> Consistent(SpliceOne(ps, k), users, Without(bots, ps[k].character), level)
    ensures !Occupied(SpliceOne(ps, k), ps[k].position)
  {
    RemovalKeepsInvariants(ps, k, users, bots);
    var c := ps[k].character;
    if c.kind.IsUser() {
      assert c !in bots;
      WithoutAbsent(bots, c);
    } else {
      assert c !in users;
      WithoutAbsent(users, c);
    }
  }

  /** Every member of a generated team has an allowed kind and a level from 1 to maxLevel. */
  lemma Recruited(team: seq<Character>, allowed: seq<Kind>, maxLevel: nat, profile: Kind -> Profile,
                  draws: nat -> real, t: nat)
    requires |allowed| > 0 && UnitDraws(draws) && maxLevel >= 1
    requires forall i :: 0 <= i < |team| ==> Yielded(team[i], allowed, maxLevel, profile, draws, t + 2 * i)
    ensures forall i :: 0 <= i < |team| ==> team[i].kind in allowed && 1 <= team[i].level <= maxLevel
  {
    forall i | 0 <= i < |team|
      ensures team[i].kind in allowed && 1 <= team[i].level <= maxLevel
    {
      YieldedBounds(team[i], allowed, maxLevel, profile, draws, t + 2 * i);
    }
  }
}
