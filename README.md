# RetroGame turn engine, modelled in Dafny

RetroGame is a turn-based tactics game played on an 8×8 board. The user's three character kinds (bowman, swordsman, magician) fight the computer's three (daemon, undead, vampire) over four levels. This project models the game's core and proves properties of it:

- the board's cell table and its move/attack reach `getRange`;
- characters: the guard against constructing the abstract base class, and `levelUp`;
- the random character and team generators;
- the `GameController` turn engine:
  - the click handler;
  - the user's attack and move;
  - the computer's response (strike the last user in reach, otherwise walk a random bot towards the closest user);
  - level completion, scoring and the level-up rebuild of both teams;
  - start positions, random placement, and the new-game reset.

Files and modules:

| file | module | contents |
|---|---|---|
| `wrappers.dfy` | `Wrappers` | `Option` and `Result` |
| `board.dfy` | `BoardGeometry` | class `Board` (`genBoard`, `getIdx`, `getRange`), the square `getRange` pushes, its clean-up scan, worked examples |
| `character.dfy` | `CharacterModel` | the kinds, class `Character` (`levelUp`), `Create` (the constructor guard) |
| `generators.dfy` | `Generators` | `Math.random` as an oracle (`Random`), class `CharacterGenerator`, `GenerateTeam` |
| `rules.dfy` | `GameRules` | pure definitions the controller relies on: damage, `find`/`filter`/`reduce`/`indexOf`/`splice` over the board list, start pools, the random deal of `addCharsToBoard`, the occupancy grid, and the invariants of the list of placed characters |
| `game_controller.dfy` | `GameControl` | class `GameController` with the game state's fields, and the planned AI step |

State and inputs:

- **Game state.** The fields of the game state object (`selected`, `isUsersTurn`, `level`, `points`, `statistics`, `allPositions`) are fields of the controller.
- **Invariant.** `GameController.Valid` holds after every handler:
  - the level is between 1 and 5, and the selection is a cell;
  - each team is a list of distinct characters of its own side, no larger than the level allows;
  - every placed character is a member of one of the teams, and every member is placed exactly once, on a cell of its own.
- **`Math.random`** is an endless stream of draws in [0, 1), read through a cursor. Every random choice is therefore a function of the draws. `Deal` states exactly which cells `addCharsToBoard` hands out.
- **Path finder.** The third-party A* library is a function parameter `astar`. The model assumes only what `GameRules.AstarSound` states about it.
- **Character figures.** The per-kind attack, defence and radii come from subclasses that are not part of this model. They are a parameter `profile`.

Behaviour of the code that may surprise a reader, kept as written:

- **`getRange` origin and cell 0.** `getRange` does not always leave out the origin cell. Its backward clean-up scan stops at the first entry whose row is off the board, so when the square's rows leave the board, the origin stays in the result (`BoardGeometry.OriginReturned`). Cell 0 is never returned, because of the `!!index` filter (`BoardGeometry.ZeroNeverReturned`).
- **Which bot strikes.** The AI strikes with the *last* bot/user pair in reach, in list order, not the first (`GameControl.GameController.FindAttackPair`).
- **The moving bot's own cell.** The grid given to the path finder blocks the moving bot's own cell as well as every other occupied cell. Only the target is freed (`GameRules.OccupancyGrid`).
- **No usable path.** When the shortest way has fewer than two waypoints, the code reads an undefined waypoint and throws; it does not forfeit the move. The model returns `Stalled`, and the turn stays with the AI.
- **Recruits.** Recruits join the users at levels 2, 3 *and* 4. Bots are regenerated as many as the users.
- **Selection across levels.** `getLevelUp` keeps the selected cell while it places everyone afresh, so the selection can then point at a bot or at an empty cell.

## Model

| member | source | states |
|---|---|---|
| `BoardGeometry.Board.constructor` | src/js/Board.js:2-5 | a new board has its cell table built (`Valid`) |
| `BoardGeometry.Board.GenBoard` | src/js/Board.js:7-17 | after the two nested loops the table maps exactly the keys 0..63, key z to [z div 8, z mod 8] |
| `BoardGeometry.CellTableInverse` | src/js/Board.js:7-17 | the cell table is a bijection between 0..63 and the on-board coordinates: z maps to c exactly when c is on the board and z = 8·row + col |
| `BoardGeometry.Board.GetIdx` | src/js/Board.js:19-30 | the key found maps to the coordinate asked for; none is found exactly when no key maps to it; the result is 8·row + col for an on-board coordinate and undefined otherwise |
| `BoardGeometry.Board.GetRange` | src/js/Board.js:32-64 | z is returned exactly when z is in 1..63, within Chebyshev distance r of idx, and is not the origin in the case where the scan splices the origin out |
| `BoardGeometry.PushSquare` | src/js/Board.js:39-43 | the pushed list is the (2r+1)² square around the origin, column offset in the outer loop and row offset in the inner one |
| `BoardGeometry.SquareHas` | src/js/Board.js:39-43 | a coordinate is in the square exactly when both its row and its column lie within r of the origin's |
| `BoardGeometry.SquareCentreUnique` | src/js/Board.js:39-43 | the origin occurs in the square exactly once, at position r·(2r+1) + r |
| `BoardGeometry.CleanUp` | src/js/Board.js:44-56 | on the board, the cleaned list holds the pushed coordinates, minus the origin exactly when every row of the square is on the board |
| `BoardGeometry.SquareRowWitness` | src/js/Board.js:44-51 | when some row of the square is off the board, an off-board entry comes after the origin in the list, so the backward scan stops there first |
| `BoardGeometry.Board.KeepIndices` | src/js/Board.js:57-62 | z is kept exactly when z is in 1..63 and its coordinate is in the list (`getIdx` undefined or 0 is dropped) |
| `BoardGeometry.RadiusZeroEmpty` | src/js/Board.js:32-64 | radius 0 yields nothing: cell 0 is filtered, and any other origin is spliced |
| `BoardGeometry.OriginReturned` | src/js/Board.js:44-51 | the origin is returned exactly when it is not cell 0 and some row of its square is off the board |
| `BoardGeometry.ZeroNeverReturned` | src/js/Board.js:57-62 | cell 0 is never in any range |
| `BoardGeometry.CornerRange` | src/js/Board.js:32-64 | the radius-1 range of corner 0 is exactly {1, 8, 9} |
| `BoardGeometry.InnerRange` | src/js/Board.js:32-64 | the radius-1 range of cell 27 is exactly its 8 neighbours |
| `BoardGeometry.RightEdgeRange` | src/js/Board.js:44-56 | the radius-1 range of cell 31 is exactly {22, 30, 38, 23, 39}: the rows fit, so the origin is spliced, and no column-8 coordinate survives |
| `BoardGeometry.LastCornerRange` | src/js/Board.js:44-51 | the radius-1 range of cell 63 is {54, 62, 55, 63}: the scan stops at a row-8 entry before reaching the origin, which stays |
| `CharacterModel.Create` | src/js/Character.js:2-11 | `new` on the base class fails with the "forbidden" message, and on any subclass yields a fresh character of that kind, its tag, the given level and 50 health; failure happens exactly for the base class |
| `CharacterModel.Character.constructor` | src/js/Character.js:2-11 | level as given, 50 health, the kind's tag; attack, defence and radii from the subclass's profile |
| `CharacterModel.TagNamesKind` | src/js/Character.js:2-11 | two kinds carry the same type tag exactly when they are the same kind |
| `CharacterModel.SidesPartition` | src/js/GameController.js:21-22 | every kind belongs to exactly one of the user's and the bot's sides |
| `CharacterModel.LevelledUp` | src/js/Character.js:13-22 | the level rises by 1; attack and defence never shrink and are either unchanged or scaled by (80 + health)/100; health is at most 100 and at most health + 80, and equals one of them |
| `CharacterModel.Character.LevelUp` | src/js/Character.js:13-22 | the new figures are `LevelledUp` of the old ones, with all new values computed before any is assigned |
| `CharacterModel.LevelUpHeals` | src/js/Character.js:16 | with at least 20 health, levelling up restores health to 100 |
| `CharacterModel.LevelUpGrowth` | src/js/Character.js:14-15 | with non-negative attack, defence and health of at least 20, both figures are scaled by (80 + health)/100 |
| `CharacterModel.LevelUpKeepsAlive` | src/js/Character.js:16 | a living character (health > 0) has health in (80, 100] after levelling up |
| `Generators.Random.Next` | src/js/generators.js:10-11 | `Math.random()` returns the next draw, which lies in [0, 1), and advances the cursor by one |
| `Generators.Scale` | src/js/generators.js:10-11 | `Math.floor(x·n)` is an index into a list of n > 0 elements |
| `Generators.ScaleFloor` | src/js/generators.js:10-11 | Scale(x, n) is the floor of x·n |
| `Generators.CharacterGenerator.Next` | src/js/generators.js:8-14 | each request takes two draws: the first picks the kind, the second the level floor(x·maxLevel) + 1; the character is freshly built |
| `Generators.YieldedBounds` | src/js/generators.js:10-12 | a yielded character has an allowed kind and a level from 1 to maxLevel (1 when maxLevel is 0) |
| `Generators.GenerateTeam` | src/js/generators.js:16-23 | the team has max(count, 0) distinct fresh members; member i is the one the generator yields from draws t + 2i and t + 2i + 1 |
| `GameRules.Damage` | src/js/GameController.js:115 | damage is at least attack − defence and at least a tenth of the attack, and equals one of them |
| `GameRules.DamagePositive` | src/js/GameController.js:115 | a positive attack always does positive damage |
| `GameRules.DamageOnWeakDefence` | src/js/GameController.js:115 | against a defence of at most 90 % of the attack, the damage is attack − defence |
| `GameRules.DamageOnStrongDefence` | src/js/GameController.js:115 | against a defence of at least 90 % of the attack, the damage is a tenth of the attack |
| `GameRules.FindAt` | src/js/GameController.js:397-399 | the index found holds the cell asked for and no earlier entry does; none is found exactly when no entry holds it |
| `GameRules.SideIndices` | src/js/GameController.js:213-222 | the filter keeps exactly the indices of one side's entries |
| `GameRules.SideIndicesAscending` | src/js/GameController.js:213-222 | a side's indices come in list order, each once |
| `GameRules.ClosestIndex` | src/js/GameController.js:202-205 | the way kept by the reduce is a shortest one, and every later way is strictly longer, so ties go to the later way |
| `GameRules.TeamHealth` | src/js/GameController.js:318-320 | the sum of healths is non-negative for non-negative healths, and positive for a non-empty team of living characters |
| `GameRules.IndexOf` | src/js/GameController.js:377 | the first index holding x, and -1 exactly when x is absent |
| `GameRules.SpliceOne` | src/js/GameController.js:322-325 | `splice(k, 1)` removes the element at k and shifts the later ones down; a negative k counts from the end (k = -1 removes the last element), and one below -length removes the first; a k past the end changes nothing |
| `GameRules.SpliceNegative` | src/js/GameController.js:322-325 | `splice(-1, 1)` drops the last element, and a start below -length drops the first |
| `GameRules.Without` | src/js/GameController.js:123 | deleting c keeps exactly the members other than c, and keeps them distinct |
| `GameRules.WithoutMember` | src/js/GameController.js:123 | deleting a member of a distinct team shortens it by exactly one |
| `GameRules.CapacityGrowth` | src/js/GameController.js:296-310 | the recruits of each level fill exactly the growth of the team size (2, 3, 5, 7), which never exceeds a start pool |
| `GameRules.StartPool` | src/js/GameController.js:349-365 | the pool has two entries per row, entry k being first + (k div 2)·size + k mod 2 |
| `GameRules.PoolColumns` | src/js/GameController.js:349-365 | on the 8×8 board the pool starting at column `first` holds exactly the cells of columns `first` and `first` + 1, each once |
| `GameRules.Deal` | src/js/GameController.js:372-379 | after n members, n cells have been handed out and the pool is n shorter |
| `GameRules.DealSplits` | src/js/GameController.js:372-379 | the cells handed out and the cells left together are the pool's cells, each as often as in the pool |
| `GameRules.DealFromPool` | src/js/GameController.js:372-379 | every cell handed out comes from the pool |
| `GameRules.DealDistinct` | src/js/GameController.js:372-379 | a pool of distinct cells hands out distinct cells, so no two characters share a start cell |
| `GameRules.SpliceMultiset` | src/js/GameController.js:377 | splicing out position k removes exactly one copy of its element |
| `GameRules.OccupancyGrid` | src/js/GameController.js:155-169 | the grid is 8×8; a cell is 0 exactly when someone stands on it, except that the target is 1 |
| `GameRules.BlockedAt` | src/js/GameController.js:157-166 | after blocking the cells of the listed entries, a cell is 0 exactly when a listed entry stands on it |
| `GameRules.BlockedGrid` | src/js/GameController.js:155-169 | blocking every entry's cell and then freeing the target gives the occupancy grid |
| `GameRules.FreeCellUnoccupied` | src/js/GameController.js:155-169 | a free cell of the grid other than the target holds nobody |
| `GameRules.FoundAt` | src/js/GameController.js:397-399 | in a well-formed list, `getChar` on an entry's cell finds that entry |
| `GameRules.RemovalKeepsInvariants` | src/js/GameController.js:322-325 | splicing out an entry and deleting its character from the teams keeps cells and characters distinct, every remaining member placed, and the cell empty |
| `GameRules.MoveKeepsInvariants` | src/js/GameController.js:136 | moving one entry to a free cell keeps cells and characters distinct and every member placed |
| `GameRules.PlacedSides` | src/js/GameController.js:313-314 | users on distinct cells of columns 0–1 followed by bots on distinct cells of columns 6–7 give a consistent board, users first, in team order |
| `GameControl.GameController.constructor` | src/js/GameController.js:23-26 | empty teams and board, nothing selected, level 1, no points, no statistics, the user's turn; `Valid` holds |
| `GameControl.GameController.GetChar` | src/js/GameController.js:397-399 | the entry found stands on idx, and there is none exactly when the cell is empty |
| `GameControl.GameController.GetSelectedChar` | src/js/GameController.js:345-347 | the entry found stands on the selected cell, and one is found whenever the selected cell is occupied |
| `GameControl.GameController.IsValidMove` | src/js/GameController.js:327-334 | true exactly when a character is selected and the cell is in 1..63 within its move distance of the selected cell |
| `GameControl.GameController.IsAttack` | src/js/GameController.js:336-343 | true exactly when a character is selected and the cell is in 1..63 within its attack range of the selected cell |
| `GameControl.GameController.IsUserChar` | src/js/GameController.js:381-387 | true exactly when the first entry on the cell holds a user character; the cell is then not a bot's |
| `GameControl.GameController.IsBotChar` | src/js/GameController.js:389-395 | true exactly when the first entry on the cell holds a bot |
| `GameControl.GameController.Classify` | src/js/GameController.js:45-76 | each outcome holds exactly when its condition does: ignored at level 5 or with no users; an attack on the user's turn on a bot in attack reach; a move on the user's turn to a free cell in move reach; the invalid-move notice on the user's turn, with a selection, on a free cell in neither reach; the not-your-unit notice on a bot out of attack reach; selection on a user character |
| `GameControl.GameController.OnCellClick` | src/js/GameController.js:45-76 | the outcome is the branch `Classify` names; the notice branches change nothing; selecting sets only the selection; after an attack the bot clicked has lost `Damage(selected's attack, its defence)` and, with no health left, is off its team and the board; after a move a selected user character stands on the cell clicked, unless the AI's answer struck it down and the cell is empty; `Valid` is kept |
| `GameControl.GameController.GetAttack` | src/js/GameController.js:111-133 | off the user's turn nothing changes; on it, the bot clicked loses `Damage(selected's attack, its defence)` and, with no health left, ends off its team and the board; `Valid` is kept |
| `GameControl.GameController.AttackChain` | src/js/GameController.js:119-130 | the bot clicked loses `Damage(selected's attack, its defence)` and no later step changes its health; with no health left it ends off its team and the board; `Valid` is kept |
| `GameControl.GameController.CheckAndRespond` | src/js/GameController.js:128-129 | `checkLevel` and `aiResponse` leave every bot's health alone, and a bot already off its team stays off it and off the board |
| `GameControl.GameController.NotOnUserTeam` | src/js/GameController.js:213-222 | a bot is never a member of the user team |
| `GameControl.GameController.GetUsersTurn` | src/js/GameController.js:135-142 | the selected user character stands on the cell it moved to, unless the AI's answer struck it down and the cell is empty; `Valid` is kept |
| `GameControl.GameController.AiKeepsUnit` | src/js/GameController.js:209-273 | the AI's answer leaves a user character on its cell unless it strikes that character down |
| `GameRules.SameCharacterSameEntry` | src/js/GameController.js:397-399 | in a well-formed board list a character has one entry |
| `GameRules.StandsOnSplice` | src/js/GameController.js:322-325 | splicing out one entry leaves every other character on its cell |
| `GameControl.GameController.PlayerStrike` | src/js/GameController.js:111-124 | the bot loses `Damage(attacker's attack, its defence)`; a bot left with no health is spliced out of the board and deleted from the bot team, and its cell is empty; otherwise the board and the teams are unchanged |
| `GameControl.GameController.Fall` | src/js/GameController.js:120-124 | the character's entry is spliced out and the character is deleted from its own team only; `Valid` is kept |
| `GameControl.GameController.RemoveChar` | src/js/GameController.js:322-325 | the entry `getChar` finds is spliced out; with none, `indexOf` gives -1 and the last entry goes |
| `GameControl.GameController.MoveSelected` | src/js/GameController.js:135-140 | only the selected entry moves, to idx; the selection follows it; the turn passes to the AI; `Valid` is kept |
| `GameControl.GameController.Relocate` | src/js/GameController.js:136 | one entry moves to a free cell and `Valid` is kept |
| `GameControl.GameController.FindAttackPair` | src/js/GameController.js:230-238 | the pair found is in reach, and no pair after it in scan order is in reach, so it is the last pair in reach; none is found exactly when no pair is in reach |
| `GameControl.GameController.AiResponse` | src/js/GameController.js:209-273 | nothing happens on the user's turn, nor exactly when a side has nobody on the board; a strike happens exactly when some bot has a user in attack reach, and it is by the last such pair in scan order: the user loses `Damage(bot's attack, user's defence)` and leaves the board, its team and the selection when its health is gone, every other user and the draws being untouched; otherwise one draw picks a bot, which moves to `PlannedStep` or, with none, stays, and the users, their team and the selection are untouched; the bots, the level and the points never change; the points are recorded exactly when the strike leaves no user; after a strike or a move the turn is the user's; `Valid` is kept |
| `GameControl.GameController.AiTurn` | src/js/GameController.js:230-272 | with both sides on the board: the strike by the last pair in reach, exactly when there is one, or else a random bot's step, with the same effects as `AiResponse` |
| `GameControl.GameController.ReachFound` | src/js/GameController.js:229-238 | the scan finds a pair exactly when some bot has a user in reach, and the pair it finds is the last one in reach |
| `GameControl.GameController.AiAttack` | src/js/GameController.js:239-257 | the strike by the pair found, then `checkLevel`, which finds the bot side still on the board: level, points and draws are unchanged, users other than the target are untouched, and the points are recorded exactly when no user is left |
| `GameControl.GameController.OnTeam` | src/js/GameController.js:213-222 | every placed character of the user side is a member of the user team, and every other one a member of the bot team |
| `GameControl.GameController.AiStrike` | src/js/GameController.js:240-257 | the user loses `Damage(bot's attack, user's defence)`; a user left with no health is removed from the board and the team, and the selection is cleared; the turn returns to the user |
| `GameControl.GameController.AiMove` | src/js/GameController.js:258-272 | one draw picks the bot; it moves to `PlannedStep` and the turn passes to the user, or, with no step, nothing changes; the users, their team, the selection, level, points and statistics are untouched |
| `GameControl.GameController.MoveBot` | src/js/GameController.js:268-272 | the bot moves to `PlannedStep` and the turn passes to the user, or, with no step, nothing changes; `Valid` is kept, since the step is a free cell |
| `GameControl.GameController.FindTarget` | src/js/GameController.js:187-207 | the step returned is `PlannedStep`: the last but one waypoint of the shortest way to a user, the later one among equals |
| `GameControl.PlannedStepFree` | src/js/GameController.js:187-207 | the planned step, when there is one, is a board cell nobody stands on, the bot's own cell included |
| `GameControl.WayFree` | src/js/GameController.js:144-185 | the last but one waypoint of a way to a character is a board cell nobody stands on |
| `GameControl.GameController.StepsToTarget` | src/js/GameController.js:144-185 | the way is the path finder's answer on the occupancy grid, from the bot's cell to the target |
| `GameControl.GameController.StepsGrid` | src/js/GameController.js:155-169 | the grid built is exactly the occupancy grid for the target |
| `GameControl.GameController.BlockAll` | src/js/GameController.js:157-166 | the two loops block exactly the cells of the listed entries |
| `GameControl.GameController.CheckLevel` | src/js/GameController.js:275-294 | with no users the points are recorded; with no bots at level 4 the users' total health is added, the points recorded and the level becomes 5; with no bots below level 4 the health is added, the turn goes to the user, the level rises by one, every survivor levels up once, recruits join, and the bots match the users in number; otherwise nothing changes; `Valid` is kept |
| `GameControl.GameController.Win` | src/js/GameController.js:280-286 | points grow by the users' total health and are recorded, and the level becomes 5 |
| `GameControl.GameController.Advance` | src/js/GameController.js:280-293 | with no bots left, the users' health is scored; at level 4 the points are recorded and the level becomes 5; below it the next level is set up with recruits and as many fresh bots as users |
| `GameControl.GameController.NextLevel` | src/js/GameController.js:287-293 | the user's turn, the score, the next level; every survivor levels up once, recruits join, and a team of fresh bots as large as the users is placed |
| `GameControl.GameController.ScoreLevel` | src/js/GameController.js:287-291 | the user's turn, points grown by the users' total health, the next level |
| `GameControl.GameController.GetScore` | src/js/GameController.js:318-320 | points grow by the users' total health |
| `GameControl.GameController.GetLevelUp` | src/js/GameController.js:296-316 | every user levels up once; 1 or 2 recruits of levels up to level − 1 join; a fresh bot team as large as the users, of levels up to the level; users on columns 0–1, then bots on columns 6–7; `Valid` is kept |
| `GameControl.GameController.LevelUpAll` | src/js/GameController.js:298 | each user character levels up exactly once |
| `GameControl.GameController.Reinforce` | src/js/GameController.js:299-310 | the recruits are appended to the users, then a bot team as large as the users is generated; both teams stay distinct and one-sided |
| `GameControl.GameController.GetUserStartPositions` | src/js/GameController.js:349-356 | the 16 pool cells are exactly the cells of columns 0 and 1, each once |
| `GameControl.GameController.GetBotStartPositions` | src/js/GameController.js:358-365 | the 16 pool cells are exactly the cells of columns 6 and 7, each once |
| `GameControl.GameController.GetRandom` | src/js/GameController.js:367-370 | one draw, and the cell at index floor(draw · length) |
| `GameControl.GameController.RecruitUsers` | src/js/GameController.js:299-310 | `count` fresh characters of the given user kinds, of levels 1 to `maxLevel`, are appended to the users, who stay distinct |
| `GameControl.GameController.RecruitBots` | src/js/GameController.js:299-310 | an empty bot team gains `count` fresh distinct bots of levels 1 to `maxLevel` |
| `GameControl.GameController.NewTeams` | src/js/GameController.js:31-32 | two fresh level-1 characters of the given user kinds and two fresh level-1 bots form the teams |
| `GameControl.GameController.PlaceUsers` | src/js/GameController.js:33 | the users are placed in team order on distinct cells of columns 0 and 1 |
| `GameControl.GameController.PlaceBots` | src/js/GameController.js:34 | the bots are appended in team order on distinct cells of columns 6 and 7 |
| `GameControl.GameController.AddCharsToBoard` | src/js/GameController.js:372-379 | one entry per member is appended, in team order, on the cells `Deal` hands out; one draw per member |
| `GameControl.GameController.PlaceBoth` | src/js/GameController.js:313-314 | the board holds the users on distinct cells of columns 0–1, then the bots on distinct cells of columns 6–7; `Valid` holds |
| `GameControl.GameController.Init` | src/js/GameController.js:29-34 | two fresh level-1 users of any user kind and two fresh level-1 bots; the users stand on cells of columns 0–1, then the bots on cells of columns 6–7; `Valid` holds |
| `GameControl.GameController.OnNewGameClick` | src/js/GameController.js:401-418 | nothing selected, level 1, no points, the user's turn, statistics kept; two fresh level-1 bowmen or swordsmen and two fresh level-1 bots; the users stand on cells of columns 0–1, then the bots on cells of columns 6–7; `Valid` holds |
| `GameControl.Recruited` | src/js/generators.js:16-23 | every member of a generated team has an allowed kind and a level from 1 to maxLevel |

## Left out

- The user interface: drawing, redrawing, cell highlighting, cursors, tooltips, messages and notices, and the `onCellEnter`/`onCellLeave` handlers. A click's notice is recorded only as its `Click` outcome.
- Timing of the promise chains. Each chain runs as its ordered steps, with no animation delay.
- Saving and loading (`onSaveGameClick`, `onLoadGameClick`). They go through a state service that is not part of this model.
- The A* path finder, a third-party library. It is the parameter `astar`, assumed only to return a last-but-one waypoint that is on the board, free in its grid and not the end.
- IEEE floating point: health, attack, defence and points are exact reals, and `Math.floor` is the floor of a real.
- `getRandom`'s assignment to `this.positions`. Nothing else reads it.
- The bot's move range at GameController.js:260-267. It is computed there and never used.
- Character subclasses (`Characters/*`), `Team`, `GameState` and `PositionedCharacter` are not part of this model. Their figures are the `profile` parameter, a team is a list of distinct characters, and the game state is the controller's fields.
- GetLevelUp: the three per-level `if` blocks are one `Reinforce` call. Its arguments match each block: (1, 1, 2) at level 2, (2, 2, 3) at level 3 and (3, 2, 4) at level 4.
- GetAttack: states what becomes of the bot struck and `Valid`, not the rest of the new state. The level check and the AI's answer after the strike are stated by `CheckLevel` and `AiResponse`.
- AttackChain: states what becomes of the bot struck and `Valid`, not what the level check and the AI's answer did, which `CheckLevel` and `AiResponse` state.
- CheckAndRespond: states only what happens to bots, not the rest of what `CheckLevel` and `AiResponse` state.
- GetUsersTurn: states where the moved character ends up and `Valid`, not the rest of the new state, which `MoveSelected` and `AiResponse` state.
- OnCellClick: after an attack or a move it states what becomes of the characters involved and `Valid`, not the rest of the new state, which the steps' own members state. The move's effect is stated for a selected user character only. When the selection points at a bot after a level-up, the AI may move that same bot again in its answer.
- GenerateTeam: requires a non-empty kind list when characters are requested. With an empty list the generator throws on `new undefined`, which is not modelled.
- MoveBot: treats a last-but-one waypoint off the board like a way that is too short. `AstarSound` rules that case out, whereas the source would set the bot's position to undefined.
