# Battleship world: a verified model of the game core

This project models the server side of a small multiplayer battleship game
(`fastapi_x/game.py`) in Dafny and proves properties of the model. The game
world consists of:

- an **object registry**: a flat list of every battleship and bullet in the world;
- **battleships**: each has a position, a heading, a bounded speed, derived velocity
  components and a magazine of ten bullets;
- **bullets**: inert until fired; once fired they move every tick;
- a **player directory**: players with unique names, each owning one battleship;
- a **server world**, whose `update` moves every object one step and then runs a
  collision pass. In that pass, a fired bullet at least 0.3 s old (the grace
  period) destroys itself and eliminates players whose ships are within
  distance 10 (rounded to two decimals). The source walks the live player list
  while it removes players from it, so it can skip a player (see Findings).
  The model's pass walks a snapshot of the list and checks every player.

Eliminating a player cascades:

- the player leaves the directory;
- its ship leaves the registry;
- so do the bullets the ship still holds.

The modules follow that structure:

- `Physics`: vectors; Python's `round(x, 2)` as half-even rounding on exact reals;
  velocity components; the collision test.
- `Entities`: the `Bullet` and `Battleship` classes, with the ship's kinematics as
  pure functions on `ShipState`.
- `Registry`: the `ObjectRegistry` class and the list operations it uses, including
  the `__del__` cascade of a battleship.
- `Players`: the `Player` class and `ValidState`, the invariant that ties the
  player list to the registry.
- `Directory`: the `PlayerDirectory` class (`WorldToPlayersInterface`).
- `Server`: `ServerData` (`ServerDataInterface`) and `ServerWorld`, the collision
  pass as functions, and the lemmas about it.

Objects whose fields the source updates in place are classes with `modifies`
clauses. Each registry, directory or world method states its new state as a
function of the old one. It keeps `ValidState`, which says:

- the registry has no repeats;
- player names are unique;
- every listed player's ship is registered and only those ships are;
- every bullet in a magazine is registered and not fired;
- no bullet sits in two magazines;
- every ship's speed is within bounds and a whole number of hundredths.

The model follows the code as written, including behaviour a reader might not expect:

- The heading is not reduced into [0, 360).
- A tick replaces a negative speed by its absolute value, which turns the ship around.
- `set_velocity` stores the rounded speed but computes the components from the unrounded value.
- `update_player` with an out-of-range speed writes the new heading but leaves the
  components of the old heading.

## Model

| member | source | states |
|---|---|---|
| Physics.Abs | fastapi_x/game.py:66 | the result is non-negative and equals `x` or `-x` |
| Physics.Round2OnGrid | fastapi_x/game.py:61 | `round(x, 2)` yields a whole number of hundredths and leaves such a number unchanged |
| Physics.Round2Within | fastapi_x/game.py:66-67 | rounding a value within [-n, n] (n whole) stays within [-n, n] |
| Physics.VelComp | fastapi_x/game.py:57-62 | both velocity components are whole numbers of hundredths |
| Physics.SqDist | fastapi_x/game.py:350-351 | the squared distance is non-negative |
| Physics.Round2AtMostTen | fastapi_x/game.py:352-353 | a non-negative distance rounds to at most 10 exactly when it is at most 10.005 |
| Physics.CollidesIsRoundedDistanceTest | fastapi_x/game.py:349-355 | the square-root-free test `Collides` holds exactly when the true distance, rounded to two decimals, is at most the separation 10 |
| Entities.InitialShipStateOk | fastapi_x/game.py:46-54 | a new ship's speed 0.6 is within bounds and on the grid, and its components match heading 0 and speed 0.6 |
| Entities.WithSpeedKeepsSpeedOk | fastapi_x/game.py:65-71 | set_velocity keeps the speed bounded and on the grid; an out-of-range request changes nothing; position and heading are never touched |
| Entities.WithSpeedConsistency | fastapi_x/game.py:65-71 | an in-range speed already on the grid is stored as given and leaves the components consistent with heading and speed |
| Entities.RotationProperties | fastapi_x/game.py:83-88 | rotation adds the delta to the heading, keeps the speed, makes the components consistent, and the opposite rotation undoes it |
| Entities.TickProperties | fastapi_x/game.py:91-101 | a tick sets the speed to its absolute value, keeps it bounded, makes the components consistent, keeps the heading and moves the ship by exactly the new components |
| Entities.Bullet.constructor | fastapi_x/game.py:15-20 | a new bullet is not fired and has the default velocity [0.5, 0.5] |
| Entities.Bullet.SetPosition | fastapi_x/game.py:22-23 | only the position changes |
| Entities.Bullet.SetVelocity | fastapi_x/game.py:25-26 | only the velocity changes |
| Entities.Bullet.Activate | fastapi_x/game.py:28-30 | the bullet is fired and stamped with the clock reading; position and velocity are kept |
| Entities.Bullet.Update | fastapi_x/game.py:32-39 | a fired bullet moves by its velocity; an unfired one stays put; firing data is kept |
| Entities.Battleship.constructor | fastapi_x/game.py:46-54 | a new ship is at (40, 40) with heading 0, speed 0.6 and matching components |
| Entities.Battleship.SetVelocity | fastapi_x/game.py:65-71 | the new state is `WithSpeed` of the old one and the ship invariant is kept |
| Entities.Battleship.Rotate | fastapi_x/game.py:83-88 | the new state is `Rotated` of the old one and the ship invariant is kept |
| Entities.Battleship.Update | fastapi_x/game.py:91-101 | the new state is `Ticked` of the old one, the magazine is kept and the ship invariant holds |
| Entities.Battleship.ShootBullet | fastapi_x/game.py:174-186 | an empty magazine changes nothing; otherwise the last bullet leaves the magazine, fired at the clock reading from the ship's position at speed 4 along the heading; the ship and the other bullets are unchanged |
| Registry.Without | fastapi_x/game.py:127-130 | the guarded `remove` shortens a list holding `x` by one, keeps every other element, and leaves a list without repeats without `x` |
| Registry.WithoutCutsFirstOccurrence | fastapi_x/game.py:127-130 | removal cuts exactly the first occurrence out and keeps the rest in order |
| Registry.WithoutAll | fastapi_x/game.py:190-191 | removing a list of entries one by one keeps every other entry and, without repeats, removes them all |
| Registry.BulletEntities | fastapi_x/game.py:169-170 | the registry entries of a magazine are its bullets, position by position |
| Registry.AllBullets | fastapi_x/game.py:133 | `get_bullets()` returns exactly the registered bullets |
| Registry.ActivatedSelects | fastapi_x/game.py:134-135 | the activated filter keeps exactly the fired bullets |
| Registry.AllBulletsAppend | fastapi_x/game.py:133 | the bullet filter distributes over concatenation, so it keeps registry order |
| Registry.ActivatedAppend | fastapi_x/game.py:134-135 | the fired-bullet filter distributes over concatenation, so it keeps registry order |
| Registry.ActivatedKept | fastapi_x/game.py:134-135 | which bullets count as fired depends only on their flags, so moving bullets does not change the fired list |
| Registry.ShipCascade | fastapi_x/game.py:188-193 | destroying a ship removes it and the bullets it still holds, and keeps every other entry |
| Registry.ObjectRegistry.constructor | fastapi_x/game.py:116-117 | the registry starts empty |
| Registry.ObjectRegistry.AddGameObject | fastapi_x/game.py:122-125 | an entry is appended unless already present, and no repeats arise |
| Registry.ObjectRegistry.RemoveGameObject | fastapi_x/game.py:127-130 | the first occurrence is removed if present |
| Registry.ObjectRegistry.GetBullets | fastapi_x/game.py:132-136 | every returned bullet is registered (and fired when asked), and every such registered bullet is returned |
| Registry.ObjectRegistry.SpawnBullet | fastapi_x/game.py:143-148 | a new unfired bullet with the default velocity is appended to the registry |
| Registry.ObjectRegistry.SpawnMagazine | fastapi_x/game.py:165-171 | ten new, distinct, unfired bullets are appended to the registry in order |
| Registry.ObjectRegistry.SpawnBattleship | fastapi_x/game.py:157-171 | a new valid ship with the initial state and ten new bullets; the registry gains the bullets, then the ship |
| Registry.ObjectRegistry.DestroyBattleship | fastapi_x/game.py:188-193 | the registry becomes `ShipCascade` of the old one |
| Players.Player.constructor | fastapi_x/game.py:205-221 | a player has its name, its ship and the color "red" |
| Players.Player.Apply | fastapi_x/game.py:297-301 | the player's color is written; the ship's new state is `Patched` of the old one; magazine and ship invariant are kept |
| Players.FindByName | fastapi_x/game.py:261-264 | the result is null exactly when no listed player has the name; otherwise it is the first listed player with that name |
| Players.ValidStateShipsValid | fastapi_x/game.py:204-231 | under the world invariant every listed player's ship satisfies its own invariant |
| Players.RemovingFiredBulletKeepsValid | fastapi_x/game.py:150-151 | unregistering a fired bullet keeps the world invariant |
| Players.ValidStateKept | fastapi_x/game.py:122-130 | the world invariant survives any heap change that leaves every listed ship and magazine bullet untouched |
| Players.ValidStateMoved | fastapi_x/game.py:374-379 | the world invariant survives ships moving, as long as magazines are kept, speeds stay valid and no held bullet is fired |
| Players.EliminateKeepsValid | fastapi_x/game.py:236-247 | eliminating a player keeps the world invariant, leaves nobody with its name, and keeps every other player |
| Players.AddingPlayerKeepsValid | fastapi_x/game.py:223-231 | appending a player with a fresh name and new ship, with its bullets and then its ship registered, keeps the world invariant |
| Players.PatchProperties | fastapi_x/game.py:298-301 | a patch writes position and heading and keeps the speed valid; an out-of-range speed leaves speed and components as they were; an in-range one stores the rounded speed and the components of the new heading |
| Directory.PlayerDirectory.constructor | fastapi_x/game.py:254-256 | the directory starts empty over an empty registry, with the invariant holding |
| Directory.PlayerDirectory.GetPlayerByName | fastapi_x/game.py:261-264 | returns `FindByName` of the list: the first player with that name, or null |
| Directory.PlayerDirectory.CreatePlayer | fastapi_x/game.py:266-272 | a taken name gives null and no change; otherwise a new player is appended with a new ship in the initial state and ten unfired bullets, the registry gains the bullets then the ship, and the invariant holds |
| Directory.PlayerDirectory.AddPlayerByName | fastapi_x/game.py:274-282 | returns 1 exactly when the name was free, and then a new player with that name and color "red" is appended, its new ship in the initial state with ten new unfired bullets, and the registry gains the bullets then the ship; else 0 with no change |
| Directory.PlayerDirectory.DeletePlayer | fastapi_x/game.py:236-247 | the new state is `Eliminate` of the old one, the invariant holds, and nobody keeps the removed player's name |
| Directory.PlayerDirectory.RemovePlayerByName | fastapi_x/game.py:284-291 | returns 1 and eliminates the named player, or 0 with no change; afterwards nobody has that name |
| Directory.PlayerDirectory.UpdatePlayer | fastapi_x/game.py:293-303 | 0 and no change for an unknown name; otherwise 1, the named player's color is written and its ship is `Patched`; lists, magazines, other players and their ships are unchanged, and the invariant holds |
| Directory.PlayerDirectory.ApplyPatch | fastapi_x/game.py:298-301 | the writes to one listed player keep the world invariant |
| Server.BulletPass | fastapi_x/game.py:359-370 | the inner loop only removes players and never adds any |
| Server.BulletPassPlayers | fastapi_x/game.py:359-370 | against one player the inner loop removes that player exactly when some bullet of the snapshot hits it, and nobody else |
| Server.PlayerPass | fastapi_x/game.py:346-370 | the pass as written only removes players |
| Server.PlayerPassOnlyRemovesHit | fastapi_x/game.py:346-370 | the pass as written never eliminates a player that no bullet hits |
| Server.PlayerPassSkipsNextPlayer | fastapi_x/game.py:358-370 | when one bullet hits both players of [p, q], the pass as written leaves q listed, while the corrected pass eliminates both |
| Server.SnapshotPassPlayers | fastapi_x/game.py:358-370 | the corrected pass removes exactly the snapshot players that a bullet hits, and keeps the list free of repeats |
| Server.SnapshotPassRemovesExactlyHit | fastapi_x/game.py:343-370 | over a snapshot of the whole list, a player stays listed exactly when no bullet hits it |
| Server.YoungBulletsHarmless | fastapi_x/game.py:362-363 | bullets still in their 0.3 s grace period change nothing |
| Server.BulletPassYoung | fastapi_x/game.py:362-363 | against one player, bullets in their grace period change nothing |
| Server.BulletPassFramed | fastapi_x/game.py:363-365 | the inner loop's outcome depends only on the player's ship and the bullets |
| Server.SnapshotPassFramed | fastapi_x/game.py:358-365 | the pass's outcome depends only on the players' ships and the bullets |
| Server.BulletPassObjects | fastapi_x/game.py:366-370 | the inner loop unregisters only bullets of the snapshot and, if it eliminates the player, what that player owns |
| Server.SnapshotPassObjects | fastapi_x/game.py:358-370 | the pass unregisters only snapshot bullets and what the eliminated players own |
| Server.StrikeBullets | fastapi_x/game.py:363-370 | one pair unregisters a fired bullet exactly when it is the pair's bullet and hits the player; the player's cascade never takes a fired bullet |
| Server.BulletPassBullets | fastapi_x/game.py:359-370 | the inner loop unregisters exactly the fired snapshot bullets that hit the player; every other fired bullet stays registered |
| Server.SnapshotPassBullets | fastapi_x/game.py:358-370 | the pass unregisters exactly the fired snapshot bullets that hit some snapshot player; a fired bullet that hits nobody stays registered |
| Server.BulletPassKeepsValid | fastapi_x/game.py:359-370 | the inner loop keeps the world invariant |
| Server.SnapshotPassKeepsValid | fastapi_x/game.py:358-370 | the whole pass keeps the world invariant |
| Server.ServerData.constructor | fastapi_x/game.py:319-322 | an empty registry and an empty directory over it, with the invariant holding |
| Server.ServerData.GetPlayerObject | fastapi_x/game.py:324-325 | returns the first player with the name, or null |
| Server.ServerData.DestroyFiredBullet | fastapi_x/game.py:150-151 | a fired bullet leaves the registry and the invariant holds |
| Server.ServerWorld.constructor | fastapi_x/game.py:332-334 | the world runs on the given data |
| Server.ServerWorld.StrikeOnce | fastapi_x/game.py:363-370 | one bullet against one player: on a hit the bullet is destroyed, then the player; the invariant holds |
| Server.ServerWorld.CheckPlayer | fastapi_x/game.py:359-370 | the inner loop's new state is `BulletPass` of the old one, and the invariant holds |
| Server.ServerWorld.CheckPlayers | fastapi_x/game.py:358-370 | the outer loop's new state is `SnapshotPass` of the old one, and the invariant holds |
| Server.ServerWorld.EnforceEnvironmentConstraints | fastapi_x/game.py:343-371 | afterwards exactly the players that no fired bullet hit are listed, a fired bullet stays registered exactly when it hit no player, and the invariant holds |
| Server.ServerWorld.TickAll | fastapi_x/game.py:377-379 | every registered object took one step and the lists are unchanged |
| Server.ServerWorld.Update | fastapi_x/game.py:374-383 | every object took one step, then the collision pass ran over the players and the fired bullets after the step; the invariant holds |
| Server.TickObjects | fastapi_x/game.py:378-379 | each object of the list took exactly one step |
| Server.UpdateObject | fastapi_x/game.py:378-379 | one object took its step: a ship one tick, a fired bullet its velocity, an unfired bullet none |

## Left out

- Floating point: coordinates, speeds and times are exact reals. Rounding is half-even on the
  exact value, not on its binary approximation.
- Trigonometry: `math.cos` and `math.sin` of the heading are uninterpreted functions. No property
  depends on their values.
- Square root: the collision test compares squared distance with 10.005², which is equivalent.
  `Physics.CollidesIsRoundedDistanceTest` proves the equivalence for any non-negative root.
- The clock: `time.time()` becomes a parameter `now`. Each collision pass reads it once, while
  the source reads it once per player–bullet pair.
- Server.ServerWorld.EnforceEnvironmentConstraints: walks a snapshot of the player list, not
  the live list, so it checks the player after an eliminated one, which the source skips (see
  Findings).
- Server.ServerWorld.CheckPlayers: walks the snapshot `ps` it is given rather than the live
  list, so its result is the corrected `SnapshotPass`, not the source's `PlayerPass`.
- Server.ServerWorld.Update: its collision pass is the snapshot walk, so its new state is
  `SnapshotPass` of the state after the step, not the source's live-list walk.
- Bullets destroyed during a pass: one already destroyed stays in the pass's bullet snapshot and
  can still eliminate later players, as in the source.
- Unfired bullets: their position and activation time are `None` in the source. Here they hold
  placeholder values that nothing reads while the bullet is unfired.
- `Bullet(velocity=v)`: leaves the velocity unset, because `__init__` assigns it only when none
  is given. `WorldBattleship.initialize` never passes one, so the model has only the default
  velocity.
- Aliasing in `shoot_bullet`: the fired bullet receives the ship's position list itself, so the
  two share one list. The model copies the value.
- Firing: `Entities.Battleship.ShootBullet` keeps the ship's own invariant. Nothing in
  `fastapi_x/game.py` or `fastapi_x/server.py` calls `shoot_bullet`, so no world operation fires,
  and the effect of firing on the world invariant is not modelled.
- Directory.PlayerDirectory.UpdatePlayer: the patch is a record with every field present. It does not
  model two error paths:
  - In the source the patch is a dictionary; a missing key raises `KeyError` after the earlier
    fields (position, color) have already been written.
  - `fastapi_x/server.py` lets the position be `None`. `update_player` stores it, and a later
    `move` or collision check then fails on it.
- Destructors: `__del__` is modelled as an explicit operation that the source calls directly.
  Python's garbage collector calling it again is not modelled.
- `__str__`, the printing in `add_game_object` / `remove_game_object` / `add_player_by_name` /
  `remove_player_by_name` / the collision pass, the `__main__` demo block, and the empty
  `ServerWorld.initialize`: output only or no effect.
- `get_objects`, `get_all_players`, `get_velocity`, `get_velocity_components`, `get_angle` and
  `get_player_objects`: plain field reads, which the model reads directly.
- `fastapi_x/server.py`, `fastapi_x/main.py` and `fastapi_x/client.py` (HTTP layer, client,
  rendering): these are not part of this model.
- Concurrency between request handlers and the update loop is not modelled. Each operation runs
  atomically.

## Findings

| source | as written | input that shows it | evidently intended | confidence | as-written member | corrected member |
|---|---|---|---|---|---|---|
| fastapi_x/game.py:346-370 | the outer loop iterates `get_all_players()`, the live players list, while `player_p.__del__()` removes the current player from that same list | two players p, q listed as [p, q] and one fired bullet, past its grace period, within distance 10 of both ships: p is eliminated, q shifts into the visited position and is never checked | every listed player is checked against every fired bullet, so q is eliminated too | not executed | Server.PlayerPassSkipsNextPlayer | Server.SnapshotPassRemovesExactlyHit |
