/** Players (`Player`) and the invariant that ties the player list to the
    registry: each live player owns exactly one registered battleship,
    names are unique, and removing a player removes its ship and the
    bullets the ship still holds. */
module Players {
  import opened Physics
  import opened Entities
  import opened Registry

  /** Color every player starts with. */
  const DefaultColor: string := "red"

  class Player {
    const name: string
    const ship: Battleship
    var color: string

    constructor (name: string, ship: Battleship)
      ensures this.name == name && this.ship == ship && color == DefaultColor
    {
      this.name := name;
      this.ship := ship;
      color := DefaultColor;
    }

    /** The writes `update_player` makes to a player and its ship: position,
        color and heading as given, then the speed through set_velocity. */
    method Apply(patch: PlayerPatch)
      requires ship.Valid()
      modifies this, ship
      ensures ship.Valid()
      ensures color == patch.color && ship.State() == Patched(old(ship.State()), patch)
      ensures ship.bullets == old(ship.bullets)
    {
      ship.position := patch.position;
      color := patch.color;
      ship.angle := patch.angle;
      ship.SetVelocity(patch.speed);
    }
  }

  /** The directory and the registry lists together. */
  datatype WorldState = WorldState(players: seq<Player>, objects: seq<Entity>)

  /** `get_player_by_name` on values: the first player called `name`, or null. */
  function FindByName(players: seq<Player>, name: string): (r: Player?)
    ensures r == null <==> forall p | p in players :: p.name != name
    ensures r != null ==> r in players && r.name == name
    ensures r != null ==>
      exists i | 0 <= i < |players| :: players[i] == r && forall k | 0 <= k < i :: players[k].name != name
  {
    if players == [] then null
    else if players[0].name == name then players[0]
    else
      var r := FindByName(players[1..], name);
      assert forall i | 0 <= i < |players[1..]| :: players[1..][i] == players[i + 1];
      r
  }

  /** No two players share a name (and so no player is listed twice). */
  predicate UniqueNames(players: seq<Player>)
  {
    && NoDup(players)
    && forall p, q | p in players && q in players && p.name == q.name :: p == q
  }

  ghost function Ships(players: seq<Player>): set<Battleship>
  {
    set p | p in players :: p.ship
  }

  /** The bullets still held in the players' magazines. */
  ghost function Held(players: seq<Player>): set<Bullet>
    reads Ships(players)
  {
    set p, b | p in players && b in p.ship.bullets :: b
  }

  /** The lists themselves: the registry has no repeats, names are unique
      and every player has its own ship. */
  predicate ListsOk(w: WorldState)
  {
    && NoDup(w.objects)
    && UniqueNames(w.players)
    && (forall p, q | p in w.players && q in w.players && p.ship == q.ship :: p == q)
  }

  /** The ships in the registry are exactly the players' ships. */
  ghost predicate ShipsRegistered(w: WorldState)
  {
    && (forall e | e in w.objects && e.ShipEntity? :: e.ship in Ships(w.players))
    && (forall p | p in w.players :: ShipEntity(p.ship) in w.objects)
  }

  /** Every player's ship keeps its speed invariant and a magazine without repeats. */
  ghost predicate ShipsSound(w: WorldState)
    reads Ships(w.players)
  {
    forall p | p in w.players :: SpeedOk(p.ship.State()) && NoDup(p.ship.bullets)
  }

  /** The bullets a magazine holds are registered and not fired. */
  ghost predicate MagazinesRegistered(w: WorldState)
    reads Ships(w.players), Held(w.players)
  {
    forall p, b | p in w.players && b in p.ship.bullets :: BulletEntity(b) in w.objects && !b.activated
  }

  /** No bullet sits in two players' magazines. */
  ghost predicate MagazinesDisjoint(w: WorldState)
    reads Ships(w.players)
  {
    forall p, q, b | p in w.players && q in w.players && b in p.ship.bullets && b in q.ship.bullets :: p == q
  }

  /** The invariant tying the directory to the registry. */
  ghost predicate ValidState(w: WorldState)
    reads Ships(w.players), Held(w.players)
  {
    && ListsOk(w)
    && ShipsRegistered(w)
    && ShipsSound(w)
    && MagazinesRegistered(w)
    && MagazinesDisjoint(w)
  }

  /** Under the invariant every player's ship satisfies its own invariant. */
  lemma ValidStateShipsValid(w: WorldState, p: Player)
    requires ValidState(w) && p in w.players
    ensures p.ship.Valid()
  {
    assert forall i, j | 0 <= i < j < |p.ship.bullets| :: p.ship.bullets[i] != p.ship.bullets[j];
  }

  /** `Player.__del__` on values: a listed player leaves the list and its
      ship is destroyed with what its magazine still holds; an unlisted one
      changes nothing. */
  function Eliminate(w: WorldState, p: Player): WorldState
    reads p.ship
  {
    if p in w.players then WorldState(Without(w.players, p), ShipCascade(w.objects, p.ship)) else w
  }

  /** Removing a fired bullet from the registry keeps the invariant: fired
      bullets are never held by a ship. */
  lemma RemovingFiredBulletKeepsValid(w: WorldState, b: Bullet)
    requires ValidState(w) && b.activated
    ensures ValidState(WorldState(w.players, Without(w.objects, BulletEntity(b))))
  {
  }

  /** The invariant survives a heap change that keeps every listed ship's
      magazine, keeps each ship's speed within bounds and fires none of the
      bullets the magazines hold. */
  twostate lemma ValidStateKept(w: WorldState)
    requires old(ValidState(w))
    requires forall p | p in w.players :: unchanged(p.ship)
    requires forall p, b | p in w.players && b in p.ship.bullets :: unchanged(b)
    ensures ValidState(w)
  {
  }

  /** The invariant survives a heap change that may move and turn the
      ships but keeps every magazine, keeps each speed within bounds and
      fires none of the bullets the magazines hold. */
  twostate lemma ValidStateMoved(w: WorldState)
    requires old(ValidState(w))
    requires forall p | p in w.players :: p.ship.bullets == old(p.ship.bullets) && SpeedOk(p.ship.State())
    requires forall p, b | p in w.players && b in p.ship.bullets :: !b.activated
    ensures ValidState(w)
  {
  }

  /** Eliminating a player keeps the invariant, takes away every player of
      that name, and changes nothing for the other players. */
  lemma EliminateKeepsValid(w: WorldState, p: Player)
    requires ValidState(w)
    ensures ValidState(Eliminate(w, p))
    ensures p in w.players ==> FindByName(Eliminate(w, p).players, p.name) == null
    ensures forall q | q in w.players && q != p :: q in Eliminate(w, p).players
  {
    if p in w.players {
      var w' := Eliminate(w, p);
      assert p !in w'.players;
      forall q | q in w'.players
        ensures ShipEntity(q.ship) in w'.objects
        ensures forall b | b in q.ship.bullets :: BulletEntity(b) in w'.objects
      {
        assert q != p && q.ship != p.ship;
        forall b | b in q.ship.bullets
          ensures BulletEntity(b) in w'.objects
        {
          assert b !in p.ship.bullets;
        }
      }
      forall e | e in w'.objects && e.ShipEntity?
        ensures e.ship in Ships(w'.players)
      {
        var q :| q in w.players && q.ship == e.ship;
        assert q != p;
      }
    }
  }

  /** The entries of a magazine without repeats have no repeats. */
  lemma BulletEntitiesNoDup(bs: seq<Bullet>)
    requires NoDup(bs)
    ensures NoDup(BulletEntities(bs))
  {
    var r := BulletEntities(bs);
    forall i, j | 0 <= i < j < |r| ensures r[i] != r[j] {
      assert bs[i] != bs[j];
    }
  }

  /** Appending new entries and then one more new entry keeps a list
      free of repeats. */
  lemma NoDupAppend(objects: seq<Entity>, added: seq<Entity>, e: Entity)
    requires NoDup(objects) && NoDup(added)
    requires forall x | x in added :: x !in objects
    requires e !in objects && e !in added
    ensures NoDup(objects + added + [e])
  {
    var all := objects + added + [e];
    forall i, j | 0 <= i < j < |all| ensures all[i] != all[j] {
      if j < |objects| {
      } else if j < |objects| + |added| {
        assert all[j] == added[j - |objects|];
        if i < |objects| {
          assert all[j] in added;
        }
      } else if i < |objects| {
        assert all[i] in objects;
      } else {
        assert all[i] in added;
      }
    }
  }

  /** A player whose name nobody has can join without breaking name uniqueness. */
  lemma UniqueNamesAppend(players: seq<Player>, p: Player)
    requires UniqueNames(players) && FindByName(players, p.name) == null
    ensures UniqueNames(players + [p])
  {
    var all := players + [p];
    forall i, j | 0 <= i < j < |all| ensures all[i] != all[j] {
      if j == |players| {
        assert all[i] in players;
      }
    }
  }

  /** Adding a new player whose new ship's magazine and the ship itself are
      appended to the registry keeps the invariant. */
  lemma AddingPlayerKeepsValid(w: WorldState, p: Player)
    requires ValidState(w)
    requires FindByName(w.players, p.name) == null
    requires forall q | q in w.players :: q.ship != p.ship
    requires p.ship.Valid()
    requires ShipEntity(p.ship) !in w.objects
    requires forall b | b in p.ship.bullets :: BulletEntity(b) !in w.objects
    ensures ValidState(WorldState(w.players + [p],
                                  w.objects + BulletEntities(p.ship.bullets) + [ShipEntity(p.ship)]))
  {
    var w' := WorldState(w.players + [p], w.objects + BulletEntities(p.ship.bullets) + [ShipEntity(p.ship)]);
    assert NoDup(p.ship.bullets) by {
      assert forall i, j | 0 <= i < j < |p.ship.bullets| :: p.ship.bullets[i] != p.ship.bullets[j];
    }
    AddingPlayerLists(w, p);
    AddingPlayerShips(w, p);
    AddingPlayerMagazines(w, p);
    assert ShipsSound(w');
  }

  lemma AddingPlayerLists(w: WorldState, p: Player)
    requires ListsOk(w)
    requires FindByName(w.players, p.name) == null
    requires forall q | q in w.players :: q.ship != p.ship
    requires NoDup(p.ship.bullets)
    requires ShipEntity(p.ship) !in w.objects
    requires forall b | b in p.ship.bullets :: BulletEntity(b) !in w.objects
    ensures ListsOk(WorldState(w.players + [p], w.objects + BulletEntities(p.ship.bullets) + [ShipEntity(p.ship)]))
  {
    BulletEntitiesNoDup(p.ship.bullets);
    NoDupAppend(w.objects, BulletEntities(p.ship.bullets), ShipEntity(p.ship));
    UniqueNamesAppend(w.players, p);
  }

  lemma AddingPlayerShips(w: WorldState, p: Player)
    requires ShipsRegistered(w)
    ensures ShipsRegistered(WorldState(w.players + [p], w.objects + BulletEntities(p.ship.bullets) + [ShipEntity(p.ship)]))
  {
    var players := w.players + [p];
    var added := BulletEntities(p.ship.bullets);
    var objects := w.objects + added + [ShipEntity(p.ship)];
    forall e | e in objects && e.ShipEntity?
      ensures e.ship in Ships(players)
    {
      if e in w.objects {
        assert e.ship in Ships(w.players);
      } else if e in added {
      } else {
        assert e.ship == p.ship;
      }
    }
  }

  lemma AddingPlayerMagazines(w: WorldState, p: Player)
    requires MagazinesRegistered(w) && MagazinesDisjoint(w)
    requires p !in w.players
    requires forall b | b in p.ship.bullets :: BulletEntity(b) !in w.objects && !b.activated
    ensures MagazinesRegistered(WorldState(w.players + [p], w.objects + BulletEntities(p.ship.bullets) + [ShipEntity(p.ship)]))
    ensures MagazinesDisjoint(WorldState(w.players + [p], w.objects + BulletEntities(p.ship.bullets) + [ShipEntity(p.ship)]))
  {
    var players := w.players + [p];
    var added := BulletEntities(p.ship.bullets);
    var objects := w.objects + added + [ShipEntity(p.ship)];
    forall q, b | q in players && b in q.ship.bullets
      ensures BulletEntity(b) in objects
    {
      if q == p {
        assert BulletEntity(b) in added;
      }
    }
  }

  /** The patch `update_player` applies to the ship: position and heading
      are written as given, then the speed goes through set_velocity. */
  datatype PlayerPatch = PlayerPatch(position: Vec, color: string, angle: real, speed: real)

  function Patched(s: ShipState, patch: PlayerPatch): ShipState
  {
    WithSpeed(s.(position := patch.position, angle := patch.angle), patch.speed)
  }

  /** A patch keeps the speed invariant. When its speed is out of range the
      heading still changes but the components stay those of the old
      heading: the velocity is left stale until the next tick. */
  lemma PatchProperties(s: ShipState, patch: PlayerPatch)
    requires SpeedOk(s)
    ensures SpeedOk(Patched(s, patch))
    ensures Patched(s, patch).position == patch.position && Patched(s, patch).angle == patch.angle
    ensures Abs(patch.speed) > MaxSpeed ==>
      Patched(s, patch).speed == s.speed && Patched(s, patch).components == s.components
    ensures Abs(patch.speed) <= MaxSpeed ==>
      Patched(s, patch).speed == Round2(patch.speed)
      && Patched(s, patch).components == VelComp(patch.angle, patch.speed)
  {
    WithSpeedKeepsSpeedOk(s.(position := patch.position, angle := patch.angle), patch.speed);
  }
}
