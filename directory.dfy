/** The player directory (`WorldToPlayersInterface`): the list of live
    players over the registry, kept in step with it. */
module Directory {
  import opened Entities
  import opened Registry
  import opened Players

  class PlayerDirectory {
    var players: seq<Player>
    const registry: ObjectRegistry

    function State(): WorldState
      reads this, registry
    {
      WorldState(players, registry.objects)
    }

    ghost predicate Valid()
      reads this, registry, Ships(players), Held(players)
    {
      ValidState(State())
    }

    constructor (registry: ObjectRegistry)
      requires registry.objects == []
      ensures players == [] && this.registry == registry && Valid()
    {
      players := [];
      this.registry := registry;
    }

    /** `get_player_by_name`. */
    method GetPlayerByName(name: string) returns (p: Player?)
      ensures p == FindByName(players, name)
    {
      var i := 0;
      while i < |players|
        invariant 0 <= i <= |players|
        invariant FindByName(players[i..], name) == FindByName(players, name)
      {
        assert players[i..][1..] == players[i + 1..];
        if players[i].name == name {
          return players[i];
        }
        i := i + 1;
      }
      return null;
    }

    /** `create_player`: null when the name is taken; otherwise a new player
        with a new ship (its MagazineSize bullets, then the ship, appended
        to the registry), appended to the directory. */
    method CreatePlayer(name: string) returns (p: Player?)
      requires Valid()
      modifies this, registry
      ensures Valid()
      ensures old(FindByName(players, name)) != null ==> p == null && State() == old(State())
      ensures old(FindByName(players, name)) == null ==>
        && p != null && fresh(p) && fresh(p.ship)
        && p.name == name && p.color == DefaultColor
        && p.ship.State() == InitialShipState() && p.ship.nameExtended == name
        && |p.ship.bullets| == MagazineSize
        && (forall b | b in p.ship.bullets :: fresh(b) && !b.activated)
        && players == old(players) + [p]
        && registry.objects == old(registry.objects) + BulletEntities(p.ship.bullets) + [ShipEntity(p.ship)]
    {
      var existing := GetPlayerByName(name);
      if existing != null {
        return null;
      }
      var ship := registry.SpawnBattleship(name);
      p := new Player(name, ship);
      players := players + [p];
      ValidStateKept(old(State()));
      AddingPlayerKeepsValid(old(State()), p);
    }

    /** `add_player_by_name`: 1 if the player was created, 0 if the name was taken. */
    method AddPlayerByName(name: string) returns (status: int)
      requires Valid()
      modifies this, registry
      ensures Valid()
      ensures status == if old(FindByName(players, name)) == null then 1 else 0
      ensures status == 0 ==> State() == old(State())
      ensures status == 1 ==>
        && |players| == old(|players|) + 1 && players[..old(|players|)] == old(players)
        && var p := players[|players| - 1];
        && fresh(p) && fresh(p.ship)
        && p.name == name && p.color == DefaultColor
        && p.ship.State() == InitialShipState() && p.ship.nameExtended == name
        && registry.objects == old(registry.objects) + BulletEntities(p.ship.bullets) + [ShipEntity(p.ship)]
        && |p.ship.bullets| == MagazineSize
        && (forall b | b in p.ship.bullets :: fresh(b) && !b.activated)
    {
      var p := CreatePlayer(name);
      status := if p != null then 1 else 0;
      if p != null {
        assert players[..old(|players|)] == old(players);
      }
    }

    /** `Player.__del__`. */
    method DeletePlayer(p: Player)
      requires Valid()
      modifies this, registry
      ensures Valid()
      ensures State() == Eliminate(old(State()), p)
      ensures old(p in players) ==> FindByName(players, p.name) == null
    {
      ghost var target := Eliminate(State(), p);
      EliminateKeepsValid(State(), p);
      if p in players {
        players := Without(players, p);
        registry.DestroyBattleship(p.ship);
      }
      ValidStateKept(target);
    }

    /** `remove_player_by_name`: 1 and the cascade if a player has that
        name, 0 and no change otherwise. Afterwards nobody has that name. */
    method RemovePlayerByName(name: string) returns (status: int)
      requires Valid()
      modifies this, registry
      ensures Valid()
      ensures status == if old(FindByName(players, name)) == null then 0 else 1
      ensures status == 0 ==> State() == old(State())
      ensures status == 1 ==> State() == Eliminate(old(State()), old(FindByName(players, name)))
      ensures FindByName(players, name) == null
    {
      var p := GetPlayerByName(name);
      if p != null {
        DeletePlayer(p);
        return 1;
      }
      return 0;
    }

    /** `update_player`: for a listed player, writes the position, color and
        heading given, then passes the speed through set_velocity; 0 and no
        change for an unknown name. */
    method UpdatePlayer(name: string, patch: PlayerPatch) returns (status: int)
      requires Valid()
      modifies (set p | p in players), Ships(players)
      ensures Valid()
      ensures State() == old(State())
      ensures status == if old(FindByName(players, name)) == null then 0 else 1
      ensures status == 1 ==>
        var p := FindByName(players, name);
        && p.color == patch.color
        && p.ship.State() == Patched(old(p.ship.State()), patch)
        && p.ship.bullets == old(p.ship.bullets)
      ensures forall q | q in players && q.name != name :: unchanged(q, q.ship)
    {
      var p := GetPlayerByName(name);
      if p == null {
        return 0;
      }
      assert forall q | q in players && q.name != name :: q != p && q.ship != p.ship;
      ApplyPatch(p, patch);
      return 1;
    }

    /** The writes of `update_player` to one listed player and its ship;
        the invariant holds afterwards. */
    method ApplyPatch(p: Player, patch: PlayerPatch)
      requires Valid() && p in players
      modifies p, p.ship
      ensures Valid()
      ensures p.color == patch.color && p.ship.State() == Patched(old(p.ship.State()), patch)
      ensures p.ship.bullets == old(p.ship.bullets)
    {
      ValidStateShipsValid(State(), p);
      PatchProperties(p.ship.State(), patch);
      p.Apply(patch);
      ValidStateMoved(State());
    }
  }
}
