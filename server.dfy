/** The server side of the world (`ServerDataInterface`, `ServerWorld`):
    each tick updates every registered object, then runs the collision
    pass, in which a fired bullet old enough to have left its shooter
    eliminates every player it is close to. */
module Server {
  import opened Physics
  import opened Entities
  import opened Registry
  import opened Players
  import opened Directory

  /** Seconds a fired bullet is harmless, so that it does not hit its shooter. */
  const GracePeriod: real := 0.3

  /** Bullet `b` counts as hitting player `p` at time `now`. */
  predicate Hit(p: Player, b: Bullet, now: real)
    reads p.ship, b
  {
    now - b.activationTime >= GracePeriod && Collides(b.position, p.ship.position)
  }

  /** Some bullet of `bs` hits `p`. */
  predicate HitByAny(p: Player, bs: seq<Bullet>, now: real)
    reads p.ship, set b | b in bs
  {
    exists b | b in bs :: Hit(p, b, now)
  }

  /** One pair of the pass: on a hit the bullet is destroyed, then the
      player (both removals are guarded, so repeating them changes nothing). */
  function Strike(w: WorldState, p: Player, b: Bullet, now: real): WorldState
    reads p.ship, b
  {
    if Hit(p, b, now) then Eliminate(WorldState(w.players, Without(w.objects, BulletEntity(b))), p) else w
  }

  /** The inner loop: player `p` against every bullet of the snapshot `bs`. */
  function BulletPass(w: WorldState, p: Player, bs: seq<Bullet>, now: real): (r: WorldState)
    reads p.ship, set b | b in bs
    ensures forall q | q in r.players :: q in w.players
    ensures |r.players| <= |w.players|
    decreases bs
  {
    if bs == [] then w
    else BulletPass(Strike(w, p, bs[0], now), p, bs[1..], now)
  }

  /** Against a list without repeats, the inner loop removes the player
      exactly when one of the bullets hits it, and nobody else. */
  lemma {:induction false} BulletPassPlayers(w: WorldState, p: Player, bs: seq<Bullet>, now: real)
    requires NoDup(w.players)
    ensures BulletPass(w, p, bs, now).players
              == if p in w.players && HitByAny(p, bs, now) then Without(w.players, p) else w.players
    ensures NoDup(BulletPass(w, p, bs, now).players)
    decreases bs
  {
    if bs != [] {
      var w1 := Strike(w, p, bs[0], now);
      assert forall b | b in bs :: b == bs[0] || b in bs[1..];
      BulletPassPlayers(w1, p, bs[1..], now);
      if Hit(p, bs[0], now) {
        assert HitByAny(p, bs, now);
      } else {
        assert HitByAny(p, bs, now) == HitByAny(p, bs[1..], now);
      }
    }
  }

  /** The pass as written: the outer loop walks the live player list by
      position, so when the player at position `i` is eliminated the next
      one moves into position `i` and is never looked at. */
  function PlayerPass(w: WorldState, i: nat, bs: seq<Bullet>, now: real): (r: WorldState)
    reads (set p | p in w.players :: p.ship), set b | b in bs
    ensures forall q | q in r.players :: q in w.players
    decreases |w.players| - i
  {
    if i >= |w.players| then w
    else PlayerPass(BulletPass(w, w.players[i], bs, now), i + 1, bs, now)
  }

  /** The pass as intended: the outer loop walks a snapshot `ps` of the
      player list, so every listed player is looked at once. */
  function SnapshotPass(w: WorldState, ps: seq<Player>, bs: seq<Bullet>, now: real): (r: WorldState)
    reads (set p | p in ps :: p.ship), set b | b in bs
    decreases ps
  {
    if ps == [] then w
    else SnapshotPass(BulletPass(w, ps[0], bs, now), ps[1..], bs, now)
  }

  /** The corrected pass eliminates exactly the players of the snapshot
      that some bullet hits; the others stay listed. */
  lemma {:induction false} SnapshotPassPlayers(w: WorldState, ps: seq<Player>, bs: seq<Bullet>, now: real)
    requires NoDup(w.players)
    ensures NoDup(SnapshotPass(w, ps, bs, now).players)
    ensures forall q | q in SnapshotPass(w, ps, bs, now).players :: q in w.players && !(q in ps && HitByAny(q, bs, now))
    ensures forall q | q in w.players && !(q in ps && HitByAny(q, bs, now)) :: q in SnapshotPass(w, ps, bs, now).players
    decreases ps
  {
    if ps != [] {
      var w1 := BulletPass(w, ps[0], bs, now);
      BulletPassPlayers(w, ps[0], bs, now);
      SnapshotPassPlayers(w1, ps[1..], bs, now);
      assert forall q | q in ps :: q == ps[0] || q in ps[1..];
    }
  }

  /** Run over a snapshot of the whole list, the pass leaves listed exactly
      the players no bullet hits. */
  lemma SnapshotPassRemovesExactlyHit(w: WorldState, bs: seq<Bullet>, now: real)
    requires NoDup(w.players)
    ensures forall q | q in SnapshotPass(w, w.players, bs, now).players :: q in w.players && !HitByAny(q, bs, now)
    ensures forall q | q in w.players && !HitByAny(q, bs, now) :: q in SnapshotPass(w, w.players, bs, now).players
  {
    SnapshotPassPlayers(w, w.players, bs, now);
  }

  /** The pass as written never eliminates a player no bullet hits. */
  lemma {:induction false} PlayerPassOnlyRemovesHit(w: WorldState, i: nat, bs: seq<Bullet>, now: real)
    requires NoDup(w.players)
    ensures forall q | q in w.players && !HitByAny(q, bs, now) :: q in PlayerPass(w, i, bs, now).players
    decreases |w.players| - i
  {
    if i < |w.players| {
      var w1 := BulletPass(w, w.players[i], bs, now);
      BulletPassPlayers(w, w.players[i], bs, now);
      PlayerPassOnlyRemovesHit(w1, i + 1, bs, now);
    }
  }

  /** The pass as written misses a hit: when one bullet hits both players
      of `[p, q]`, `p` is eliminated, `q` moves into the position already
      visited, and `q` stays listed although it was hit. The corrected pass
      eliminates both. */
  lemma PlayerPassSkipsNextPlayer(p: Player, q: Player, b: Bullet, objects: seq<Entity>, now: real)
    requires p != q && Hit(p, b, now) && Hit(q, b, now)
    ensures HitByAny(q, [b], now)
    ensures PlayerPass(WorldState([p, q], objects), 0, [b], now).players == [q]
    ensures var r := SnapshotPass(WorldState([p, q], objects), [p, q], [b], now).players;
      p !in r && q !in r
  {
    var w := WorldState([p, q], objects);
    assert b in [b];
    BulletPassPlayers(w, p, [b], now);
    var w1 := BulletPass(w, p, [b], now);
    assert w1.players == [q];
    BulletPassPlayers(w1, q, [b], now);
    SnapshotPassPlayers(w, w.players, [b], now);
    assert HitByAny(p, [b], now);
  }

  /** Bullets still inside their grace period change nothing. */
  lemma {:induction false} YoungBulletsHarmless(w: WorldState, ps: seq<Player>, bs: seq<Bullet>, now: real)
    requires forall b | b in bs :: now - b.activationTime < GracePeriod
    ensures SnapshotPass(w, ps, bs, now) == w
    decreases ps
  {
    if ps != [] {
      BulletPassYoung(w, ps[0], bs, now);
      YoungBulletsHarmless(w, ps[1..], bs, now);
    }
  }

  lemma {:induction false} BulletPassYoung(w: WorldState, p: Player, bs: seq<Bullet>, now: real)
    requires forall b | b in bs :: now - b.activationTime < GracePeriod
    ensures BulletPass(w, p, bs, now) == w
    decreases bs
  {
    if bs != [] {
      assert bs[0] in bs;
      BulletPassYoung(w, p, bs[1..], now);
    }
  }

  /** The inner loop's outcome depends only on the player's ship and on the
      bullets: a heap change that leaves them alone leaves it alone. */
  twostate lemma BulletPassFramed(w: WorldState, p: Player, bs: seq<Bullet>, now: real)
    requires unchanged(p.ship) && forall b | b in bs :: unchanged(b)
    ensures BulletPass(w, p, bs, now) == old(BulletPass(w, p, bs, now))
  {
  }

  /** So does the outcome of the corrected pass. */
  twostate lemma SnapshotPassFramed(w: WorldState, ps: seq<Player>, bs: seq<Bullet>, now: real)
    requires (forall q | q in ps :: unchanged(q.ship)) && forall b | b in bs :: unchanged(b)
    ensures SnapshotPass(w, ps, bs, now) == old(SnapshotPass(w, ps, bs, now))
  {
  }

  /** Entry `e` is player `q`'s ship or a bullet its magazine holds. */
  predicate Owns(q: Player, e: Entity)
    reads q.ship
  {
    e == ShipEntity(q.ship) || (e.BulletEntity? && e.bullet in q.ship.bullets)
  }

  /** The inner loop unregisters only bullets of the snapshot and, when it
      eliminates `p`, what `p` owns. */
  lemma {:induction false} BulletPassObjects(w: WorldState, p: Player, bs: seq<Bullet>, now: real)
    requires NoDup(w.players)
    ensures var r := BulletPass(w, p, bs, now);
      forall e | e in w.objects && e !in r.objects ::
        (e.BulletEntity? && e.bullet in bs) || (p in w.players && p !in r.players && Owns(p, e))
    decreases bs
  {
    if bs != [] {
      var w1 := Strike(w, p, bs[0], now);
      var r := BulletPass(w, p, bs, now);
      assert NoDup(w1.players);
      BulletPassObjects(w1, p, bs[1..], now);
      forall e | e in w.objects && e !in r.objects
        ensures (e.BulletEntity? && e.bullet in bs) || (p in w.players && p !in r.players && Owns(p, e))
      {
        if e !in w1.objects && e != BulletEntity(bs[0]) {
          assert p in w.players && p !in w1.players && Owns(p, e);
        }
      }
    }
  }

  /** The corrected pass unregisters only bullets of the snapshot and what
      the players it eliminates own; every other entry stays. */
  lemma {:induction false} SnapshotPassObjects(w: WorldState, ps: seq<Player>, bs: seq<Bullet>, now: real)
    requires NoDup(w.players)
    ensures var r := SnapshotPass(w, ps, bs, now);
      forall e | e in w.objects && e !in r.objects ::
        (e.BulletEntity? && e.bullet in bs) || exists q | q in ps && q in w.players && q !in r.players :: Owns(q, e)
    decreases ps
  {
    if ps != [] {
      var w1 := BulletPass(w, ps[0], bs, now);
      var r := SnapshotPass(w, ps, bs, now);
      BulletPassPlayers(w, ps[0], bs, now);
      BulletPassObjects(w, ps[0], bs, now);
      SnapshotPassObjects(w1, ps[1..], bs, now);
      SnapshotPassPlayers(w1, ps[1..], bs, now);
      forall e | e in w.objects && e !in r.objects && !(e.BulletEntity? && e.bullet in bs)
        ensures exists q | q in ps && q in w.players && q !in r.players :: Owns(q, e)
      {
        if e !in w1.objects {
          assert ps[0] in ps && ps[0] in w.players && ps[0] !in r.players && Owns(ps[0], e);
        } else {
          var q :| q in ps[1..] && q in w1.players && q !in r.players && Owns(q, e);
          assert q in ps && q in w.players;
        }
      }
    }
  }

  /** One pair of the pass unregisters a fired bullet exactly when it is
      the pair's bullet and hits the player; a player's cascade never takes
      a fired bullet, because magazines hold only unfired ones. */
  lemma StrikeBullets(w: WorldState, p: Player, b: Bullet, now: real)
    requires ValidState(w) && b.activated
    ensures forall c: Bullet | c.activated ::
      BulletEntity(c) in Strike(w, p, b, now).objects <==> BulletEntity(c) in w.objects && !(c == b && Hit(p, b, now))
  {
    if Hit(p, b, now) {
      var w0 := WorldState(w.players, Without(w.objects, BulletEntity(b)));
      RemovingFiredBulletKeepsValid(w, b);
      forall c: Bullet | c.activated
        ensures BulletEntity(c) in Eliminate(w0, p).objects <==> BulletEntity(c) in w0.objects
      {
        if p in w0.players && BulletEntity(c) in w0.objects {
          assert c !in p.ship.bullets;
        }
      }
    }
  }

  /** The inner loop unregisters exactly the fired bullets of the snapshot
      that hit the player; every other fired bullet keeps its place. */
  lemma {:induction false} BulletPassBullets(w: WorldState, p: Player, bs: seq<Bullet>, now: real)
    requires ValidState(w)
    requires forall b | b in bs :: b.activated
    ensures forall c: Bullet | c.activated ::
      BulletEntity(c) in BulletPass(w, p, bs, now).objects <==> BulletEntity(c) in w.objects && !(c in bs && Hit(p, c, now))
    decreases bs
  {
    if bs != [] {
      var w1 := Strike(w, p, bs[0], now);
      StrikeBullets(w, p, bs[0], now);
      BulletPassKeepsValid(w, p, [bs[0]], now);
      assert BulletPass(w, p, [bs[0]], now) == w1;
      BulletPassBullets(w1, p, bs[1..], now);
      assert forall c | c in bs :: c == bs[0] || c in bs[1..];
    }
  }

  /** The corrected pass unregisters exactly the fired bullets of the
      snapshot that hit some player of the snapshot: a bullet that hits is
      gone, a fired bullet that hits nobody stays registered. */
  lemma {:induction false} SnapshotPassBullets(w: WorldState, ps: seq<Player>, bs: seq<Bullet>, now: real)
    requires ValidState(w)
    requires forall b | b in bs :: b.activated
    ensures forall c: Bullet | c.activated ::
      (BulletEntity(c) in SnapshotPass(w, ps, bs, now).objects <==>
       BulletEntity(c) in w.objects && !(c in bs && exists q | q in ps :: Hit(q, c, now)))
    decreases ps
  {
    if ps != [] {
      var w1 := BulletPass(w, ps[0], bs, now);
      BulletPassBullets(w, ps[0], bs, now);
      BulletPassKeepsValid(w, ps[0], bs, now);
      SnapshotPassBullets(w1, ps[1..], bs, now);
      assert forall q | q in ps :: q == ps[0] || q in ps[1..];
    }
  }

  /** The inner loop keeps the world invariant when every bullet of the
      snapshot has been fired. */
  lemma {:induction false} BulletPassKeepsValid(w: WorldState, p: Player, bs: seq<Bullet>, now: real)
    requires ValidState(w)
    requires forall b | b in bs :: b.activated
    ensures ValidState(BulletPass(w, p, bs, now))
    decreases bs
  {
    if bs != [] {
      if Hit(p, bs[0], now) {
        RemovingFiredBulletKeepsValid(w, bs[0]);
        EliminateKeepsValid(WorldState(w.players, Without(w.objects, BulletEntity(bs[0]))), p);
      }
      BulletPassKeepsValid(Strike(w, p, bs[0], now), p, bs[1..], now);
    }
  }

  /** So does the whole corrected pass. */
  lemma {:induction false} SnapshotPassKeepsValid(w: WorldState, ps: seq<Player>, bs: seq<Bullet>, now: real)
    requires ValidState(w)
    requires forall b | b in bs :: b.activated
    ensures ValidState(SnapshotPass(w, ps, bs, now))
    decreases ps
  {
    if ps != [] {
      BulletPassKeepsValid(w, ps[0], bs, now);
      SnapshotPassKeepsValid(BulletPass(w, ps[0], bs, now), ps[1..], bs, now);
    }
  }

  /** `ServerDataInterface`: the registry and the directory built on it. */
  class ServerData {
    const registry: ObjectRegistry
    const directory: PlayerDirectory

    ghost predicate Valid()
      reads registry, directory, Ships(directory.players), Held(directory.players)
    {
      directory.registry == registry && directory.Valid()
    }

    constructor ()
      ensures Valid() && fresh(registry) && fresh(directory)
      ensures registry.objects == [] && directory.players == []
    {
      var r := new ObjectRegistry();
      registry := r;
      directory := new PlayerDirectory(r);
    }

    /** `get_player_object`. */
    method GetPlayerObject(name: string) returns (p: Player?)
      ensures p == FindByName(directory.players, name)
    {
      p := directory.GetPlayerByName(name);
    }

    /** `WorldBullet.__del__` for a fired bullet: it leaves the registry
        and the world invariant still holds. */
    method DestroyFiredBullet(b: Bullet)
      requires Valid() && b.activated
      modifies registry
      ensures Valid()
      ensures registry.objects == Without(old(registry.objects), BulletEntity(b))
    {
      RemovingFiredBulletKeepsValid(directory.State(), b);
      registry.RemoveGameObject(BulletEntity(b));
      ValidStateKept(directory.State());
    }
  }

  /** `ServerWorld`: runs the world on the server's data. */
  class ServerWorld {
    const data: ServerData

    ghost predicate Valid()
      reads data.registry, data.directory, Ships(data.directory.players), Held(data.directory.players)
    {
      data.Valid()
    }

    function State(): WorldState
      reads data.registry, data.directory
    {
      WorldState(data.directory.players, data.registry.objects)
    }

    constructor (data: ServerData)
      ensures this.data == data
    {
      this.data := data;
    }

    /** The inner loop of the pass: player `p` against each bullet of the
        snapshot `bs` in turn. */
    method CheckPlayer(p: Player, bs: seq<Bullet>, now: real)
      requires Valid()
      requires forall b | b in bs :: b.activated
      modifies data.registry, data.directory
      ensures Valid()
      ensures State() == BulletPass(old(State()), p, bs, now)
    {
      ghost var target := BulletPass(State(), p, bs, now);
      var j := 0;
      while j < |bs|
        invariant 0 <= j <= |bs|
        invariant Valid()
        invariant BulletPass(State(), p, bs[j..], now) == target
      {
        StrikeOnce(p, bs[j], now);
        j := j + 1;
      }
    }

    /** The body of the inner loop: if `b` hits `p`, the bullet is
        destroyed, then the player. */
    method StrikeOnce(p: Player, b: Bullet, now: real)
      requires Valid() && b.activated
      modifies data.registry, data.directory
      ensures Valid()
      ensures State() == Strike(old(State()), p, b, now)
    {
      if now - b.activationTime >= GracePeriod && Collides(b.position, p.ship.position) {
        data.DestroyFiredBullet(b);
        data.directory.DeletePlayer(p);
      }
    }

    /** The outer loop of the pass: each player of the snapshot `ps` in
        turn against the bullets of the snapshot `bs`. */
    method CheckPlayers(ps: seq<Player>, bs: seq<Bullet>, now: real)
      requires Valid()
      requires forall b | b in bs :: b.activated
      modifies data.registry, data.directory
      ensures Valid()
      ensures State() == SnapshotPass(old(State()), ps, bs, now)
    {
      ghost var target := SnapshotPass(State(), ps, bs, now);
      var i := 0;
      while i < |ps|
        invariant 0 <= i <= |ps|
        invariant Valid()
        invariant SnapshotPass(State(), ps[i..], bs, now) == target
      {
        assert ps[i..][1..] == ps[i + 1..];
        CheckPlayer(ps[i], bs, now);
        i := i + 1;
      }
    }

    /** `enforce_environment_constraints`: every listed player against
        every fired bullet; a hit destroys the bullet and eliminates the
        player. The players are walked through a snapshot of the list (see
        PlayerPassSkipsNextPlayer for what walking the live list does), the
        bullets through a snapshot taken before the pass, and the clock is
        read once, as `now`. Afterwards exactly the players no bullet hit
        are listed. */
    method EnforceEnvironmentConstraints(now: real)
      requires Valid()
      modifies data.registry, data.directory
      ensures Valid()
      ensures State() == SnapshotPass(old(State()), old(data.directory.players), old(data.registry.GetBullets(true)), now)
      ensures forall q | q in data.directory.players :: q in old(data.directory.players) && !HitByAny(q, old(data.registry.GetBullets(true)), now)
      ensures forall q | q in old(data.directory.players) && !HitByAny(q, old(data.registry.GetBullets(true)), now) :: q in data.directory.players
      ensures forall b | b in old(data.registry.GetBullets(true)) ::
        (BulletEntity(b) in data.registry.objects <==> !exists q | q in old(data.directory.players) :: Hit(q, b, now))
    {
      var ps := data.directory.players;
      var bs := data.registry.GetBullets(true);
      SnapshotPassRemovesExactlyHit(State(), bs, now);
      SnapshotPassBullets(State(), ps, bs, now);
      CheckPlayers(ps, bs, now);
    }

    /** The loop of `update`: each registered object in list order gets its
        `update`: a ship moves by one tick, a fired bullet by its velocity,
        an unfired bullet stays put. */
    method TickAll()
      requires Valid()
      modifies Refs(data.registry.objects)
      ensures Valid()
      ensures State() == old(State())
      ensures forall e | e in data.registry.objects :: Updated(e)
    {
      var objs := data.registry.objects;
      forall k | 0 <= k < |objs| && objs[k].ShipEntity?
        ensures objs[k].ship.Valid()
      {
        var p :| p in data.directory.players && p.ship == objs[k].ship;
        ValidStateShipsValid(State(), p);
      }
      TickObjects(objs);
      forall p | p in data.directory.players
        ensures SpeedOk(p.ship.State())
      {
        TickProperties(old(p.ship.State()));
      }
      ValidStateMoved(State());
    }

    /** `update`: every object takes one step, then the collision pass runs
        at time `now` over the players and fired bullets as they stand
        after the step. */
    method Update(now: real)
      requires Valid()
      modifies data.registry, data.directory, Refs(data.registry.objects)
      ensures Valid()
      ensures forall e | e in old(data.registry.objects) :: Updated(e)
      ensures State() == SnapshotPass(old(State()), old(data.directory.players), old(data.registry.GetBullets(true)), now)
    {
      TickAll();
      ActivatedKept(AllBullets(data.registry.objects));
      EnforceEnvironmentConstraints(now);
    }
  }

  /** What one `update` did to the object of entry `e`: a ship has moved by
      one tick, a fired bullet by its velocity, an unfired bullet not at all;
      magazines and firing data are as they were. */
  twostate predicate Updated(e: Entity)
    reads Ref(e)
  {
    match e
    case ShipEntity(s) => s.State() == Ticked(old(s.State())) && s.bullets == old(s.bullets)
    case BulletEntity(b) =>
      && b.activated == old(b.activated) && b.activationTime == old(b.activationTime)
      && b.velocity == old(b.velocity)
      && b.position == if b.activated then Translate(old(b.position), b.velocity) else old(b.position)
  }

  /** The objects of `objs` get their `update` in list order. */
  method TickObjects(objs: seq<Entity>)
    requires NoDup(objs)
    requires forall k | 0 <= k < |objs| && objs[k].ShipEntity? :: objs[k].ship.Valid()
    modifies Refs(objs)
    ensures forall e | e in objs :: Updated(e)
  {
    var i := 0;
    while i < |objs|
      invariant 0 <= i <= |objs|
      invariant forall k | 0 <= k < i :: Updated(objs[k])
      invariant forall k | i <= k < |objs| :: unchanged(Ref(objs[k]))
      invariant forall k | i <= k < |objs| && objs[k].ShipEntity? :: objs[k].ship.Valid()
    {
      assert Ref(objs[i]) in Refs(objs);
      RefInjective(objs, i);
      UpdateObject(objs[i]);
      i := i + 1;
    }
  }

  /** `update` on one registered object. */
  method UpdateObject(e: Entity)
    requires e.ShipEntity? ==> e.ship.Valid()
    modifies Ref(e)
    ensures Updated(e)
  {
    match e
    case ShipEntity(s) =>
      s.Update();
    case BulletEntity(b) =>
      b.Update();
  }
}
