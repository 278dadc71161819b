/** The entity registry (`WorldToObjectsInterface`): the flat list of every
    object in the world, battleships and bullets alike. Membership and
    removal are by object identity. */
module Registry {
  import opened Entities

  /** An object in the registry, tagged with its kind (the source tells the
      kinds apart with `isinstance`). Equality is identity of the object. */
  datatype Entity = ShipEntity(ship: Battleship) | BulletEntity(bullet: Bullet)

  predicate NoDup<T(==)>(s: seq<T>)
  {
    forall i, j | 0 <= i < j < |s| :: s[i] != s[j]
  }

  /** `if x in s: s.remove(x)`: drops the first occurrence of `x`. */
  function Without<T(==)>(s: seq<T>, x: T): (r: seq<T>)
    ensures x !in s ==> r == s
    ensures x in s ==> |r| == |s| - 1
    ensures forall y | y in r :: y in s
    ensures forall y | y in s && y != x :: y in r
    ensures NoDup(s) ==> NoDup(r) && x !in r
  {
    if s == [] then []
    else if s[0] == x then s[1..]
    else
      var t := Without(s[1..], x);
      assert NoDup(s) ==> s[0] !in s[1..];
      [s[0]] + t
  }

  /** The first position holding `x`. */
  function FirstIndex<T(==)>(s: seq<T>, x: T): (i: nat)
    requires x in s
    ensures i < |s| && s[i] == x && forall k | 0 <= k < i :: s[k] != x
  {
    if s[0] == x then 0 else FirstIndex(s[1..], x) + 1
  }

  /** What "drops the first occurrence" means, position by position: the
      result is `s` with its first `x` cut out and the rest in order. */
  lemma {:induction false} WithoutCutsFirstOccurrence<T>(s: seq<T>, x: T)
    requires x in s
    ensures Without(s, x) == s[..FirstIndex(s, x)] + s[FirstIndex(s, x) + 1..]
  {
    if s[0] == x {
      assert s[..0] == [];
    } else {
      WithoutCutsFirstOccurrence(s[1..], x);
      CutBehindHead(s, x, FirstIndex(s[1..], x));
    }
  }

  /** The inductive step: a cut in the tail is a cut one place later in the list. */
  lemma CutBehindHead<T>(s: seq<T>, x: T, i: nat)
    requires |s| > 0 && s[0] != x && i < |s| - 1
    requires Without(s[1..], x) == s[1..][..i] + s[1..][i + 1..]
    ensures Without(s, x) == s[..i + 1] + s[i + 2..]
  {
    var t := s[1..];
    assert Without(s, x) == [s[0]] + Without(t, x);
    assert s[..i + 1] + s[i + 2..] == [s[0]] + (t[..i] + t[i + 1..]) by {
      assert s[..i + 1] == [s[0]] + t[..i];
      assert s[i + 2..] == t[i + 1..];
    }
  }

  /** Removes each element of `xs` in turn, as a loop of guarded removes does. */
  function WithoutAll<T(==)>(s: seq<T>, xs: seq<T>): (r: seq<T>)
    ensures forall y | y in r :: y in s
    ensures forall y | y in s && y !in xs :: y in r
    ensures NoDup(s) ==> NoDup(r) && forall x | x in xs :: x !in r
  {
    if xs == [] then s
    else
      var r := Without(WithoutAll(s, xs[..|xs| - 1]), xs[|xs| - 1]);
      assert forall x | x in xs :: x in xs[..|xs| - 1] || x == xs[|xs| - 1];
      r
  }

  /** The registry entries of a magazine, in order. */
  function BulletEntities(bs: seq<Bullet>): (r: seq<Entity>)
    ensures |r| == |bs|
    ensures forall i | 0 <= i < |bs| :: r[i] == BulletEntity(bs[i])
    ensures forall e | e in r :: e.BulletEntity? && e.bullet in bs
    ensures forall b | b in bs :: BulletEntity(b) in r
  {
    if bs == [] then []
    else BulletEntities(bs[..|bs| - 1]) + [BulletEntity(bs[|bs| - 1])]
  }

  /** Extending a magazine by one bullet extends its entries by one. */
  lemma BulletEntitiesSnoc(bs: seq<Bullet>, b: Bullet)
    ensures BulletEntities(bs + [b]) == BulletEntities(bs) + [BulletEntity(b)]
  {
    assert (bs + [b])[..|bs|] == bs;
  }

  lemma NoDupSnoc<T>(s: seq<T>, x: T)
    requires NoDup(s) && x !in s
    ensures NoDup(s + [x])
  {
  }

  /** Removing one more bullet of a magazine is one more guarded remove. */
  lemma WithoutAllStep(objects: seq<Entity>, bs: seq<Bullet>, i: nat)
    requires i < |bs|
    ensures WithoutAll(objects, BulletEntities(bs[..i + 1]))
         == Without(WithoutAll(objects, BulletEntities(bs[..i])), BulletEntity(bs[i]))
  {
    assert bs[..i + 1] == bs[..i] + [bs[i]];
    BulletEntitiesSnoc(bs[..i], bs[i]);
  }

  /** The bullets of a list of objects, in list order
      (`get_bullets(get_only_activated=False)`). */
  function AllBullets(objects: seq<Entity>): (r: seq<Bullet>)
    ensures forall b | b in r :: BulletEntity(b) in objects
    ensures forall e | e in objects && e.BulletEntity? :: e.bullet in r
  {
    if objects == [] then []
    else (if objects[0].BulletEntity? then [objects[0].bullet] else []) + AllBullets(objects[1..])
  }

  /** The fired bullets of a list of bullets, in list order. */
  function Activated(bs: seq<Bullet>): seq<Bullet>
    reads bs
  {
    if bs == [] then []
    else (if bs[0].activated then [bs[0]] else []) + Activated(bs[1..])
  }

  /** Activated keeps exactly the fired bullets. */
  lemma {:induction false} ActivatedSelects(bs: seq<Bullet>)
    ensures forall b | b in Activated(bs) :: b in bs && b.activated
    ensures forall b | b in bs && b.activated :: b in Activated(bs)
  {
    if bs != [] {
      ActivatedSelects(bs[1..]);
    }
  }

  /** The filter distributes over concatenation: it keeps the relative
      order of the bullets it selects. */
  lemma {:induction false} AllBulletsAppend(a: seq<Entity>, b: seq<Entity>)
    ensures AllBullets(a + b) == AllBullets(a) + AllBullets(b)
  {
    if a != [] {
      assert (a + b)[1..] == a[1..] + b;
      AllBulletsAppend(a[1..], b);
    } else {
      assert a + b == b;
    }
  }

  /** The fired-bullet filter distributes over concatenation: it keeps
      the relative order of the bullets it selects. */
  lemma {:induction false} ActivatedAppend(a: seq<Bullet>, b: seq<Bullet>)
    ensures Activated(a + b) == Activated(a) + Activated(b)
  {
    if a == [] {
      assert a + b == b;
    } else {
      assert (a + b)[0] == a[0];
      assert (a + b)[1..] == a[1..] + b;
      ActivatedAppend(a[1..], b);
    }
  }

  /** The object an entry refers to. */
  function Ref(e: Entity): object
  {
    match e
    case ShipEntity(s) => s
    case BulletEntity(b) => b
  }

  /** Which bullets count as fired depends on their flags alone: moving
      bullets does not change it. */
  twostate lemma {:induction false} ActivatedKept(bs: seq<Bullet>)
    requires forall b | b in bs :: b.activated == old(b.activated)
    ensures Activated(bs) == old(Activated(bs))
  {
    if bs != [] {
      ActivatedKept(bs[1..]);
    }
  }

  /** Different entries refer to different objects. */
  lemma RefInjective(objs: seq<Entity>, i: int)
    requires NoDup(objs) && 0 <= i < |objs|
    ensures forall k | 0 <= k < |objs| && k != i :: Ref(objs[k]) != Ref(objs[i])
  {
  }

  /** The objects a list refers to. */
  function Refs(objects: seq<Entity>): set<object>
  {
    set e | e in objects :: Ref(e)
  }

  /** `WorldBattleship.__del__` on values: the ship's remaining magazine is
      removed bullet by bullet, then the ship itself. Bullets already fired
      are not in the magazine and stay. */
  function ShipCascade(objects: seq<Entity>, s: Battleship): (r: seq<Entity>)
    reads s
    ensures NoDup(objects) ==> NoDup(r)
    ensures forall e | e in r :: e in objects
    ensures NoDup(objects) ==> ShipEntity(s) !in r && forall b | b in s.bullets :: BulletEntity(b) !in r
    ensures forall e | e in objects && e != ShipEntity(s) && !(e.BulletEntity? && e.bullet in s.bullets) :: e in r
  {
    Without(WithoutAll(objects, BulletEntities(s.bullets)), ShipEntity(s))
  }

  class ObjectRegistry {
    var objects: seq<Entity>

    ghost predicate Valid()
      reads this
    {
      NoDup(objects)
    }

    constructor ()
      ensures objects == [] && Valid()
    {
      objects := [];
    }

    /** `add_game_object`: appends unless the object is already there. */
    method AddGameObject(e: Entity)
      modifies this
      ensures objects == if e in old(objects) then old(objects) else old(objects) + [e]
      ensures old(Valid()) ==> Valid()
    {
      if e !in objects {
        objects := objects + [e];
      }
    }

    /** `remove_game_object`: removes the object if it is there. */
    method RemoveGameObject(e: Entity)
      modifies this
      ensures objects == Without(old(objects), e)
      ensures old(Valid()) ==> Valid()
    {
      if e in objects {
        objects := Without(objects, e);
      }
    }

    /** `get_bullets`. */
    function GetBullets(onlyActivated: bool): (r: seq<Bullet>)
      reads this, AllBullets(objects)
      ensures forall b | b in r :: BulletEntity(b) in objects && (onlyActivated ==> b.activated)
      ensures forall e | e in objects && e.BulletEntity? && (onlyActivated ==> e.bullet.activated) :: e.bullet in r
    {
      ActivatedSelects(AllBullets(objects));
      if onlyActivated then Activated(AllBullets(objects)) else AllBullets(objects)
    }

    /** `WorldBullet.__init__`: a new inert bullet, registered at once. */
    method SpawnBullet(nameExtended: string) returns (b: Bullet)
      modifies this
      ensures fresh(b) && !b.activated && b.velocity == DefaultBulletVelocity
      ensures b.nameExtended == nameExtended
      ensures objects == old(objects) + [BulletEntity(b)]
      ensures old(Valid()) ==> Valid()
    {
      b := new Bullet(nameExtended);
      AddGameObject(BulletEntity(b));
    }

    /** The loop of `WorldBattleship.__init__`: MagazineSize new inert
        bullets, each registered as it is made. */
    method SpawnMagazine(nameExtended: string) returns (magazine: seq<Bullet>)
      modifies this
      ensures |magazine| == MagazineSize && NoDup(magazine)
      ensures forall b | b in magazine :: fresh(b) && !b.activated
      ensures objects == old(objects) + BulletEntities(magazine)
      ensures old(Valid()) ==> Valid()
    {
      magazine := [];
      while |magazine| < MagazineSize
        invariant |magazine| <= MagazineSize
        invariant objects == old(objects) + BulletEntities(magazine)
        invariant old(Valid()) ==> Valid()
        invariant forall b | b in magazine :: fresh(b) && !b.activated
        invariant NoDup(magazine)
      {
        ghost var before := objects;
        var b := SpawnBullet(nameExtended);
        BulletEntitiesSnoc(magazine, b);
        assert old(objects) + BulletEntities(magazine + [b]) == before + [BulletEntity(b)];
        assert b !in magazine;
        NoDupSnoc(magazine, b);
        magazine := magazine + [b];
      }
    }

    /** `WorldBattleship.__init__`: MagazineSize new bullets are registered
        one by one, then the ship that holds them. */
    method SpawnBattleship(nameExtended: string) returns (s: Battleship)
      modifies this
      ensures fresh(s) && s.State() == InitialShipState() && s.Valid()
      ensures |s.bullets| == MagazineSize && forall b | b in s.bullets :: fresh(b)
      ensures s.nameExtended == nameExtended
      ensures objects == old(objects) + BulletEntities(s.bullets) + [ShipEntity(s)]
      ensures old(Valid()) ==> Valid()
    {
      var magazine := SpawnMagazine(nameExtended);
      s := new Battleship(magazine, nameExtended);
      InitialShipStateOk();
      AddGameObject(ShipEntity(s));
    }

    /** `WorldBattleship.__del__`. */
    method DestroyBattleship(s: Battleship)
      modifies this
      ensures objects == ShipCascade(old(objects), s)
      ensures old(Valid()) ==> Valid()
    {
      var i := 0;
      while i < |s.bullets|
        invariant 0 <= i <= |s.bullets|
        invariant objects == WithoutAll(old(objects), BulletEntities(s.bullets[..i]))
        invariant old(Valid()) ==> Valid()
      {
        WithoutAllStep(old(objects), s.bullets, i);
        RemoveGameObject(BulletEntity(s.bullets[i]));
        i := i + 1;
      }
      assert s.bullets[..i] == s.bullets;
      RemoveGameObject(ShipEntity(s));
    }
  }
}
