/** The rules of the zombie shooter (zombie_attack/main.go): a many-cell
    player, zombies that walk in from the right edge of an 80 by 20 frame,
    and bullets the player fires to the right. Every tick moves zombies and
    bullets by their velocity, sometimes spawns a zombie, and resolves
    collisions: a zombie that leaves the frame or touches the player ends the
    game, a bullet that would leave the frame is dropped, and a bullet that
    meets a zombie removes both and scores a point. The random spawn roll
    and spawn row are passed in. */
module ZombieAttack {
  import opened Results

  const GameFrameWidth := 80
  const GameFrameHight := 20

  datatype Point = Point(row: int, col: int, symbol: char)

  datatype GameObject = GameObject(points: seq<Point>, velRow: int, velCol: int)

  function Shift(p: Point, dRow: int, dCol: int): Point {
    p.(row := p.row + dRow, col := p.col + dCol)
  }

  /** Every point of the object moved by the same delta. */
  ghost function Translate(obj: GameObject, dRow: int, dCol: int): (r: GameObject)
    ensures |r.points| == |obj.points| && r.velRow == obj.velRow && r.velCol == obj.velCol
  {
    obj.(points := seq(|obj.points|, i requires 0 <= i < |obj.points| => Shift(obj.points[i], dRow, dCol)))
  }

  /** The object after one tick of `moveGameObjects`. */
  ghost function Advance(obj: GameObject): GameObject {
    Translate(obj, obj.velRow, obj.velCol)
  }

  predicate OutsideFrame(row: int, col: int) {
    row < 0 || row >= GameFrameHight || col < 0 || col >= GameFrameWidth
  }

  /** Some point of the object, moved by the delta, is outside the frame. */
  ghost predicate OutOfBounds(obj: GameObject, dRow: int, dCol: int) {
    exists i :: 0 <= i < |obj.points| && OutsideFrame(obj.points[i].row + dRow, obj.points[i].col + dCol)
  }

  /** `isOutOfBounds`: the look-ahead bounds test. */
  method IsOutOfBounds(obj: GameObject, velRow: int, velCol: int) returns (out: bool)
    ensures out == OutOfBounds(obj, velRow, velCol)
  {
    var i := 0;
    while i < |obj.points|
      invariant 0 <= i <= |obj.points|
      invariant forall j :: 0 <= j < i ==> !OutsideFrame(obj.points[j].row + velRow, obj.points[j].col + velCol)
    {
      var p := obj.points[i];
      var targetRow, targetCol := p.row + velRow, p.col + velCol;
      if targetRow < 0 || targetRow >= GameFrameHight || targetCol < 0 || targetCol >= GameFrameWidth {
        return true;
      }
      i := i + 1;
    }
    return false;
  }

  function Abs(x: int): nat {
    if x < 0 then -x else x
  }

  /** Some point of `a` and some point of `b` are on the same row, at most
      `radius` columns apart. */
  ghost predicate Collided(a: GameObject, b: GameObject, radius: int) {
    exists i, j :: 0 <= i < |a.points| && 0 <= j < |b.points| &&
                   a.points[i].row == b.points[j].row && Abs(a.points[i].col - b.points[j].col) <= radius
  }

  /** `areObjectsCollided`. The source compares the column distance as a
      `float64`, which is exact for grid coordinates. */
  method AreObjectsCollided(a: GameObject, b: GameObject, radius: int) returns (hit: bool)
    ensures hit == Collided(a, b, radius)
  {
    var i := 0;
    while i < |a.points|
      invariant 0 <= i <= |a.points|
      invariant forall i', j :: 0 <= i' < i && 0 <= j < |b.points| ==>
                  !(a.points[i'].row == b.points[j].row && Abs(a.points[i'].col - b.points[j].col) <= radius)
    {
      var p1 := a.points[i];
      var j := 0;
      while j < |b.points|
        invariant 0 <= j <= |b.points|
        invariant forall j' :: 0 <= j' < j ==>
                    !(p1.row == b.points[j'].row && Abs(p1.col - b.points[j'].col) <= radius)
      {
        var p2 := b.points[j];
        if p1.row == p2.row && Abs(p1.col - p2.col) <= radius {
          return true;
        }
        j := j + 1;
      }
      i := i + 1;
    }
    return false;
  }

  /** The loop body of `moveGameObjects` and of `movePlayer`: every point
      moved by the delta. */
  method ShiftPoints(obj: GameObject, dRow: int, dCol: int) returns (r: GameObject)
    ensures r == Translate(obj, dRow, dCol)
  {
    r := obj;
    var i := 0;
    while i < |r.points|
      invariant 0 <= i <= |r.points| == |obj.points|
      invariant r.velRow == obj.velRow && r.velCol == obj.velCol
      invariant forall j :: 0 <= j < i ==> r.points[j] == Shift(obj.points[j], dRow, dCol)
      invariant forall j :: i <= j < |obj.points| ==> r.points[j] == obj.points[j]
    {
      r := r.(points := r.points[i := Shift(r.points[i], dRow, dCol)]);
      i := i + 1;
    }
  }

  /** `moveGameObjects`: each object moved by its own velocity. */
  method MoveGameObjects(objs: seq<GameObject>) returns (moved: seq<GameObject>)
    ensures |moved| == |objs|
    ensures forall k :: 0 <= k < |objs| ==> moved[k] == Advance(objs[k])
  {
    moved := objs;
    var k := 0;
    while k < |moved|
      invariant 0 <= k <= |moved| == |objs|
      invariant forall m :: 0 <= m < k ==> moved[m] == Advance(objs[m])
      invariant forall m :: k <= m < |objs| ==> moved[m] == objs[m]
    {
      var obj := ShiftPoints(moved[k], moved[k].velRow, moved[k].velCol);
      moved := moved[k := obj];
      k := k + 1;
    }
  }

  /** The test `objectOutOfBoundsCollision` makes of one object. Its flag
      is named `lookAhead` but works the other way round: when it is set the
      velocity is zeroed and the object is tested where it stands. */
  ghost predicate OutAt(obj: GameObject, lookAhead: bool) {
    if lookAhead then OutOfBounds(obj, 0, 0) else OutOfBounds(obj, obj.velRow, obj.velCol)
  }

  /** The index `objectOutOfBoundsCollision` hands to its callback: the
      first object that fails the test, if any. */
  ghost function FirstOut(objs: seq<GameObject>, lookAhead: bool): (r: Option<nat>)
    ensures r.Some? ==> r.value < |objs| && OutAt(objs[r.value], lookAhead) &&
                        forall j :: 0 <= j < r.value ==> !OutAt(objs[j], lookAhead)
    ensures r.None? ==> forall j :: 0 <= j < |objs| ==> !OutAt(objs[j], lookAhead)
  {
    if objs == [] then None
    else if OutAt(objs[0], lookAhead) then Some(0)
    else match FirstOut(objs[1..], lookAhead)
      case Some(k) => Some(k + 1)
      case None => None
  }

  /** `objectOutOfBoundsCollision`: the callback runs at most once, for the
      returned index. */
  method ObjectOutOfBoundsCollision(objs: seq<GameObject>, lookAhead: bool) returns (idx: Option<nat>)
    ensures idx == FirstOut(objs, lookAhead)
  {
    var i := 0;
    while i < |objs|
      invariant 0 <= i <= |objs|
      invariant forall j :: 0 <= j < i ==> !OutAt(objs[j], lookAhead)
    {
      var obj := objs[i];
      var velRow, velCol := obj.velRow, obj.velCol;
      if lookAhead {
        velRow, velCol := 0, 0;
      }
      var out := IsOutOfBounds(obj, velRow, velCol);
      if out {
        return Some(i);
      }
      i := i + 1;
    }
    return None;
  }

  /** The first zombie a bullet meets, scanning the zombies in order. */
  ghost function FirstHit(bullet: GameObject, zombies: seq<GameObject>): (r: Option<nat>)
    ensures r.Some? ==> r.value < |zombies| && Collided(bullet, zombies[r.value], 1) &&
                        forall j :: 0 <= j < r.value ==> !Collided(bullet, zombies[j], 1)
    ensures r.None? ==> forall j :: 0 <= j < |zombies| ==> !Collided(bullet, zombies[j], 1)
  {
    if zombies == [] then None
    else if Collided(bullet, zombies[0], 1) then Some(0)
    else match FirstHit(bullet, zombies[1..])
      case Some(k) => Some(k + 1)
      case None => None
  }

  /** The inner loop over zombies in `collisionDetection`. */
  method FindHit(bullet: GameObject, zombies: seq<GameObject>) returns (r: Option<nat>)
    ensures r == FirstHit(bullet, zombies)
  {
    var zi := 0;
    while zi < |zombies|
      invariant 0 <= zi <= |zombies|
      invariant forall j :: 0 <= j < zi ==> !Collided(bullet, zombies[j], 1)
    {
      var hit := AreObjectsCollided(bullet, zombies[zi], 1);
      if hit {
        return Some(zi);
      }
      zi := zi + 1;
    }
    return None;
  }

  function RemoveAt(s: seq<GameObject>, i: nat): (r: seq<GameObject>)
    requires i < |s|
    ensures |r| == |s| - 1
  {
    s[..i] + s[i + 1..]
  }

  /** What is left after bullets meet zombies, and how many kills it took. */
  datatype Hits = Hits(bullets: seq<GameObject>, zombies: seq<GameObject>, kills: nat)

  /** The loop over zombies in `collisionDetection` that ends the game when
      one of them touches the player. */
  method AnyZombieTouches(player: GameObject, zombies: seq<GameObject>) returns (touched: bool)
    ensures touched <==> exists k :: 0 <= k < |zombies| && Collided(player, zombies[k], 1)
  {
    touched := false;
    var k := 0;
    while k < |zombies|
      invariant 0 <= k <= |zombies|
      invariant touched <==> exists m :: 0 <= m < k && Collided(player, zombies[m], 1)
    {
      var hit := AreObjectsCollided(player, zombies[k], 1);
      if hit {
        touched := true;
      }
      k := k + 1;
    }
  }

  /** The bullet-zombie pass of `collisionDetection` as evidently intended:
      each bullet, in order, removes the first zombie it meets, and both go.
      There are never more kills than bullets. */
  ghost function ResolveHits(bullets: seq<GameObject>, zombies: seq<GameObject>): (h: Hits)
    ensures h.kills <= |bullets|
    decreases |bullets|
  {
    if bullets == [] then Hits([], zombies, 0)
    else match FirstHit(bullets[0], zombies)
      case Some(j) =>
        var rest := ResolveHits(bullets[1..], RemoveAt(zombies, j));
        rest.(kills := rest.kills + 1)
      case None =>
        var rest := ResolveHits(bullets[1..], zombies);
        rest.(bullets := [bullets[0]] + rest.bullets)
  }

  /** The bullet-zombie pass with the removal done so that no bullet is
      skipped: the index stays put when the bullet under it is removed. */
  method ResolveBulletHits(bullets: seq<GameObject>, zombies: seq<GameObject>)
    returns (bs: seq<GameObject>, zs: seq<GameObject>, kills: nat)
    ensures Hits(bs, zs, kills) == ResolveHits(bullets, zombies)
  {
    bs, zs, kills := bullets, zombies, 0;
    ghost var target := ResolveHits(bullets, zombies);
    var bi := 0;
    assert bs[..0] == [] && bs[0..] == bs;
    while bi < |bs|
      invariant 0 <= bi <= |bs|
      invariant PassResumes(target, bs, bi, zs, kills)
      decreases |bs| - bi
    {
      var zi := FindHit(bs[bi], zs);
      match zi {
        case Some(j) =>
          HitKeepsPass(target, bs, bi, zs, kills, j);
          kills := kills + 1;
          bs := RemoveAt(bs, bi);
          zs := RemoveAt(zs, j);
        case None =>
          MissKeepsPass(target, bs, bi, zs, kills);
          bi := bi + 1;
      }
    }
    assert bs[..bi] == bs && bs[bi..] == [];
  }

  /** The loop of `ResolveBulletHits` has settled `bs[..bi]` as survivors
      and `kills` kills, and resuming the pass from `bi` gives `target`. */
  ghost predicate PassResumes(target: Hits, bs: seq<GameObject>, bi: nat, zs: seq<GameObject>, kills: nat)
    requires bi <= |bs|
  {
    var rest := ResolveHits(bs[bi..], zs);
    target == Hits(bs[..bi] + rest.bullets, rest.zombies, kills + rest.kills)
  }

  /** A hit removes the bullet under the index and its zombie and scores. */
  lemma HitKeepsPass(target: Hits, bs: seq<GameObject>, bi: nat, zs: seq<GameObject>, kills: nat, j: nat)
    requires bi < |bs| && FirstHit(bs[bi], zs) == Some(j)
    requires PassResumes(target, bs, bi, zs, kills)
    ensures PassResumes(target, RemoveAt(bs, bi), bi, RemoveAt(zs, j), kills + 1)
  {
    assert bs[bi..][0] == bs[bi] && bs[bi..][1..] == bs[bi + 1..];
    var bs' := RemoveAt(bs, bi);
    assert bs'[..bi] == bs[..bi] && bs'[bi..] == bs[bi + 1..];
  }

  /** A miss settles the bullet under the index as a survivor. */
  lemma MissKeepsPass(target: Hits, bs: seq<GameObject>, bi: nat, zs: seq<GameObject>, kills: nat)
    requires bi < |bs| && FirstHit(bs[bi], zs) == None
    requires PassResumes(target, bs, bi, zs, kills)
    ensures PassResumes(target, bs, bi + 1, zs, kills)
  {
    assert bs[bi..][0] == bs[bi] && bs[bi..][1..] == bs[bi + 1..];
    assert bs[..bi + 1] == bs[..bi] + [bs[bi]];
  }

  /** Each bullet kills at most one zombie, and every kill takes exactly one
      bullet and one zombie away. */
  lemma {:induction false} ResolveHitsCounts(bullets: seq<GameObject>, zombies: seq<GameObject>)
    ensures var h := ResolveHits(bullets, zombies);
            && |h.bullets| + h.kills == |bullets|
            && |h.zombies| + h.kills == |zombies|
    decreases |bullets|
  {
    if bullets != [] {
      match FirstHit(bullets[0], zombies) {
        case Some(j) => ResolveHitsCounts(bullets[1..], RemoveAt(zombies, j));
        case None => ResolveHitsCounts(bullets[1..], zombies);
      }
    }
  }

  /** The survivors are drawn from the bullets and zombies there were. */
  lemma {:induction false} ResolveHitsKeepsOnlyOriginals(bullets: seq<GameObject>, zombies: seq<GameObject>)
    ensures var h := ResolveHits(bullets, zombies);
            && (forall b :: b in h.bullets ==> b in bullets)
            && (forall z :: z in h.zombies ==> z in zombies)
    decreases |bullets|
  {
    if bullets != [] {
      match FirstHit(bullets[0], zombies) {
        case Some(j) =>
          ResolveHitsKeepsOnlyOriginals(bullets[1..], RemoveAt(zombies, j));
          forall b | b in bullets[1..] ensures b in bullets {
            var k :| 0 <= k < |bullets[1..]| && bullets[1..][k] == b;
            assert bullets[k + 1] == b;
          }
          forall z | z in RemoveAt(zombies, j) ensures z in zombies {
            var k :| 0 <= k < |RemoveAt(zombies, j)| && RemoveAt(zombies, j)[k] == z;
            if k < j { assert zombies[k] == z; } else { assert zombies[k + 1] == z; }
          }
        case None =>
          ResolveHitsKeepsOnlyOriginals(bullets[1..], zombies);
          forall b | b in bullets[1..] ensures b in bullets {
            var k :| 0 <= k < |bullets[1..]| && bullets[1..][k] == b;
            assert bullets[k + 1] == b;
          }
      }
    }
  }

  /** No bullet touches any zombie. */
  ghost predicate NoHits(h: Hits) {
    forall i, j :: 0 <= i < |h.bullets| && 0 <= j < |h.zombies| ==> !Collided(h.bullets[i], h.zombies[j], 1)
  }

  /** After the pass no surviving bullet touches a surviving zombie. */
  lemma {:induction false} ResolveHitsLeavesNoHit(bullets: seq<GameObject>, zombies: seq<GameObject>)
    ensures NoHits(ResolveHits(bullets, zombies))
    decreases |bullets|
  {
    if bullets != [] {
      match FirstHit(bullets[0], zombies) {
        case Some(j) =>
          var rest := ResolveHits(bullets[1..], RemoveAt(zombies, j));
          ResolveHitsLeavesNoHit(bullets[1..], RemoveAt(zombies, j));
          var h := ResolveHits(bullets, zombies);
          assert h.bullets == rest.bullets && h.zombies == rest.zombies;
        case None =>
          var rest := ResolveHits(bullets[1..], zombies);
          ResolveHitsLeavesNoHit(bullets[1..], zombies);
          ResolveHitsKeepsOnlyOriginals(bullets[1..], zombies);
          var h := ResolveHits(bullets, zombies);
          assert h.bullets == [bullets[0]] + rest.bullets && h.zombies == rest.zombies;
          forall i, j | 0 <= i < |h.bullets| && 0 <= j < |h.zombies|
            ensures !Collided(h.bullets[i], h.zombies[j], 1)
          {
            if i == 0 {
              assert h.zombies[j] in zombies;
              var k :| 0 <= k < |zombies| && zombies[k] == h.zombies[j];
              assert !Collided(bullets[0], zombies[k], 1);
              assert h.bullets[0] == bullets[0];
            } else {
              assert h.bullets[i] == rest.bullets[i - 1];
              assert !Collided(rest.bullets[i - 1], rest.zombies[j], 1);
            }
          }
      }
    }
  }

  /** How a run of the source's loop over `bullets` ends. */
  datatype Outcome = Completed(hits: Hits) | Panicked

  /** The bullet-zombie pass of `collisionDetection` as written. `range`
      fixes the number of iterations and reads `arr`, the slice's backing
      array, afresh on every iteration, while the loop splices the slice in
      place: `bullets` is `arr[..len]`. Removing at `bi` shifts the tail of
      the slice one place left and leaves the old last element where it was;
      the iteration index moves on regardless, so the element shifted into
      `bi` is skipped and stale copies are visited at the end. Removing at
      an index not below `len` evaluates `bullets[bi+1:]` past the slice's
      length, which is a run-time panic in Go. When the loop completes, every
      kill has taken exactly one bullet off the slice and one zombie away. */
  ghost function ResolveHitsAsWritten(arr: seq<GameObject>, len: nat, bi: nat,
                                      zombies: seq<GameObject>, kills: nat): (r: Outcome)
    requires len <= |arr|
    ensures r.Completed? ==> |r.hits.bullets| + r.hits.kills == len + kills
    ensures r.Completed? ==> |r.hits.zombies| + r.hits.kills == |zombies| + kills
    decreases |arr| - bi
  {
    if bi >= |arr| then Completed(Hits(arr[..len], zombies, kills))
    else match FirstHit(arr[bi], zombies)
      case None => ResolveHitsAsWritten(arr, len, bi + 1, zombies, kills)
      case Some(zi) =>
        if bi + 1 > len then Panicked
        else ResolveHitsAsWritten(arr[..bi] + arr[bi + 1..len] + arr[len - 1..], len - 1, bi + 1,
                                  RemoveAt(zombies, zi), kills + 1)
  }

  function Bullet(row: int, col: int): GameObject {
    GameObject([Point(row, col, '*')], 0, 2)
  }

  /** A zombie at its spawn position: the head at `originRow`, column 78. */
  function Zombie(originRow: int): GameObject {
    var originCol := GameFrameWidth - 2;
    GameObject([Point(originRow, originCol, '0'),
                Point(originRow + 1, originCol, '|'),
                Point(originRow + 1, originCol - 1, '\\'),
                Point(originRow + 2, originCol, '|'),
                Point(originRow + 3, originCol - 1, '/'),
                Point(originRow + 3, originCol + 1, '\\')],
               0, -1)
  }

  /** Two single-cell bullets, each level with a different single-cell
      zombie one column ahead. */
  function Target(row: int, col: int): GameObject {
    GameObject([Point(row, col, '0')], 0, -1)
  }

  /** The source's loop crashes when two bullets hit two zombies in the same
      tick: after the first removal the second bullet is visited again as a
      stale copy past the slice's end, and removing it panics. With the
      removal done right both bullets and both zombies go and two points are
      scored. */
  lemma SpliceInRangePanics()
    ensures var bullets := [Bullet(5, 40), Bullet(10, 40)];
            var zombies := [Target(5, 41), Target(10, 41)];
            && ResolveHitsAsWritten(bullets, 2, 0, zombies, 0) == Panicked
            && ResolveHits(bullets, zombies) == Hits([], [], 2)
  {
    var b1, b2 := Bullet(5, 40), Bullet(10, 40);
    var z1, z2 := Target(5, 41), Target(10, 41);
    FirstHitsOfExample();
    assert [b1, b2][..0] + [b1, b2][1..2] + [b1, b2][1..] == [b2, b2];
    assert ResolveHitsAsWritten([b1, b2], 2, 0, [z1, z2], 0) == ResolveHitsAsWritten([b2, b2], 1, 1, [z2], 1);
    assert [b1, b2][1..] == [b2] && [b2][1..] == [];
    assert RemoveAt([z1, z2], 0) == [z2] && RemoveAt([z2], 0) == [];
  }

  /** With a third bullet the source's loop does not crash but skips: the
      bullet shifted into the removed one's place is never tested, and it
      survives next to the zombie it touches. The corrected pass removes it
      with its zombie. */
  lemma SpliceInRangeSkips()
    ensures var bullets := [Bullet(5, 40), Bullet(10, 40), Bullet(15, 40)];
            var zombies := [Target(5, 41), Target(10, 41)];
            && ResolveHitsAsWritten(bullets, 3, 0, zombies, 0) ==
               Completed(Hits([Bullet(10, 40), Bullet(15, 40)], [Target(10, 41)], 1))
            && ResolveHits(bullets, zombies) == Hits([Bullet(15, 40)], [], 2)
  {
    SkipExampleAsWritten();
    SkipExampleCorrected();
  }

  /** The as-written half of `SpliceInRangeSkips`, step by step. */
  lemma SkipExampleAsWritten()
    ensures var bullets := [Bullet(5, 40), Bullet(10, 40), Bullet(15, 40)];
            var zombies := [Target(5, 41), Target(10, 41)];
            ResolveHitsAsWritten(bullets, 3, 0, zombies, 0) ==
              Completed(Hits([Bullet(10, 40), Bullet(15, 40)], [Target(10, 41)], 1))
  {
    var b1, b2, b3 := Bullet(5, 40), Bullet(10, 40), Bullet(15, 40);
    var z1, z2 := Target(5, 41), Target(10, 41);
    FirstHitsOfExample();
    var three := [b1, b2, b3];
    var after := [b2, b3, b3];
    assert three[..0] + three[1..3] + three[2..] == after;
    assert RemoveAt([z1, z2], 0) == [z2];
    assert ResolveHitsAsWritten(three, 3, 0, [z1, z2], 0) == ResolveHitsAsWritten(after, 2, 1, [z2], 1);
    assert after[1] == b3 && after[2] == b3;
    assert ResolveHitsAsWritten(after, 2, 1, [z2], 1) == ResolveHitsAsWritten(after, 2, 2, [z2], 1);
    assert ResolveHitsAsWritten(after, 2, 2, [z2], 1) == ResolveHitsAsWritten(after, 2, 3, [z2], 1);
    assert after[..2] == [b2, b3];
  }

  /** The corrected half of `SpliceInRangeSkips`. */
  lemma SkipExampleCorrected()
    ensures ResolveHits([Bullet(5, 40), Bullet(10, 40), Bullet(15, 40)], [Target(5, 41), Target(10, 41)]) ==
            Hits([Bullet(15, 40)], [], 2)
  {
    var b1, b2, b3 := Bullet(5, 40), Bullet(10, 40), Bullet(15, 40);
    var z1, z2 := Target(5, 41), Target(10, 41);
    FirstHitsOfExample();
    assert ResolveHits([], []) == Hits([], [], 0);
    assert [b3][1..] == [];
    assert ResolveHits([b3], []) == Hits([b3], [], 0);
    assert [b2, b3][1..] == [b3] && RemoveAt([z2], 0) == [];
    assert ResolveHits([b2, b3], [z2]) == Hits([b3], [], 1);
    assert [b1, b2, b3][1..] == [b2, b3] && RemoveAt([z1, z2], 0) == [z2];
  }

  /** Which zombie each bullet of the two examples meets first. */
  lemma FirstHitsOfExample()
    ensures var b1, b2, b3 := Bullet(5, 40), Bullet(10, 40), Bullet(15, 40);
            var z1, z2 := Target(5, 41), Target(10, 41);
            && FirstHit(b1, [z1, z2]) == Some(0)
            && FirstHit(b2, [z1, z2]) == Some(1)
            && FirstHit(b2, [z2]) == Some(0)
            && FirstHit(b3, [z2]) == None
            && FirstHit(b3, []) == None
  {
    var b1, b2, b3 := Bullet(5, 40), Bullet(10, 40), Bullet(15, 40);
    var z1, z2 := Target(5, 41), Target(10, 41);
    assert Collided(b1, z1, 1) by { assert b1.points[0].row == z1.points[0].row; }
    assert Collided(b2, z2, 1) by { assert b2.points[0].row == z2.points[0].row; }
    assert [z1, z2][1..] == [z2] && [z2][1..] == [];
  }

  /** The globals of the game. */
  datatype World = World(player: GameObject, zombies: seq<GameObject>, bullets: seq<GameObject>,
                         score: int, isGameOver: bool, isGamePaused: bool, exited: bool)

  /** The player `initGameState` builds: nine cells, standing still. */
  function InitialPlayer(): GameObject {
    GameObject([Point(5, 1, '0'), Point(6, 1, '|'), Point(6, 2, '-'), Point(6, 3, '-'),
                Point(6, 4, '-'), Point(7, 2, '/'), Point(7, 1, '|'), Point(8, 0, '/'),
                Point(8, 2, '\\')],
               0, 0)
  }

  function InitialWorld(): World {
    World(InitialPlayer(), [], [], 0, false, false, false)
  }

  /** The state `moveGameObjects` leaves, called on zombies, bullets and the
      player. */
  ghost function MoveSpec(w: World): World {
    w.(zombies := seq(|w.zombies|, k requires 0 <= k < |w.zombies| => Advance(w.zombies[k])),
       bullets := seq(|w.bullets|, k requires 0 <= k < |w.bullets| => Advance(w.bullets[k])),
       player := Advance(w.player))
  }

  /** The state `updateZombies` leaves: a roll below 5 out of 100 spawns a
      zombie. */
  ghost function UpdateZombiesSpec(w: World, roll: int, originRow: int): World {
    if roll < 5 then w.(zombies := w.zombies + [Zombie(originRow)]) else w
  }

  /** Some zombie touches the player. */
  ghost predicate ZombieTouchesPlayer(w: World) {
    exists k :: 0 <= k < |w.zombies| && Collided(w.player, w.zombies[k], 1)
  }

  /** The bullets left once the first one that would leave the frame is
      dropped. */
  ghost function BulletsInFrame(bullets: seq<GameObject>): seq<GameObject> {
    match FirstOut(bullets, false)
    case Some(i) => RemoveAt(bullets, i)
    case None => bullets
  }

  /** The state `collisionDetection` leaves, with the corrected bullet pass.
      The player and the pause flag are untouched, the score never falls,
      and a game once over stays over. */
  ghost function CollisionDetectionSpec(w: World): (w': World)
    ensures w'.player == w.player && w'.isGamePaused == w.isGamePaused && w'.exited == w.exited
    ensures w'.score >= w.score && (w.isGameOver ==> w'.isGameOver)
  {
    var h := ResolveHits(BulletsInFrame(w.bullets), w.zombies);
    w.(bullets := h.bullets, zombies := h.zombies, score := w.score + h.kills,
       isGameOver := w.isGameOver || FirstOut(w.zombies, true).Some? || ZombieTouchesPlayer(w))
  }

  /** The computation of `collisionDetection` on a snapshot of the game:
      the first escaping zombie and any touching zombie end the game, the
      first bullet about to leave is dropped, and the bullet pass is done
      without skipping. */
  method ResolveCollisions(w: World) returns (r: World)
    ensures r == CollisionDetectionSpec(w)
  {
    var escaped := ObjectOutOfBoundsCollision(w.zombies, true);
    var gone := ObjectOutOfBoundsCollision(w.bullets, false);
    var kept := w.bullets;
    if gone.Some? {
      kept := RemoveAt(w.bullets, gone.value);
    }
    var touched := AnyZombieTouches(w.player, w.zombies);
    var bs, zs, kills := ResolveBulletHits(kept, w.zombies);
    r := w.(bullets := bs, zombies := zs, score := w.score + kills,
            isGameOver := w.isGameOver || escaped.Some? || touched);
  }

  /** The state `updateState` leaves. */
  ghost function UpdateStateSpec(w: World, roll: int, originRow: int): World {
    if w.isGamePaused then w
    else CollisionDetectionSpec(UpdateZombiesSpec(MoveSpec(w), roll, originRow))
  }

  /** The state `handleUserInput` leaves; `q` ends the process. */
  ghost function HandleUserInputSpec(w: World, key: string): World
    requires |w.player.points| > 0
  {
    var head := w.player.points[0];
    if key == "Rune[q]" then w.(exited := true)
    else if key == "Rune[p]" then w.(isGamePaused := !w.isGamePaused)
    else if key == "Enter" then w.(bullets := w.bullets + [Bullet(head.row + 1, head.col + 3)])
    else if key == "Rune[w]" && !OutOfBounds(w.player, -1, 0) then w.(player := Translate(w.player, -1, 0))
    else if key == "Rune[s]" && !OutOfBounds(w.player, 1, 0) then w.(player := Translate(w.player, 1, 0))
    else if key == "Rune[a]" && !OutOfBounds(w.player, 0, -1) then w.(player := Translate(w.player, 0, -1))
    else if key == "Rune[d]" && !OutOfBounds(w.player, 0, 1) then w.(player := Translate(w.player, 0, 1))
    else w
  }

  /** What holds throughout: the player has a head cell, stands still
      between key presses, and lies wholly inside the frame. */
  ghost predicate Valid(w: World) {
    |w.player.points| > 0 && w.player.velRow == 0 && w.player.velCol == 0 && !OutOfBounds(w.player, 0, 0)
  }

  class Game {
    var player: GameObject
    var zombies: seq<GameObject>
    var bullets: seq<GameObject>
    var score: int
    var isGameOver: bool
    var isGamePaused: bool
    var exited: bool

    ghost function Snapshot(): World
      reads this
    {
      World(player, zombies, bullets, score, isGameOver, isGamePaused, exited)
    }

    /** `initGameState`, with the zero values of the other globals. */
    constructor ()
      ensures Snapshot() == InitialWorld()
    {
      player := InitialPlayer();
      zombies, bullets := [], [];
      score := 0;
      isGameOver, isGamePaused, exited := false, false, false;
    }

    /** `movePlayer`. */
    method MovePlayer(vRow: int, vCol: int)
      modifies this
      ensures Snapshot() == old(Snapshot()).(player := Translate(old(player), vRow, vCol))
    {
      player := ShiftPoints(player, vRow, vCol);
    }

    /** `spawnBullet`: one bullet, moving two columns right per tick. */
    method SpawnBullet(row: int, col: int)
      modifies this
      ensures Snapshot() == old(Snapshot()).(bullets := old(bullets) + [Bullet(row, col)])
    {
      bullets := bullets + [GameObject([Point(row, col, '*')], 0, 2)];
    }

    /** `spawnZombie`, with the random row passed in. */
    method SpawnZombie(originRow: int)
      modifies this
      ensures Snapshot() == old(Snapshot()).(zombies := old(zombies) + [Zombie(originRow)])
    {
      zombies := zombies + [Zombie(originRow)];
    }

    /** `updateZombies`, with the roll out of 100 passed in. */
    method UpdateZombies(roll: int, originRow: int)
      modifies this
      ensures Snapshot() == UpdateZombiesSpec(old(Snapshot()), roll, originRow)
    {
      if roll < 5 {
        SpawnZombie(originRow);
      }
    }

    /** `collisionDetection`, with the bullet pass done without skipping. */
    method CollisionDetection()
      modifies this
      ensures Snapshot() == CollisionDetectionSpec(old(Snapshot()))
    {
      var w := ResolveCollisions(World(player, zombies, bullets, score, isGameOver, isGamePaused, exited));
      bullets, zombies, score, isGameOver := w.bullets, w.zombies, w.score, w.isGameOver;
    }

    /** `updateState`, with the spawn roll and row passed in. */
    method UpdateState(roll: int, originRow: int)
      modifies this
      ensures Snapshot() == UpdateStateSpec(old(Snapshot()), roll, originRow)
    {
      if isGamePaused {
        return;
      }
      ghost var w := Snapshot();
      var all := zombies + bullets + [player];
      var moved := MoveGameObjects(all);
      var nz, nb := |zombies|, |bullets|;
      zombies, bullets, player := moved[..nz], moved[nz..nz + nb], moved[|moved| - 1];
      assert zombies == MoveSpec(w).zombies by {
        forall k | 0 <= k < nz ensures zombies[k] == Advance(w.zombies[k]) {
          assert all[k] == w.zombies[k];
        }
      }
      assert bullets == MoveSpec(w).bullets by {
        forall k | 0 <= k < nb ensures bullets[k] == Advance(w.bullets[k]) {
          assert all[nz + k] == w.bullets[k];
        }
      }
      assert all[nz + nb] == w.player;
      assert Snapshot() == MoveSpec(w);
      UpdateZombies(roll, originRow);
      CollisionDetection();
    }

    /** `handleUserInput`: `p` toggles the pause, Enter fires from the cell
        below and three to the right of the head, and `w`/`s`/`a`/`d` move
        the player when the whole figure stays in the frame; `q` ends the
        process, modelled by `exited`. */
    method HandleUserInput(key: string)
      requires |player.points| > 0
      modifies this
      ensures Snapshot() == HandleUserInputSpec(old(Snapshot()), key)
    {
      if key == "Rune[q]" {
        exited := true;
        return;
      } else if key == "Rune[p]" {
        isGamePaused := !isGamePaused;
        return;
      } else if key == "Enter" {
        SpawnBullet(player.points[0].row + 1, player.points[0].col + 3);
        return;
      }
      var up := IsOutOfBounds(player, -1, 0);
      if key == "Rune[w]" && !up {
        MovePlayer(-1, 0);
        return;
      }
      var down := IsOutOfBounds(player, 1, 0);
      if key == "Rune[s]" && !down {
        MovePlayer(1, 0);
        return;
      }
      var left := IsOutOfBounds(player, 0, -1);
      if key == "Rune[a]" && !left {
        MovePlayer(0, -1);
        return;
      }
      var right := IsOutOfBounds(player, 0, 1);
      if key == "Rune[d]" && !right {
        MovePlayer(0, 1);
      }
    }

    /** One pass of the loop in `main` on the key read this tick ("" when
        none was pending) and this tick's random numbers; after `q` the
        process is gone. */
    method Tick(key: string, roll: int, originRow: int)
      requires |player.points| > 0
      modifies this
      ensures var w := HandleUserInputSpec(old(Snapshot()), key);
              Snapshot() == if w.exited then w else UpdateStateSpec(w, roll, originRow)
    {
      HandleUserInput(key);
      if !exited {
        UpdateState(roll, originRow);
      }
    }
  }

  /** Testing with a delta is testing the moved object where it stands. */
  lemma LookAheadIsMove(obj: GameObject, dRow: int, dCol: int)
    ensures OutOfBounds(obj, dRow, dCol) <==> OutOfBounds(Translate(obj, dRow, dCol), 0, 0)
  {
    var moved := Translate(obj, dRow, dCol);
    if OutOfBounds(obj, dRow, dCol) {
      var i :| 0 <= i < |obj.points| && OutsideFrame(obj.points[i].row + dRow, obj.points[i].col + dCol);
      assert OutsideFrame(moved.points[i].row + 0, moved.points[i].col + 0);
    }
  }

  /** Translating back by the opposite delta restores the object; a zero
      delta changes nothing. */
  lemma TranslateRoundTrip(obj: GameObject, dRow: int, dCol: int)
    ensures Translate(Translate(obj, dRow, dCol), -dRow, -dCol) == obj
    ensures Translate(obj, 0, 0) == obj
  {
    var back := Translate(Translate(obj, dRow, dCol), -dRow, -dCol);
    assert back.points == obj.points;
    assert Translate(obj, 0, 0).points == obj.points;
  }

  /** The hit test does not depend on the order of its objects, and a wider
      radius only finds more hits. */
  lemma CollidedSymmetricMonotone(a: GameObject, b: GameObject, radius: int, wider: int)
    requires radius <= wider
    ensures Collided(a, b, radius) <==> Collided(b, a, radius)
    ensures Collided(a, b, radius) ==> Collided(a, b, wider)
  {
    if Collided(a, b, radius) {
      var i, j :| 0 <= i < |a.points| && 0 <= j < |b.points| &&
                  a.points[i].row == b.points[j].row && Abs(a.points[i].col - b.points[j].col) <= radius;
      assert Abs(b.points[j].col - a.points[i].col) <= radius;
    }
    if Collided(b, a, radius) {
      var j, i :| 0 <= j < |b.points| && 0 <= i < |a.points| &&
                  b.points[j].row == a.points[i].row && Abs(b.points[j].col - a.points[i].col) <= radius;
      assert Abs(a.points[i].col - b.points[j].col) <= radius;
    }
  }

  /** A fresh zombie has six cells, all inside the frame for every row the
      spawn can draw, and walks left one column per tick. */
  lemma ZombieSpawnsInFrame(originRow: int)
    requires 0 <= originRow < GameFrameHight - 3
    ensures |Zombie(originRow).points| == 6
    ensures !OutOfBounds(Zombie(originRow), 0, 0)
    ensures Zombie(originRow).velRow == 0 && Zombie(originRow).velCol == -1
  {
  }

  /** Keys keep the player wholly inside the frame: a move is made only when
      the whole figure stays inside; Enter adds exactly one bullet, below and
      to the right of the head, and nothing else changes. */
  lemma InputKeepsPlayerInFrame(w: World, key: string)
    requires Valid(w)
    ensures Valid(HandleUserInputSpec(w, key))
    ensures key == "Enter" ==>
              HandleUserInputSpec(w, key).bullets ==
              w.bullets + [Bullet(w.player.points[0].row + 1, w.player.points[0].col + 3)]
    ensures HandleUserInputSpec(w, key).zombies == w.zombies
    ensures HandleUserInputSpec(w, key).score == w.score
  {
    var w' := HandleUserInputSpec(w, key);
    if w'.player != w.player {
      var d := if key == "Rune[w]" then (-1, 0) else if key == "Rune[s]" then (1, 0)
               else if key == "Rune[a]" then (0, -1) else (0, 1);
      assert w'.player == Translate(w.player, d.0, d.1);
      assert !OutOfBounds(w.player, d.0, d.1);
      LookAheadIsMove(w.player, d.0, d.1);
    }
  }

  /** A tick leaves the player where it is, since its velocity is zero. */
  lemma UpdateKeepsPlayer(w: World, roll: int, originRow: int)
    requires Valid(w)
    ensures UpdateStateSpec(w, roll, originRow).player == w.player
    ensures Valid(UpdateStateSpec(w, roll, originRow))
  {
    TranslateRoundTrip(w.player, 0, 0);
  }

  /** A whole pass of the loop in `main` keeps the player valid. */
  lemma TickKeepsValid(w: World, key: string, roll: int, originRow: int)
    requires Valid(w)
    ensures var w' := HandleUserInputSpec(w, key);
            Valid(if w'.exited then w' else UpdateStateSpec(w', roll, originRow))
  {
    InputKeepsPlayerInFrame(w, key);
    UpdateKeepsPlayer(HandleUserInputSpec(w, key), roll, originRow);
  }

  /** A paused game does not move. */
  lemma PausedUpdateChangesNothing(w: World, roll: int, originRow: int)
    requires w.isGamePaused
    ensures UpdateStateSpec(w, roll, originRow) == w
  {
  }

  /** Bookkeeping of `collisionDetection`: at most one bullet is dropped at
      the frame's edge; every point scored removes one bullet and one
      zombie; the game ends exactly on a zombie leaving the frame or
      touching the player; no surviving bullet touches a surviving zombie. */
  lemma CollisionBookkeeping(w: World)
    ensures var w' := CollisionDetectionSpec(w);
            var kept := BulletsInFrame(w.bullets);
            var kills := w'.score - w.score;
            && |w.bullets| - 1 <= |kept| <= |w.bullets|
            && kills >= 0
            && |w'.bullets| == |kept| - kills
            && |w'.zombies| == |w.zombies| - kills
            && (w'.isGameOver <==> w.isGameOver || FirstOut(w.zombies, true).Some? || ZombieTouchesPlayer(w))
            && NoHits(Hits(w'.bullets, w'.zombies, kills))
            && w'.player == w.player
  {
    var kept := BulletsInFrame(w.bullets);
    ResolveHitsCounts(kept, w.zombies);
    ResolveHitsLeavesNoHit(kept, w.zombies);
  }

  /** The game starts with the player inside the frame. */
  lemma InitialWorldValid()
    ensures Valid(InitialWorld())
  {
  }
}
