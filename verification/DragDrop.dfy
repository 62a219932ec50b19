/** The drag-and-drop manager of the block editor: the drag state, the active drop
    zones and the choice of the current zone.  Coordinates are exact reals, and
    squared distances stand for distances.
 */
module DragDrop {
  import opened Common

  datatype ZoneKind = Before | After | Inside | Replace | Other

  datatype Point = Point(x: real, y: real)

  datatype Zone = Zone(id: string, target: string, kind: ZoneKind,
                       x: real, y: real, width: real, height: real,
                       valid: bool, highlighted: bool)

  /** The kind of the dragged block, by its number in the enumeration. */
  datatype BlockType = BlockType(number: nat)

  datatype Operation = MoveIt | CopyIt | LinkIt | NestIt | ExtractIt | MergeIt | SplitIt

  /** The drop reported to the drag-end callback. */
  datatype DropEvent = NoDrop | Dropped(block: string, target: string, kind: ZoneKind)

  predicate Covers(z: Zone, p: Point) {
    z.x <= p.x <= z.x + z.width && z.y <= p.y <= z.y + z.height
  }

  function SquaredDistance(z: Zone, p: Point): real {
    var dx := p.x - (z.x + z.width / 2.0);
    var dy := p.y - (z.y + z.height / 2.0);
    dx * dx + dy * dy
  }

  datatype Choice = Nothing | Index(at: nat)

  /** Index `i` is the first nearest among the covering zones before `n`. */
  ghost predicate FirstNearest(zones: seq<Zone>, n: nat, p: Point, i: nat) {
    && n <= |zones| && i < n && Covers(zones[i], p)
    && (forall j | 0 <= j < n && Covers(zones[j], p) :: SquaredDistance(zones[i], p) <= SquaredDistance(zones[j], p))
    && (forall j | 0 <= j < i && Covers(zones[j], p) :: SquaredDistance(zones[i], p) < SquaredDistance(zones[j], p))
  }

  /** The running choice after the first `n` zones. */
  function Nearest(zones: seq<Zone>, n: nat, p: Point): (c: Choice)
    requires n <= |zones|
    ensures c.Index? ==> c.at < n && FirstNearest(zones, n, p, c.at)
    ensures c.Nothing? <==> forall j | 0 <= j < n :: !Covers(zones[j], p)
  {
    if n == 0 then Nothing
    else
      var c := Nearest(zones, n - 1, p);
      var z := zones[n - 1];
      if Covers(z, p) && (c.Nothing? || SquaredDistance(z, p) < SquaredDistance(zones[c.at], p)) then Index(n - 1)
      else c
  }

  function ChosenId(zones: seq<Zone>, n: nat, p: Point): string
    requires n <= |zones|
  {
    var c := Nearest(zones, n, p);
    if c.Nothing? then "" else zones[c.at].id
  }

  /** The zones after a pass over the first `n` of them: the mark of each compares its
      id with the id chosen so far. */
  function Marked(zones: seq<Zone>, n: nat, p: Point): seq<Zone>
    requires n <= |zones|
  {
    seq(|zones|, i requires 0 <= i < |zones| =>
      if i < n then zones[i].(highlighted := zones[i].id == ChosenId(zones, i + 1, p)) else zones[i])
  }

  ghost predicate ProperIds(zones: seq<Zone>) {
    && (forall i | 0 <= i < |zones| :: zones[i].id != "")
    && (forall i, j | 0 <= i < j < |zones| :: zones[i].id != zones[j].id)
  }

  /** With unique non-empty ids a zone id is current exactly when its zone is the first
      nearest covering zone; otherwise no zone is current. */
  lemma ChosenIsFirstNearest(zones: seq<Zone>, p: Point, i: nat)
    requires ProperIds(zones) && i < |zones|
    ensures ChosenId(zones, |zones|, p) == zones[i].id <==> FirstNearest(zones, |zones|, p, i)
    ensures ChosenId(zones, |zones|, p) == "" <==> forall j | 0 <= j < |zones| :: !Covers(zones[j], p)
  {
    var c := Nearest(zones, |zones|, p);
    if c.Index? {
      if FirstNearest(zones, |zones|, p, i) {
        SoleFirstNearest(zones, p, i, c.at);
      }
    }
  }

  /** The point lies in the zone, its borders included, seen from the zone's centre. */
  ghost predicate Within(z: Zone, p: Point) {
    var dx, dy := p.x - (z.x + 0.5 * z.width), p.y - (z.y + 0.5 * z.height);
    -0.5 * z.width <= dx <= 0.5 * z.width && -0.5 * z.height <= dy <= 0.5 * z.height
  }

  /** The first point is no farther from the first zone's centre than from the second's, in the plane. */
  ghost predicate NoFarther(a: Zone, b: Zone, p: Point) {
    var dx, dy := p.x - (a.x + 0.5 * a.width), p.y - (a.y + 0.5 * a.height);
    var ex, ey := p.x - (b.x + 0.5 * b.width), p.y - (b.y + 0.5 * b.height);
    dx * dx + dy * dy <= ex * ex + ey * ey
  }

  lemma CoversIsWithin(z: Zone, p: Point)
    ensures Covers(z, p) <==> Within(z, p)
  {
  }

  lemma NearerIs(a: Zone, b: Zone, p: Point)
    ensures SquaredDistance(a, p) <= SquaredDistance(b, p) <==> NoFarther(a, b, p)
  {
    assert a.width / 2.0 == 0.5 * a.width && a.height / 2.0 == 0.5 * a.height;
    assert b.width / 2.0 == 0.5 * b.width && b.height / 2.0 == 0.5 * b.height;
  }

  /** What the choice means in the plane: the chosen zone has the pointer within its borders, no other
      such zone has a nearer centre, and none before it has one as near. */
  lemma ChosenInThePlane(zones: seq<Zone>, p: Point, i: nat)
    requires ProperIds(zones) && i < |zones|
    ensures ChosenId(zones, |zones|, p) == zones[i].id <==>
      && Within(zones[i], p)
      && (forall j | 0 <= j < |zones| && Within(zones[j], p) :: NoFarther(zones[i], zones[j], p))
      && (forall j | 0 <= j < i && Within(zones[j], p) :: !NoFarther(zones[j], zones[i], p))
  {
    hide Within, NoFarther, Covers, SquaredDistance, ChosenId;
    ChosenIsFirstNearest(zones, p, i);
    forall j | 0 <= j < |zones|
      ensures Covers(zones[j], p) <==> Within(zones[j], p)
      ensures SquaredDistance(zones[i], p) <= SquaredDistance(zones[j], p) <==> NoFarther(zones[i], zones[j], p)
      ensures SquaredDistance(zones[j], p) <= SquaredDistance(zones[i], p) <==> NoFarther(zones[j], zones[i], p)
    {
      CoversIsWithin(zones[j], p);
      NearerIs(zones[i], zones[j], p);
      NearerIs(zones[j], zones[i], p);
    }
  }

  lemma SoleFirstNearest(zones: seq<Zone>, p: Point, i: nat, j: nat)
    requires FirstNearest(zones, |zones|, p, i) && FirstNearest(zones, |zones|, p, j)
    ensures i == j
  {
    hide SquaredDistance;
  }

  /** The marks show only the chosen zone exactly when no zone before it covers the
      pointer: a zone that was the best so far keeps its mark when a nearer one follows. */
  lemma MarksAreExactIff(zones: seq<Zone>, p: Point, best: nat)
    requires ProperIds(zones) && FirstNearest(zones, |zones|, p, best)
    ensures (forall i | 0 <= i < |zones| :: Marked(zones, |zones|, p)[i].highlighted <==> i == best)
            <==> (forall j | 0 <= j < best :: !Covers(zones[j], p))
  {
    hide SquaredDistance;
    var marked := Marked(zones, |zones|, p);
    forall i | 0 <= i < |zones| ensures marked[i].highlighted <==> Nearest(zones, i + 1, p) == Index(i) {
      var c := Nearest(zones, i + 1, p);
    }
    if j :| 0 <= j < best && Covers(zones[j], p) {
      var first := FirstCovering(zones, p, j);
      assert Nearest(zones, first, p) == Nothing;
      assert Nearest(zones, first + 1, p) == Index(first);
    } else {
      forall i | 0 <= i < |zones| ensures marked[i].highlighted <==> i == best {
        if best < i {
          assert FirstNearest(zones, i + 1, p, best);
        }
      }
    }
  }

  /** A zone is marked when it was the nearest so far, and nothing else about the zones changes. */
  lemma MarksMean(zones: seq<Zone>, p: Point, i: nat)
    requires ProperIds(zones) && i < |zones|
    ensures var marked := Marked(zones, |zones|, p);
      && |marked| == |zones| && marked[i] == zones[i].(highlighted := marked[i].highlighted)
      && (marked[i].highlighted <==> FirstNearest(zones, i + 1, p, i))
  {
    hide SquaredDistance, Covers;
    var c := Nearest(zones, i + 1, p);
    if FirstNearest(zones, i + 1, p, i) && c.Index? && c.at < i {
      assert false;
    }
  }

  lemma FirstCovering(zones: seq<Zone>, p: Point, j: nat) returns (first: nat)
    requires j < |zones| && Covers(zones[j], p)
    ensures first <= j && Covers(zones[first], p) && forall i | 0 <= i < first :: !Covers(zones[i], p)
  {
    first := 0;
    while !Covers(zones[first], p)
      invariant first <= j && forall i | 0 <= i < first :: !Covers(zones[i], p)
      decreases j - first
    {
      first := first + 1;
    }
  }

  /** `find_drop_zone`: the first zone with this id. */
  function FindZone(zones: seq<Zone>, id: string): (k: nat)
    ensures k <= |zones| && (k < |zones| ==> zones[k].id == id) && forall i | 0 <= i < k :: zones[i].id != id
  {
    FirstIndex(zones, (z: Zone) => z.id == id)
  }

  function Without(zones: seq<Zone>, id: string): seq<Zone> {
    if zones == [] then [] else (if zones[0].id == id then [] else [zones[0]]) + Without(zones[1..], id)
  }

  /** Exactly the zones with another id stay. */
  lemma {:induction false} WithoutHolds(zones: seq<Zone>, id: string)
    ensures forall z :: z in Without(zones, id) <==> z in zones && z.id != id
  {
    if zones != [] {
      WithoutHolds(zones[1..], id);
    }
  }

  /** The zones that stay do so in their order. */
  lemma {:induction false} WithoutInOrder(a: seq<Zone>, b: seq<Zone>, id: string)
    ensures Without(a + b, id) == Without(a, id) + Without(b, id)
  {
    hide *;
    if a == [] {
      NoneWithout(id);
      assert a + b == b && [] + Without(b, id) == Without(b, id);
    } else {
      WithoutFirst(a[0], a[1..] + b, id);
      WithoutFirst(a[0], a[1..], id);
      assert a + b == [a[0]] + (a[1..] + b) && a == [a[0]] + a[1..];
      WithoutInOrder(a[1..], b, id);
      Associates([a[0]], Without(a[1..], id), Without(b, id));
    }
  }

  lemma NoneWithout(id: string)
    ensures Without([], id) == []
  {
  }

  lemma WithoutFirst(first: Zone, rest: seq<Zone>, id: string)
    ensures Without([first] + rest, id) == if first.id == id then Without(rest, id) else [first] + Without(rest, id)
  {
    var all, more := [first] + rest, Without(rest, id);
    assert all[1..] == rest && [] + more == more;
  }

  lemma Associates<T>(a: seq<T>, b: seq<T>, c: seq<T>)
    ensures a + (b + c) == a + b + c
  {
  }

  /** The pass over the zones has done the first `n`. */
  ghost predicate Passed(before: seq<Zone>, n: nat, p: Point, zones: seq<Zone>, best: Choice, current: string) {
    && n <= |before| && zones == Marked(before, n, p)
    && best == Nearest(before, n, p) && current == ChosenId(before, n, p)
  }

  lemma PassStart(zones: seq<Zone>, p: Point)
    ensures Passed(zones, 0, p, zones, Nothing, "")
  {
    assert Marked(zones, 0, p) == zones;
  }

  lemma PassStep(before: seq<Zone>, n: nat, p: Point, zones: seq<Zone>, best: Choice, current: string)
    requires Passed(before, n, p, zones, best, current) && n < |before|
    ensures |zones| == |before| && zones[n] == before[n] && (best.Index? ==> best.at < n)
    ensures
      var z := before[n];
      var nearer := Covers(z, p) && (best.Nothing? || SquaredDistance(z, p) < SquaredDistance(before[best.at], p));
      var id := if nearer then z.id else current;
      Passed(before, n + 1, p, zones[n := z.(highlighted := z.id == id)], if nearer then Index(n) else best, id)
  {
    hide Covers, SquaredDistance, FirstNearest;
    var z := before[n];
    var id := ChosenId(before, n + 1, p);
    assert Marked(before, n + 1, p) == Marked(before, n, p)[n := z.(highlighted := z.id == id)];
  }

  class DragDropManager {
    var dragging: bool
    var block: string
    var blockType: BlockType
    var operation: Operation
    var start: Point
    var position: Point
    var zones: seq<Zone>
    var current: string

    /** No zone is current while nothing is dragged. */
    ghost predicate Valid()
      reads this
    {
      !dragging ==> current == ""
    }

    constructor ()
      ensures Valid() && !dragging && zones == [] && current == ""
    {
      dragging, block, blockType, operation, zones, current := false, "", BlockType(0), MoveIt, [], "";
      start, position := Point(0.0, 0.0), Point(0.0, 0.0);
    }

    /** A second drag is refused and changes nothing. */
    method StartDrag(id: string, what: BlockType, at: Point, how: Operation) returns (started: bool)
      requires Valid()
      modifies this
      ensures Valid() && started == !old(dragging) && dragging
      ensures zones == old(zones) && current == old(current)
      ensures if started then block == id && blockType == what && operation == how && start == position == at
              else block == old(block) && blockType == old(blockType) && operation == old(operation)
                   && start == old(start) && position == old(position)
    {
      if dragging {
        return false;
      }
      dragging, block, blockType, operation, start, position := true, id, what, how, at, at;
      return true;
    }

    method UpdateDrag(at: Point)
      requires Valid()
      modifies this
      ensures Valid() && dragging == old(dragging) && block == old(block) && start == old(start)
      ensures blockType == old(blockType) && operation == old(operation)
      ensures !old(dragging) ==> zones == old(zones) && current == old(current) && position == old(position)
      ensures old(dragging) ==>
        && position == at
        && current == ChosenId(old(zones), |old(zones)|, at)
        && zones == Marked(old(zones), |old(zones)|, at)
    {
      if !dragging {
        return;
      }
      position := at;
      UpdateCurrentDropZone(at);
    }

    method UpdateCurrentDropZone(at: Point)
      modifies this
      ensures current == ChosenId(old(zones), |old(zones)|, at)
      ensures zones == Marked(old(zones), |old(zones)|, at)
      ensures dragging == old(dragging) && block == old(block) && start == old(start) && position == old(position)
      ensures blockType == old(blockType) && operation == old(operation)
    {
      hide SquaredDistance, Covers, Nearest, ChosenId, Marked, FirstNearest;
      current := "";
      var best := Nothing;
      var bestDistance := 0.0;
      var i := 0;
      ghost var before := zones;
      PassStart(before, at);
      while i < |zones|
        invariant 0 <= i <= |zones| == |before| && Passed(before, i, at, zones, best, current)
        invariant best.Index? ==> best.at < i && bestDistance == SquaredDistance(before[best.at], at)
        invariant dragging == old(dragging) && block == old(block) && start == old(start) && position == old(position)
        invariant blockType == old(blockType) && operation == old(operation)
      {
        PassStep(before, i, at, zones, best, current);
        var zone := zones[i];
        var distance := SquaredDistance(zone, at);
        if Covers(zone, at) && (best.Nothing? || distance < bestDistance) {
          best, bestDistance, current := Index(i), distance, zone.id;
        }
        zones := zones[i := zone.(highlighted := zone.id == current)];
        i := i + 1;
      }
    }

    /** The drop succeeds exactly when the current zone is still active and valid; the
        drag state and the zones are cleared in every case. */
    method EndDrag() returns (success: bool, drop: DropEvent)
      requires Valid()
      modifies this
      ensures Valid() && !dragging && (old(dragging) ==> zones == [] && block == "")
      ensures !old(dragging) ==> zones == old(zones) && block == old(block) && current == old(current)
      ensures var k := FindZone(old(zones), old(current));
        && (success <==> old(dragging) && old(current) != "" && k < |old(zones)| && old(zones)[k].valid)
        && drop == if success then Dropped(old(block), old(zones)[k].target, old(zones)[k].kind) else NoDrop
    {
      success, drop := false, NoDrop;
      if !dragging {
        return;
      }
      if current != "" {
        var k := FindZone(zones, current);
        if k < |zones| && zones[k].valid {
          drop := Dropped(block, zones[k].target, zones[k].kind);
          success := true;
        }
      }
      ResetDragState();
    }

    method CancelDrag()
      requires Valid()
      modifies this
      ensures Valid() && !dragging && current == ""
      ensures if old(dragging) then zones == [] && block == "" else zones == old(zones) && block == old(block)
    {
      if !dragging {
        return;
      }
      ResetDragState();
    }

    method ResetDragState()
      modifies this
      ensures !dragging && block == "" && blockType == BlockType(0) && operation == MoveIt
      ensures start == position == Point(0.0, 0.0) && current == "" && zones == []
    {
      dragging, block, blockType, operation, current, zones := false, "", BlockType(0), MoveIt, "", [];
      start, position := Point(0.0, 0.0), Point(0.0, 0.0);
    }

    method AddDropZone(zone: Zone)
      requires Valid()
      modifies this`zones
      ensures Valid() && zones == old(zones) + [zone]
    {
      zones := zones + [zone];
    }

    method RemoveDropZone(id: string)
      requires Valid()
      modifies this`zones
      ensures Valid() && zones == Without(old(zones), id)
      ensures forall z :: z in zones <==> z in old(zones) && z.id != id
    {
      WithoutHolds(zones, id);
      zones := Without(zones, id);
    }

    method ClearDropZones()
      requires Valid()
      modifies this`zones
      ensures Valid() && zones == []
    {
      zones := [];
    }
  }

  /** The test `EndDrag` makes, told without ids: whatever was added to or removed from
      the zones since the last update, the drop succeeds exactly when the first nearest
      covering zone of that update is still there and valid, and it goes to that zone. */
  lemma EndDragMeaning(before: seq<Zone>, p: Point, now: seq<Zone>)
    requires ProperIds(before) && ProperIds(now)
    ensures var id := ChosenId(before, |before|, p);
      var k := FindZone(now, id);
      && (id != "" && k < |now| && now[k].valid <==>
          exists i, j | 0 <= i < |before| && 0 <= j < |now| :: Survives(before, p, i, now, j))
      && (forall i, j | 0 <= i < |before| && 0 <= j < |now| && Survives(before, p, i, now, j) :: j == k)
  {
    hide SquaredDistance, Covers, FirstNearest, Nearest, ProperIds;
    var id := ChosenId(before, |before|, p);
    forall i | 0 <= i < |before| ensures id == before[i].id <==> FirstNearest(before, |before|, p, i) {
      ChosenIsFirstNearest(before, p, i);
    }
    forall i, j | 0 <= i < |before| && 0 <= j < |now| && Survives(before, p, i, now, j)
      ensures j == FindZone(now, id) && id != ""
    {
      IdSurvives(before, i, now, j);
    }
    ChosenStands(before, p);
    var k := FindZone(now, id);
    if id != "" && k < |now| && now[k].valid {
      var i := Nearest(before, |before|, p).at;
      assert Survives(before, p, i, now, k);
    }
  }

  lemma ChosenStands(zones: seq<Zone>, p: Point)
    requires ProperIds(zones)
    ensures var c, id := Nearest(zones, |zones|, p), ChosenId(zones, |zones|, p);
      id != "" <==> c.Index? && c.at < |zones| && id == zones[c.at].id
  {
    hide SquaredDistance, Covers;
  }

  lemma IdSurvives(before: seq<Zone>, i: nat, now: seq<Zone>, j: nat)
    requires ProperIds(before) && ProperIds(now) && i < |before| && j < |now| && now[j].id == before[i].id
    ensures FindZone(now, before[i].id) == j && before[i].id != ""
  {
    var k := FindZone(now, before[i].id);
    assert k < |now| ==> now[k].id == now[j].id;
  }

  /** Marking changes no zone but its mark, so the zone found by the current id is the first nearest one. */
  lemma MarkedZone(zones: seq<Zone>, p: Point, i: nat)
    requires ProperIds(zones) && FirstNearest(zones, |zones|, p, i)
    ensures var now, id := Marked(zones, |zones|, p), ChosenId(zones, |zones|, p);
      && id != "" && FindZone(now, id) == i < |now|
      && now[i].valid == zones[i].valid && now[i].target == zones[i].target && now[i].kind == zones[i].kind
  {
    hide SquaredDistance, Covers, Nearest, ChosenId, ProperIds;
    var now := Marked(zones, |zones|, p);
    ChosenIsFirstNearest(zones, p, i);
    MarkedIds(zones, p);
    IdSurvives(zones, i, now, i);
  }

  lemma MarkedIds(zones: seq<Zone>, p: Point)
    requires ProperIds(zones)
    ensures ProperIds(Marked(zones, |zones|, p))
  {
    hide ChosenId;
  }

  ghost predicate Survives(before: seq<Zone>, p: Point, i: nat, now: seq<Zone>, j: nat)
    requires i < |before| && j < |now|
  {
    FirstNearest(before, |before|, p, i) && now[j].id == before[i].id && now[j].valid
  }
}
