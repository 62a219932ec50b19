/** Ordered lists, trees of block ids, and what the block editor's operations do to
    the forest of listed blocks.
 */
module Forest {
  import opened Common
  import opened DragDrop

  // ---------- list surgery ----------

  function RemoveAt<T>(s: seq<T>, i: nat): seq<T>
    requires i < |s|
  {
    s[..i] + s[i + 1..]
  }

  function InsertAt<T>(s: seq<T>, i: nat, x: T): seq<T>
    requires i <= |s|
  {
    s[..i] + [x] + s[i..]
  }

  /** `add_block`: an index past the end appends. */
  function Place<T>(s: seq<T>, index: nat, x: T): seq<T> {
    if index >= |s| then s + [x] else InsertAt(s, index, x)
  }

  /** `move_block`: erase, then insert at the new index. */
  function MoveTo<T>(s: seq<T>, i: nat, j: nat): seq<T>
    requires i < |s| && j < |s|
  {
    InsertAt(RemoveAt(s, i), j, s[i])
  }

  // ---------- what the operations do to a list, told by elements ----------

  /** `rest` is `s` with one `x` taken out. */
  ghost predicate TakenOut<T>(s: seq<T>, x: T, rest: seq<T>) {
    exists k | 0 <= k < |s| :: s[k] == x && rest == s[..k] + s[k + 1..]
  }

  /** `x` was put in at `index`, or at the end if there is no such index. */
  ghost predicate PutIn<T>(s: seq<T>, index: nat, x: T, r: seq<T>) {
    var k := if index < |s| then index else |s|;
    |r| == |s| + 1 && r[k] == x && r[..k] == s[..k] && r[k + 1..] == s[k..]
  }

  /** `x` stands at `index` now, the others in their order around it. */
  ghost predicate MovedThere<T>(s: seq<T>, x: T, index: nat, r: seq<T>) {
    index < |r| == |s| && r[index] == x && TakenOut(s, x, r[..index] + r[index + 1..])
  }

  /** `x` was put right before or after the `k`th of the others, or in its place, or is not listed. */
  ghost predicate BesideAt<T>(others: seq<T>, x: T, k: nat, kind: ZoneKind, r: seq<T>)
    requires k < |others|
  {
    match kind
    case Before => r == others[..k] + [x] + others[k..]
    case After => r == others[..k + 1] + [x] + others[k + 1..]
    case Replace => r == others[..k] + [x] + others[k + 1..]
    case _ => r == others
  }

  ghost predicate Beside<T>(others: seq<T>, x: T, y: T, kind: ZoneKind, r: seq<T>) {
    exists k | 0 <= k < |others| && others[k] == y :: BesideAt(others, x, k, kind, r)
  }

  /** The drop of `x` on another element `y`. */
  ghost predicate Landed<T>(s: seq<T>, x: T, y: T, kind: ZoneKind, r: seq<T>) {
    if kind == Other then r == s
    else exists k | 0 <= k < |s| :: s[k] == x && Beside(s[..k] + s[k + 1..], x, y, kind, r)
  }

  /** An addition puts the element at the index, or at the end if there is no such index; the others stay
      in their order around it. */
  lemma Placed<T>(s: seq<T>, index: nat, x: T)
    ensures PutIn(s, index, x, Place(s, index, x))
  {
  }

  lemma Removed<T>(s: seq<T>, k: nat)
    requires k < |s|
    ensures TakenOut(s, s[k], RemoveAt(s, k))
  {
  }

  /** A move takes the element out and puts it where the index says, the others in their order around it. */
  lemma Moved<T>(s: seq<T>, i: nat, j: nat)
    requires i < |s| && j < |s|
    ensures MovedThere(s, s[i], j, MoveTo(s, i, j))
  {
    var others := RemoveAt(s, i);
    var r := others[..j] + [s[i]] + others[j..];
    assert r[..j] == others[..j] && r[j + 1..] == others[j..];
    assert r[..j] + r[j + 1..] == s[..i] + s[i + 1..];
  }

  /** Where element `t` stands once element `b` is gone. */
  function IndexWithout(b: nat, t: nat): nat
    requires b != t
  {
    if b < t then t - 1 else t
  }

  /** What a drop of element `b` on element `t` is meant to do, told without index
      arithmetic on the full list: take `b` out; then put it immediately before or
      after `t`, or in the place of `t`.  For an inside drop `t` becomes `nest`. */
  function DropAt<T>(s: seq<T>, b: nat, t: nat, kind: ZoneKind, nest: T): seq<T>
    requires b < |s| && t < |s| && b != t
  {
    var others := RemoveAt(s, b);
    var k := IndexWithout(b, t);
    match kind
    case Before => others[..k] + [s[b]] + others[k..]
    case After => others[..k + 1] + [s[b]] + others[k + 1..]
    case Replace => others[..k] + [s[b]] + others[k + 1..]
    case Inside => others[..k] + [nest] + others[k + 1..]
    case Other => s
  }

  /** The position handed to `move_block` by `handle_block_drop`, before the final
      adjustment, and after it. */
  function NewIndex(b: nat, t: nat, kind: ZoneKind): nat {
    var raw := if kind == After then t + 1 else t;
    if b < raw then raw - 1 else raw
  }

  /** The index arithmetic is right: the index is in range, the target stays where the
      drop leaves it, and moving there is the intended drop. */
  lemma MoveIsDrop<T>(s: seq<T>, b: nat, t: nat, kind: ZoneKind, nest: T)
    requires b < |s| && t < |s| && b != t && (kind == Before || kind == After)
    ensures NewIndex(b, t, kind) < |s|
    ensures MoveTo(s, b, NewIndex(b, t, kind)) == DropAt(s, b, t, kind, nest)
    ensures RemoveAt(s, b)[IndexWithout(b, t)] == s[t]
  {
    hide RemoveAt;
    RemovedAt(s, b, IndexWithout(b, t));
  }

  /** Two removals can be made in either order. */
  lemma RemovalsCommute<T>(s: seq<T>, lo: nat, hi: nat)
    requires lo < hi < |s|
    ensures RemoveAt(RemoveAt(s, hi), lo) == RemoveAt(RemoveAt(s, lo), hi - 1)
  {
    var x, y := RemoveAt(s, hi), RemoveAt(s, lo);
    assert x[..lo] == s[..lo] && x[lo + 1..] == s[lo + 1..hi] + s[hi + 1..];
    assert y[..hi - 1] == s[..lo] + s[lo + 1..hi] && y[hi..] == s[hi + 1..];
  }

  lemma PutBack<T>(s: seq<T>, k: nat, x: T)
    requires k < |s|
    ensures InsertAt(RemoveAt(s, k), k, x) == s[..k] + [x] + s[k + 1..]
  {
    assert RemoveAt(s, k)[..k] == s[..k] && RemoveAt(s, k)[k..] == s[k + 1..];
  }

  /** A replacing drop first removes the target, which shifts the dragged element. */
  lemma ReplaceIsDrop<T>(s: seq<T>, b: nat, t: nat, nest: T)
    requires b < |s| && t < |s| && b != t
    ensures NewIndex(b, t, Replace) < |s| - 1
    ensures RemoveAt(s, t)[IndexWithout(t, b)] == s[b]
    ensures MoveTo(RemoveAt(s, t), IndexWithout(t, b), NewIndex(b, t, Replace)) == DropAt(s, b, t, Replace, nest)
  {
    hide RemoveAt, InsertAt;
    RemovedAt(s, t, IndexWithout(t, b));
    RemovedAt(s, b, IndexWithout(b, t));
    RemovalsCommute(s, if b < t then b else t, if b < t then t else b);
    PutBack(RemoveAt(s, b), IndexWithout(b, t), s[b]);
  }

  lemma RemovedAt<T>(s: seq<T>, i: nat, k: nat)
    requires i < |s| && k < |s| - 1
    ensures |RemoveAt(s, i)| == |s| - 1 && RemoveAt(s, i)[k] == if k < i then s[k] else s[k + 1]
  {
  }

  /** Dropping an element before or after itself moves nothing. */
  lemma DropOnItself<T>(s: seq<T>, b: nat, kind: ZoneKind)
    requires b < |s| && (kind == Before || kind == After)
    ensures NewIndex(b, b, kind) < |s| && MoveTo(s, b, NewIndex(b, b, kind)) == s
  {
  }

  lemma InsertedAt<T>(s: seq<T>, k: nat, x: T)
    requires k <= |s|
    ensures var r := s[..k] + [x] + s[k..]; |r| == |s| + 1 && r[k] == x && RemoveAt(r, k) == s
    ensures var r := s[..k] + [x] + s[k..]; (k < |s| ==> r[k + 1] == s[k]) && (k > 0 ==> r[k - 1] == s[k - 1])
  {
    var r := s[..k] + [x] + s[k..];
    assert r[..k] == s[..k] && r[k + 1..] == s[k..];
  }

  lemma ReplacedAt<T>(s: seq<T>, k: nat, x: T)
    requires k < |s|
    ensures var r := s[..k] + [x] + s[k + 1..]; |r| == |s| && r[k] == x && RemoveAt(r, k) == RemoveAt(s, k)
  {
    var r := s[..k] + [x] + s[k + 1..];
    assert r[..k] == s[..k] && r[k + 1..] == s[k + 1..];
  }

  /** Placement, read off the result: the dragged element is next to the target, or in
      its place, and the other elements are exactly the others, in their order. */
  lemma Placement<T>(s: seq<T>, b: nat, t: nat, nest: T)
    requires b < |s| && t < |s| && b != t
    ensures var k := IndexWithout(b, t);
      var before, after, replaced := DropAt(s, b, t, Before, nest), DropAt(s, b, t, After, nest),
          DropAt(s, b, t, Replace, nest);
      var inside := DropAt(s, b, t, Inside, nest);
      && before[k] == s[b] && before[k + 1] == s[t] && RemoveAt(before, k) == RemoveAt(s, b)
      && after[k] == s[t] && after[k + 1] == s[b] && RemoveAt(after, k + 1) == RemoveAt(s, b)
      && replaced[k] == s[b] && RemoveAt(replaced, k) == RemoveAt(RemoveAt(s, b), k)
      && inside[k] == nest && RemoveAt(inside, k) == RemoveAt(RemoveAt(s, b), k)
      && DropAt(s, b, t, Other, nest) == s
  {
    hide RemoveAt;
    var others, k := RemoveAt(s, b), IndexWithout(b, t);
    RemovedAt(s, b, k);
    InsertedAt(others, k, s[b]);
    InsertedAt(others, k + 1, s[b]);
    ReplacedAt(others, k, s[b]);
    ReplacedAt(others, k, nest);
  }

  lemma LandsBeside<T>(s: seq<T>, b: nat, others: seq<T>, k: nat, kind: ZoneKind, r: seq<T>)
    requires b < |s| && others == s[..b] + s[b + 1..] && k < |others| && kind != Other
    requires BesideAt(others, s[b], k, kind, r)
    ensures Landed(s, s[b], others[k], kind, r)
  {
    hide BesideAt;
    assert Beside(others, s[b], others[k], kind, r);
  }

  /** So a drop lands where its kind says. */
  lemma DropLands<T>(s: seq<T>, b: nat, t: nat, kind: ZoneKind)
    requires b < |s| && t < |s| && b != t
    ensures Landed(s, s[b], s[t], kind, DropAt(s, b, t, kind, s[t]))
  {
    hide Landed;
    var others, k := RemoveAt(s, b), IndexWithout(b, t);
    RemovedAt(s, b, k);
    if kind == Other {
      LandsNowhere(s, s[b], s[t]);
    } else {
      NestSame(others, k);
      LandsBeside(s, b, others, k, kind, DropAt(s, b, t, kind, s[t]));
    }
  }

  lemma LandsNowhere<T>(s: seq<T>, x: T, y: T)
    ensures Landed(s, x, y, Other, s)
  {
  }

  lemma NestSame<T>(s: seq<T>, k: nat)
    requires k < |s|
    ensures s[..k] + [s[k]] + s[k + 1..] == s
  {
  }

  // ---------- forests ----------

  datatype Tree = Node(id: string, kids: seq<Tree>)

  /** All ids of a forest, counted. */
  function Bag(forest: seq<Tree>): multiset<string> {
    if forest == [] then multiset{} else TreeBag(forest[0]) + Bag(forest[1..])
  }

  function TreeBag(t: Tree): multiset<string> {
    multiset{t.id} + Bag(t.kids)
  }

  /** Every id of the forest stands in it once. */
  ghost predicate Distinct(forest: seq<Tree>) {
    forall id | id in Bag(forest) :: Bag(forest)[id] == 1
  }

  lemma {:induction false} BagConcat(a: seq<Tree>, b: seq<Tree>)
    ensures Bag(a + b) == Bag(a) + Bag(b)
  {
    if a == [] {
      assert a + b == b;
    } else {
      assert (a + b)[1..] == a[1..] + b;
      BagConcat(a[1..], b);
    }
  }

  lemma BagOne(t: Tree)
    ensures Bag([t]) == TreeBag(t)
  {
    assert [t][1..] == [];
  }

  lemma SumAssociates(a: multiset<string>, b: multiset<string>, c: multiset<string>)
    ensures a + (b + c) == a + b + c
  {
  }

  lemma RootInBag(t: Tree)
    ensures t.id in TreeBag(t)
  {
  }

  lemma BagSplit(s: seq<Tree>, i: nat)
    requires i < |s|
    ensures Bag(s) == Bag(s[..i]) + TreeBag(s[i]) + Bag(s[i + 1..])
  {
    hide *;
    assert s == s[..i] + ([s[i]] + s[i + 1..]);
    BagConcat(s[..i], [s[i]] + s[i + 1..]);
    BagConcat([s[i]], s[i + 1..]);
    BagOne(s[i]);
    SumAssociates(Bag(s[..i]), TreeBag(s[i]), Bag(s[i + 1..]));
  }

  lemma BagRemove(s: seq<Tree>, i: nat)
    requires i < |s|
    ensures Bag(s) == Bag(RemoveAt(s, i)) + TreeBag(s[i])
  {
    hide Bag, TreeBag;
    BagSplit(s, i);
    BagConcat(s[..i], s[i + 1..]);
  }

  lemma BagInsert(s: seq<Tree>, i: nat, t: Tree)
    requires i <= |s|
    ensures Bag(InsertAt(s, i, t)) == Bag(s) + TreeBag(t)
  {
    hide Bag, TreeBag;
    var r := InsertAt(s, i, t);
    BagRemove(r, i);
    assert RemoveAt(r, i) == s && r[i] == t;
  }

  lemma BagMove(s: seq<Tree>, i: nat, j: nat)
    requires i < |s| && j < |s|
    ensures Bag(MoveTo(s, i, j)) == Bag(s)
  {
    BagRemove(s, i);
    BagInsert(RemoveAt(s, i), j, s[i]);
  }

  lemma BagPlace(s: seq<Tree>, i: nat, t: Tree)
    ensures Bag(Place(s, i, t)) == Bag(s) + TreeBag(t)
  {
    if i >= |s| {
      BagConcat(s, [t]);
      BagOne(t);
    } else {
      BagInsert(s, i, t);
    }
  }

  /** Two listed trees with the same root id would make that id occur twice. */
  lemma RootsDiffer(s: seq<Tree>, i: nat, j: nat)
    requires Distinct(s) && i < j < |s|
    ensures s[i].id != s[j].id
  {
    RootInBag(s[i]);
    hide Bag, TreeBag;
    BagSplit(s, i);
    BagSplit(s[i + 1..], j - i - 1);
    assert s[i + 1..][j - i - 1] == s[j];
    assert Bag(s)[s[i].id] == 1;
    assert Bag(s)[s[i].id] >= TreeBag(s[i])[s[i].id] + Bag(s[i + 1..])[s[i].id];
  }

  function FindTree(forest: seq<Tree>, id: string): (k: nat)
    ensures k <= |forest| && (k < |forest| ==> forest[k].id == id) && forall i | 0 <= i < k :: forest[i].id != id
  {
    FirstIndex(forest, (t: Tree) => t.id == id)
  }

  // ---------- commands ----------

  datatype Command =
    | Add(tree: Tree, index: nat)
    | Remove(id: string)
    | Move(id: string, index: nat)
    | Drop(id: string, target: string, kind: ZoneKind)

  function Nested(target: Tree, kid: Tree): Tree {
    Node(target.id, target.kids + [kid])
  }

  /** What one editor operation does to the forest of listed blocks. */
  function Step(forest: seq<Tree>, c: Command): seq<Tree> {
    match c
    case Add(tree, index) => Place(forest, index, tree)
    case Remove(id) =>
      var k := FindTree(forest, id);
      if k < |forest| then RemoveAt(forest, k) else forest
    case Move(id, index) =>
      var k := FindTree(forest, id);
      if k < |forest| && index < |forest| then MoveTo(forest, k, index) else forest
    case Drop(id, target, kind) =>
      var b, t := FindTree(forest, id), FindTree(forest, target);
      if b == |forest| || t == |forest| then forest
      else if b != t then DropAt(forest, b, t, kind, Nested(forest[t], forest[b]))
      else if kind == Inside || kind == Replace then RemoveAt(forest, b)
      else forest
  }

  function Run(forest: seq<Tree>, commands: seq<Command>): seq<Tree>
    decreases |commands|
  {
    if commands == [] then forest else Run(Step(forest, commands[0]), commands[1..])
  }

  /** Ids a command brings in. */
  function Brought(c: Command): multiset<string> {
    if c.Add? then TreeBag(c.tree) else multiset{}
  }

  /** Ids a command takes out of the forest. */
  function Lost(forest: seq<Tree>, c: Command): multiset<string> {
    match c
    case Remove(id) =>
      var k := FindTree(forest, id);
      if k < |forest| then TreeBag(forest[k]) else multiset{}
    case Drop(id, target, kind) =>
      var b, t := FindTree(forest, id), FindTree(forest, target);
      if b < |forest| && t < |forest| && (kind == Replace || (kind == Inside && b == t)) then TreeBag(forest[t])
      else multiset{}
    case _ => multiset{}
  }

  /** Conservation: moves and drops neither lose nor duplicate a block, except that a
      replacing drop takes out the target's tree, and so does an inside drop of a
      block onto itself. */
  lemma StepConserves(forest: seq<Tree>, c: Command)
    ensures Bag(Step(forest, c)) + Lost(forest, c) == Bag(forest) + Brought(c)
  {
    hide Bag, TreeBag, MoveTo, DropAt, Place;
    match c
    case Add(tree, index) => BagPlace(forest, index, tree);
    case Remove(id) =>
      var k := FindTree(forest, id);
      if k < |forest| { BagRemove(forest, k); }
    case Move(id, index) =>
      var k := FindTree(forest, id);
      if k < |forest| && index < |forest| {
        BagMove(forest, k, index);
      }
    case Drop(id, target, kind) =>
      var b, t := FindTree(forest, id), FindTree(forest, target);
      if b < |forest| && t < |forest| {
        var nest := Nested(forest[t], forest[b]);
        if b == t { BagRemove(forest, b); }
        else if kind == Replace { ReplaceConserves(forest, b, t, nest); }
        else if kind == Inside { InsideConserves(forest, b, t); }
        else { InsertConserves(forest, b, t, nest); DropElsewhere(forest, b, t, nest); }
      }
  }

  lemma DropElsewhere(forest: seq<Tree>, b: nat, t: nat, nest: Tree)
    requires b < |forest| && t < |forest| && b != t
    ensures DropAt(forest, b, t, Other, nest) == forest
  {
  }

  lemma Halves(forest: seq<Tree>, b: nat, t: nat)
    requires b < |forest| && t < |forest| && b != t
    ensures var others, k := RemoveAt(forest, b), IndexWithout(b, t);
      Bag(forest) == Bag(others[..k]) + TreeBag(forest[t]) + Bag(others[k + 1..]) + TreeBag(forest[b])
  {
    hide Bag, TreeBag;
    var others, k := RemoveAt(forest, b), IndexWithout(b, t);
    RemovedAt(forest, b, k);
    assert others[k] == forest[t];
    BagRemove(forest, b);
    BagSplit(others, k);
  }

  lemma InsertConserves(forest: seq<Tree>, b: nat, t: nat, nest: Tree)
    requires b < |forest| && t < |forest| && b != t
    ensures Bag(DropAt(forest, b, t, Before, nest)) == Bag(forest)
    ensures Bag(DropAt(forest, b, t, After, nest)) == Bag(forest)
  {
    var others, k := RemoveAt(forest, b), IndexWithout(b, t);
    DropIsInsert(forest, b, t, nest);
    hide *;
    BagRemove(forest, b);
    BagInsert(others, k, forest[b]);
    BagInsert(others, k + 1, forest[b]);
  }

  lemma DropIsInsert(forest: seq<Tree>, b: nat, t: nat, nest: Tree)
    requires b < |forest| && t < |forest| && b != t
    ensures var others, k := RemoveAt(forest, b), IndexWithout(b, t);
      && k < |others|
      && DropAt(forest, b, t, Before, nest) == InsertAt(others, k, forest[b])
      && DropAt(forest, b, t, After, nest) == InsertAt(others, k + 1, forest[b])
  {
    hide Bag, TreeBag;
  }

  lemma ReplaceConserves(forest: seq<Tree>, b: nat, t: nat, nest: Tree)
    requires b < |forest| && t < |forest| && b != t
    ensures Bag(DropAt(forest, b, t, Replace, nest)) + TreeBag(forest[t]) == Bag(forest)
  {
    var others, k := RemoveAt(forest, b), IndexWithout(b, t);
    var result := DropAt(forest, b, t, Replace, nest);
    assert k < |others| && result == others[..k] + [forest[b]] + others[k + 1..];
    Halves(forest, b, t);
    hide *;
    SplitAround(result, others, k, forest[b]);
    Exchange(Bag(others[..k]), TreeBag(forest[t]), Bag(others[k + 1..]), TreeBag(forest[b]));
  }

  lemma InsideConserves(forest: seq<Tree>, b: nat, t: nat)
    requires b < |forest| && t < |forest| && b != t
    ensures Bag(DropAt(forest, b, t, Inside, Nested(forest[t], forest[b]))) == Bag(forest)
  {
    var others, k := RemoveAt(forest, b), IndexWithout(b, t);
    var nest := Nested(forest[t], forest[b]);
    var result := DropAt(forest, b, t, Inside, nest);
    assert k < |others| && result == others[..k] + [nest] + others[k + 1..];
    Halves(forest, b, t);
    NestedBag(forest[t], forest[b]);
    hide *;
    SplitAround(result, others, k, nest);
    Exchange(Bag(others[..k]), TreeBag(forest[t]), Bag(others[k + 1..]), TreeBag(forest[b]));
  }

  lemma Exchange(l: multiset<string>, x: multiset<string>, r: multiset<string>, y: multiset<string>)
    ensures l + y + r + x == l + x + r + y
    ensures l + (x + y) + r == l + x + r + y
  {
  }

  lemma SplitAround(result: seq<Tree>, others: seq<Tree>, k: nat, x: Tree)
    requires k < |others| && result == others[..k] + [x] + others[k + 1..]
    ensures Bag(result) == Bag(others[..k]) + TreeBag(x) + Bag(others[k + 1..])
  {
    hide Bag, TreeBag;
    BagSplit(result, k);
    assert result[..k] == others[..k] && result[k + 1..] == others[k + 1..] && result[k] == x;
  }

  lemma NestedBag(target: Tree, kid: Tree)
    ensures TreeBag(Nested(target, kid)) == TreeBag(target) + TreeBag(kid)
  {
    BagConcat(target.kids, [kid]);
    BagOne(kid);
  }

  /** Commands whose added trees bring only ids that are not in the forest then. */
  ghost predicate Admissible(forest: seq<Tree>, commands: seq<Command>)
    decreases |commands|
  {
    commands != [] ==>
      && (commands[0].Add? ==> Distinct(forest + [commands[0].tree]))
      && Admissible(Step(forest, commands[0]), commands[1..])
  }

  lemma StepKeepsDistinct(forest: seq<Tree>, c: Command)
    requires Distinct(forest) && (c.Add? ==> Distinct(forest + [c.tree]))
    ensures Distinct(Step(forest, c))
  {
    hide Bag, TreeBag, Step, Lost;
    StepConserves(forest, c);
    var next := Step(forest, c);
    assert !c.Add? ==> Brought(c) == multiset{};
    if c.Add? {
      BagConcat(forest, [c.tree]);
      BagOne(c.tree);
      forall id | id in Bag(next) ensures Bag(next)[id] == 1 {
        assert id in Bag(forest + [c.tree]);
      }
    } else {
      forall id | id in Bag(next) ensures Bag(next)[id] == 1 {
        assert (Bag(next) + Lost(forest, c))[id] == (Bag(forest) + Brought(c))[id];
      }
    }
  }

  /** Over any run of adds with fresh ids, removes, moves and drops, the structure stays
      a forest in which every block stands once. */
  lemma {:induction false} RunKeepsDistinct(forest: seq<Tree>, commands: seq<Command>)
    requires Distinct(forest) && Admissible(forest, commands)
    ensures Distinct(Run(forest, commands))
    decreases |commands|
  {
    if commands != [] {
      StepKeepsDistinct(forest, commands[0]);
      RunKeepsDistinct(Step(forest, commands[0]), commands[1..]);
    }
  }

  /** Commands that can neither remove nor replace: adds, moves, and before, after and
      inside drops onto a different block. */
  ghost predicate Gentle(c: Command) {
    match c
    case Add(_, _) => true
    case Remove(_) => false
    case Move(_, _) => true
    case Drop(id, target, kind) => id != target && kind != Replace
  }

  ghost function AllBrought(commands: seq<Command>): multiset<string> {
    if commands == [] then multiset{} else Brought(commands[0]) + AllBrought(commands[1..])
  }

  lemma GentleStep(forest: seq<Tree>, c: Command)
    requires Gentle(c)
    ensures Bag(Step(forest, c)) == Bag(forest) + Brought(c)
  {
    assert Lost(forest, c) == multiset{};
    hide Bag, Step, Lost, Gentle, Brought;
    StepConserves(forest, c);
    var left := Bag(Step(forest, c));
    assert left + multiset{} == left;
  }

  /** No run of such commands loses a block. */
  lemma {:induction false} GentleRunsConserve(forest: seq<Tree>, commands: seq<Command>)
    requires forall i | 0 <= i < |commands| :: Gentle(commands[i])
    ensures Bag(Run(forest, commands)) == Bag(forest) + AllBrought(commands)
    decreases |commands|
  {
    if commands != [] {
      var c := commands[0];
      assert Gentle(c);
      GentleStep(forest, c);
      GentleRunsConserve(Step(forest, c), commands[1..]);
      hide Bag, Step, Gentle, Brought;
      SumAssociates(Bag(forest), Brought(c), AllBrought(commands[1..]));
    }
  }

  /** Dropped inside or in place of itself, a block is gone: there the drop does less
      than its zone promises. */
  lemma DropOntoItselfLosesBlock(forest: seq<Tree>, id: string, kind: ZoneKind)
    requires Distinct(forest) && FindTree(forest, id) < |forest| && (kind == Inside || kind == Replace)
    ensures id !in Bag(Step(forest, Drop(id, id, kind)))
  {
    var k := FindTree(forest, id);
    BagRemove(forest, k);
    BagSplit(forest, k);
    assert Bag(forest)[id] == 1;
    assert TreeBag(forest[k])[id] >= 1;
  }
}
