/** The block editor: the ordered list of blocks, the id index that mirrors it, the
    selection, and drops.  Blocks are shared objects; the ghost field `forest` is the
    tree structure their child lists spell out.
 */
module BlockEditor {
  import opened Common
  import opened DragDrop
  import opened Forest
  import opened Order

  datatype Position = Position(parent: string, index: nat, path: seq<nat>, x: real, y: real, width: real, height: real)

  const NO_POSITION := Position("", 0, [], 0.0, 0.0, 0.0, 0.0)

  /** The position of the `i`th listed block. */
  function Listed(i: nat): Position {
    Position("root", i, [i], 0.0, 0.0, 0.0, 0.0)
  }

  class Block {
    const id: string
    var position: Position
    var children: seq<Block>

    constructor (id: string)
      ensures this.id == id && children == []
    {
      this.id := id;
      position := NO_POSITION;
      children := [];
    }
  }

  /** What is selected, whether selecting adds, and the block selected last. */
  datatype Choices = Choices(selected: set<string>, multiSelect: bool, primary: string)

  function Selecting(c: Choices, id: string, extend: bool): Choices {
    Choices((if extend || c.multiSelect then c.selected else {}) + {id}, c.multiSelect, id)
  }

  /** A selected block is taken out; if it was the primary one, the first that is left takes over. */
  ghost function Toggling(c: Choices, id: string): Choices {
    if id in c.selected then
      var rest := c.selected - {id};
      Choices(rest, c.multiSelect, if c.primary == id && rest != {} then Least(rest) else c.primary)
    else Choices(c.selected + {id}, c.multiSelect, id)
  }

  class BlockSelection {
    var selected: set<string>
    var multiSelect: bool
    var primary: string

    function View(): Choices
      reads this
    {
      Choices(selected, multiSelect, primary)
    }

    constructor ()
      ensures View() == Choices({}, false, "")
    {
      selected, multiSelect, primary := {}, false, "";
    }

    method SelectBlock(id: string, extend: bool)
      modifies this
      ensures View() == Selecting(old(View()), id, extend)
      ensures selected == (if extend || multiSelect then old(selected) else {}) + {id} && primary == id
    {
      if !extend && !multiSelect {
        selected := {};
      }
      selected := selected + {id};
      primary := id;
    }

    method ToggleBlock(id: string)
      modifies this
      ensures View() == Toggling(old(View()), id)
      ensures multiSelect == old(multiSelect)
      ensures id !in old(selected) ==> selected == old(selected) + {id} && primary == id
      ensures id in old(selected) ==>
        && selected == old(selected) - {id}
        && (old(primary) != id || selected == {} ==> primary == old(primary))
        && (old(primary) == id && selected != {} ==> primary in selected && forall o | o in selected :: Leq(primary, o))
    {
      if id in selected {
        selected := selected - {id};
        if primary == id && selected != {} {
          primary := First(selected);
        }
      } else {
        selected := selected + {id};
        primary := id;
      }
    }

    method ClearSelection()
      modifies this
      ensures View() == Choices({}, old(multiSelect), "")
    {
      selected, primary := {}, "";
    }
  }

  /** With child lists `kids`, the object `b` and everything below it is the tree `t`. */
  ghost predicate Spells(b: Block, t: Tree, kids: map<Block, seq<Block>>)
    decreases t
  {
    && b in kids && b.id == t.id && |kids[b]| == |t.kids|
    && forall i | 0 <= i < |t.kids| :: Spells(kids[b][i], t.kids[i], kids)
  }

  /** `find_if` by id. */
  function FindBlock(blocks: seq<Block>, id: string): (k: nat)
    ensures k <= |blocks| && (k < |blocks| ==> blocks[k].id == id) && forall i | 0 <= i < k :: blocks[i].id != id
  {
    FirstIndex(blocks, (b: Block) => b.id == id)
  }

  lemma SamePlace(blocks: seq<Block>, forest: seq<Tree>, id: string)
    requires |blocks| == |forest| && forall i | 0 <= i < |blocks| :: blocks[i].id == forest[i].id
    ensures FindBlock(blocks, id) == FindTree(forest, id)
  {
    var k, j := FindBlock(blocks, id), FindTree(forest, id);
    assert k < |blocks| ==> forest[k].id == id;
    assert j < |blocks| ==> blocks[j].id == id;
  }

  /** What a drop does to the list of block objects. */
  function AfterDrop(blocks: seq<Block>, id: string, target: string, kind: ZoneKind): seq<Block> {
    var b, t := FindBlock(blocks, id), FindBlock(blocks, target);
    if b == |blocks| || t == |blocks| then blocks
    else if b != t then DropAt(blocks, b, t, kind, blocks[t])
    else if kind == Inside || kind == Replace then RemoveAt(blocks, b)
    else blocks
  }

  lemma {:induction false} KidsWithin(t: Tree, i: nat, id: string)
    requires i < |t.kids| && id !in TreeBag(t)
    ensures id !in TreeBag(t.kids[i])
  {
    BagSplit(t.kids, i);
  }

  /** Changing the children of one block leaves every tree without its id as it was. */
  lemma {:induction false} SpellsFrame(b: Block, t: Tree, kids: map<Block, seq<Block>>, changed: Block,
      children: seq<Block>)
    requires Spells(b, t, kids) && changed.id !in TreeBag(t)
    ensures Spells(b, t, kids[changed := children])
    decreases t
  {
    RootInBag(t);
    forall i | 0 <= i < |t.kids| ensures Spells(kids[b][i], t.kids[i], kids[changed := children]) {
      KidsWithin(t, i, changed.id);
      SpellsFrame(kids[b][i], t.kids[i], kids, changed, children);
    }
  }

  lemma {:induction false} SpellsMore(b: Block, t: Tree, kids: map<Block, seq<Block>>, more: map<Block, seq<Block>>)
    requires Spells(b, t, kids) && forall x | x in kids :: x in more && more[x] == kids[x]
    ensures Spells(b, t, more)
    decreases t
  {
    forall i | 0 <= i < |t.kids| ensures Spells(more[b][i], t.kids[i], more) {
      SpellsMore(kids[b][i], t.kids[i], kids, more);
    }
  }

  // ---------- what the list, the forest and the index have to do with each other ----------

  /** The listed objects spell the trees of the forest, one by one. */
  ghost predicate Aligned(blocks: seq<Block>, forest: seq<Tree>, kids: map<Block, seq<Block>>) {
    |forest| == |blocks| && forall i | 0 <= i < |blocks| :: Spells(blocks[i], forest[i], kids)
  }

  /** ... and every block stands in the forest once. */
  ghost predicate Matches(blocks: seq<Block>, forest: seq<Tree>, kids: map<Block, seq<Block>>) {
    Aligned(blocks, forest, kids) && Distinct(forest)
  }

  lemma AlignedRemove(blocks: seq<Block>, forest: seq<Tree>, kids: map<Block, seq<Block>>, i: nat)
    requires Aligned(blocks, forest, kids) && i < |blocks|
    ensures Aligned(RemoveAt(blocks, i), RemoveAt(forest, i), kids)
  {
    hide Spells;
  }

  lemma AlignedPlace(blocks: seq<Block>, forest: seq<Tree>, kids: map<Block, seq<Block>>, i: nat, b: Block, t: Tree)
    requires Aligned(blocks, forest, kids) && Spells(b, t, kids)
    ensures Aligned(Place(blocks, i, b), Place(forest, i, t), kids)
  {
    hide Spells;
  }

  /** The id index holds exactly the listed blocks. */
  ghost predicate Indexes(registry: map<string, Block>, blocks: seq<Block>) {
    && (forall b | b in blocks :: b.id in registry && registry[b.id] == b)
    && (forall id | id in registry :: registry[id] in blocks && registry[id].id == id)
  }

  /** Listed blocks are known, are different objects, and have different ids. */
  lemma ListedOnce(blocks: seq<Block>, forest: seq<Tree>, kids: map<Block, seq<Block>>)
    requires Matches(blocks, forest, kids)
    ensures forall b | b in blocks :: b in kids
    ensures forall i, j | 0 <= i < j < |blocks| :: blocks[i].id != blocks[j].id
    ensures forall i, j | 0 <= i < j < |blocks| :: blocks[i] != blocks[j]
  {
    forall i, j | 0 <= i < j < |blocks| ensures blocks[i].id != blocks[j].id {
      assert Spells(blocks[i], forest[i], kids) && Spells(blocks[j], forest[j], kids);
      RootsDiffer(forest, i, j);
    }
    forall b | b in blocks ensures b in kids {
      var i :| 0 <= i < |blocks| && blocks[i] == b;
      assert Spells(blocks[i], forest[i], kids);
    }
  }

  lemma Located(blocks: seq<Block>, forest: seq<Tree>, kids: map<Block, seq<Block>>, id: string)
    requires Matches(blocks, forest, kids)
    ensures FindBlock(blocks, id) == FindTree(forest, id)
  {
    forall i | 0 <= i < |blocks| ensures blocks[i].id == forest[i].id {
      assert Spells(blocks[i], forest[i], kids);
    }
    SamePlace(blocks, forest, id);
  }

  lemma FoundIffIndexed(blocks: seq<Block>, registry: map<string, Block>, id: string)
    requires Indexes(registry, blocks)
    ensures FindBlock(blocks, id) < |blocks| <==> id in registry
  {
    var k := FindBlock(blocks, id);
    assert k < |blocks| ==> blocks[k] in blocks;
    if id in registry {
      var i :| 0 <= i < |blocks| && blocks[i] == registry[id];
    }
  }

  /** A block may join when it spells a tree none of whose ids is in the forest. */
  ghost predicate Fits(forest: seq<Tree>, block: Block, shape: Tree, more: map<Block, seq<Block>>) {
    Spells(block, shape, more) && Distinct(forest + [shape])
  }

  lemma AddMatches(blocks: seq<Block>, forest: seq<Tree>, kids: map<Block, seq<Block>>,
                   block: Block, shape: Tree, index: nat, more: map<Block, seq<Block>>)
    requires Matches(blocks, forest, kids) && Fits(forest, block, shape, more)
    requires forall b | b in kids && b in more :: kids[b] == more[b]
    ensures Matches(Place(blocks, index, block), Step(forest, Add(shape, index)), kids + more)
  {
    StepKeepsDistinct(forest, Add(shape, index));
    SpellsMore(block, shape, more, kids + more);
    forall i | 0 <= i < |blocks| ensures Spells(blocks[i], forest[i], kids + more) {
      SpellsMore(blocks[i], forest[i], kids, kids + more);
    }
    AlignedPlace(blocks, forest, kids + more, index, block, shape);
  }

  lemma AddIndexes(blocks: seq<Block>, registry: map<string, Block>, forest: seq<Tree>, kids: map<Block, seq<Block>>,
                   block: Block, shape: Tree, index: nat, more: map<Block, seq<Block>>)
    requires Indexes(registry, blocks) && Matches(blocks, forest, kids) && Fits(forest, block, shape, more)
    ensures Indexes(registry[block.id := block], Place(blocks, index, block))
  {
    forall i | 0 <= i < |blocks| ensures blocks[i].id != block.id {
      assert Spells(blocks[i], forest[i], kids);
      RootsDiffer(forest + [shape], i, |forest|);
    }
    PlaceMembers(blocks, index, block);
  }

  lemma RemoveMatches(blocks: seq<Block>, forest: seq<Tree>, kids: map<Block, seq<Block>>, id: string)
    requires Matches(blocks, forest, kids)
    ensures var k := FindBlock(blocks, id);
      if k < |blocks| then Matches(RemoveAt(blocks, k), Step(forest, Remove(id)), kids)
      else Step(forest, Remove(id)) == forest
  {
    Located(blocks, forest, kids, id);
    StepKeepsDistinct(forest, Remove(id));
    var k := FindBlock(blocks, id);
    if k < |blocks| {
      AlignedRemove(blocks, forest, kids, k);
    }
  }

  lemma RemoveIndexes(blocks: seq<Block>, registry: map<string, Block>, k: nat)
    requires Indexes(registry, blocks) && k < |blocks|
    requires forall i, j | 0 <= i < j < |blocks| :: blocks[i].id != blocks[j].id
    ensures Indexes(registry - {blocks[k].id}, RemoveAt(blocks, k))
  {
    RemoveMembers(blocks, k);
    var rest, left := RemoveAt(blocks, k), registry - {blocks[k].id};
    forall b | b in rest ensures b.id in left && left[b.id] == b {
      var j :| 0 <= j < |blocks| && j != k && blocks[j] == b;
      assert blocks[j] in blocks;
    }
    forall id | id in left ensures left[id] in rest && left[id].id == id {
      assert registry[id] in blocks;
      var j :| 0 <= j < |blocks| && blocks[j] == registry[id];
    }
  }

  lemma AlignedMove(blocks: seq<Block>, forest: seq<Tree>, kids: map<Block, seq<Block>>, k: nat, index: nat)
    requires Aligned(blocks, forest, kids) && k < |blocks| && index < |blocks|
    ensures Aligned(MoveTo(blocks, k, index), MoveTo(forest, k, index), kids)
  {
    AlignedRemove(blocks, forest, kids, k);
    assert Spells(blocks[k], forest[k], kids);
    AlignedPlace(RemoveAt(blocks, k), RemoveAt(forest, k), kids, index, blocks[k], forest[k]);
    hide Spells;
    assert MoveTo(blocks, k, index) == Place(RemoveAt(blocks, k), index, blocks[k]);
    assert MoveTo(forest, k, index) == Place(RemoveAt(forest, k), index, forest[k]);
  }

  lemma MoveMatches(blocks: seq<Block>, forest: seq<Tree>, kids: map<Block, seq<Block>>, id: string, index: nat)
    requires Matches(blocks, forest, kids)
    ensures var k := FindBlock(blocks, id);
      if k < |blocks| && index < |blocks| then Matches(MoveTo(blocks, k, index), Step(forest, Move(id, index)), kids)
      else Step(forest, Move(id, index)) == forest
  {
    hide Spells, MoveTo, Distinct;
    Located(blocks, forest, kids, id);
    StepKeepsDistinct(forest, Move(id, index));
    var k := FindBlock(blocks, id);
    if k < |blocks| && index < |blocks| {
      AlignedMove(blocks, forest, kids, k, index);
    }
  }

  lemma MoveIndexes(blocks: seq<Block>, registry: map<string, Block>, k: nat, index: nat)
    requires Indexes(registry, blocks) && k < |blocks| && index < |blocks|
    ensures Indexes(registry, MoveTo(blocks, k, index))
  {
    MoveMembers(blocks, k, index);
  }

  /** The tree of `t` once `b` is in its child list. */
  lemma NestSpells(blocks: seq<Block>, forest: seq<Tree>, kids: map<Block, seq<Block>>, b: nat, t: nat)
    requires Matches(blocks, forest, kids) && b < |blocks| && t < |blocks| && b != t && blocks[t] in kids
    requires Spells(blocks[b], forest[b], kids[blocks[t] := kids[blocks[t]] + [blocks[b]]])
    ensures Spells(blocks[t], Nested(forest[t], forest[b]), kids[blocks[t] := kids[blocks[t]] + [blocks[b]]])
  {
    var target := blocks[t];
    var children := kids[target] + [blocks[b]];
    assert Spells(target, forest[t], kids);
    forall i | 0 <= i < |forest[t].kids| ensures Spells(children[i], forest[t].kids[i], kids[target := children]) {
      RootNotBelow(forest, t, i);
      SpellsFrame(kids[target][i], forest[t].kids[i], kids, target, children);
    }
  }

  lemma OthersSpell(blocks: seq<Block>, forest: seq<Tree>, kids: map<Block, seq<Block>>, t: nat, children: seq<Block>)
    requires Matches(blocks, forest, kids) && t < |blocks|
    ensures forall i | 0 <= i < |blocks| && i != t :: Spells(blocks[i], forest[i], kids[blocks[t] := children])
  {
    assert Spells(blocks[t], forest[t], kids);
    forall i | 0 <= i < |blocks| && i != t ensures Spells(blocks[i], forest[i], kids[blocks[t] := children]) {
      Elsewhere(forest, t, i);
      SpellsFrame(blocks[i], forest[i], kids, blocks[t], children);
    }
  }

  /** Nesting: once `b` is appended to the child list of `t` and taken out of the list,
      the list still spells a forest, namely the one the inside drop makes. */
  lemma NestMatches(blocks: seq<Block>, forest: seq<Tree>, kids: map<Block, seq<Block>>, b: nat, t: nat)
    requires Matches(blocks, forest, kids) && b < |blocks| && t < |blocks| && b != t && blocks[t] in kids
    ensures Matches(RemoveAt(blocks, b), DropAt(forest, b, t, Inside, Nested(forest[t], forest[b])),
                    kids[blocks[t] := kids[blocks[t]] + [blocks[b]]])
  {
    var now := kids[blocks[t] := kids[blocks[t]] + [blocks[b]]];
    var nested := forest[t := Nested(forest[t], forest[b])];
    OthersSpell(blocks, forest, kids, t, kids[blocks[t]] + [blocks[b]]);
    NestSpells(blocks, forest, kids, b, t);
    InsideDistinct(forest, b, t);
    hide Spells, Distinct;
    assert Aligned(blocks, nested, now);
    AlignedRemove(blocks, nested, now, b);
    assert RemoveAt(nested, b) == DropAt(forest, b, t, Inside, Nested(forest[t], forest[b]));
  }

  /** Nesting a block into itself only takes it out of the list. */
  lemma SelfNestMatches(blocks: seq<Block>, forest: seq<Tree>, kids: map<Block, seq<Block>>, b: nat)
    requires Matches(blocks, forest, kids) && b < |blocks| && blocks[b] in kids
    ensures Matches(RemoveAt(blocks, b), RemoveAt(forest, b), kids[blocks[b] := kids[blocks[b]] + [blocks[b]]])
  {
    OthersSpell(blocks, forest, kids, b, kids[blocks[b]] + [blocks[b]]);
    RemoveDistinct(forest, b);
    hide Spells, Distinct;
  }

  lemma InsideDistinct(forest: seq<Tree>, b: nat, t: nat)
    requires Distinct(forest) && b < |forest| && t < |forest| && b != t
    ensures Distinct(DropAt(forest, b, t, Inside, Nested(forest[t], forest[b])))
  {
    hide Bag;
    InsideConserves(forest, b, t);
  }

  lemma RemoveDistinct(forest: seq<Tree>, b: nat)
    requires Distinct(forest) && b < |forest|
    ensures Distinct(RemoveAt(forest, b))
  {
    hide Bag;
    BagRemove(forest, b);
    forall id | id in Bag(RemoveAt(forest, b)) ensures Bag(RemoveAt(forest, b))[id] == 1 {
      assert (Bag(RemoveAt(forest, b)) + TreeBag(forest[b]))[id] == Bag(forest)[id];
    }
  }

  lemma Elsewhere(forest: seq<Tree>, t: nat, i: nat)
    requires Distinct(forest) && t < |forest| && i < |forest| && i != t
    ensures forest[t].id !in TreeBag(forest[i])
  {
    RootInBag(forest[t]);
    hide Bag, TreeBag;
    BagRemove(forest, t);
    BagSplit(RemoveAt(forest, t), IndexWithout(t, i));
    assert RemoveAt(forest, t)[IndexWithout(t, i)] == forest[i];
    assert Bag(forest)[forest[t].id] == 1;
  }

  lemma RootNotBelow(forest: seq<Tree>, t: nat, i: nat)
    requires Distinct(forest) && t < |forest| && i < |forest[t].kids|
    ensures forest[t].id !in TreeBag(forest[t].kids[i])
  {
    BagSplit(forest, t);
    BagSplit(forest[t].kids, i);
    assert Bag(forest)[forest[t].id] == 1;
  }

  // ---------- membership after list surgery ----------

  lemma StillOnce(blocks: seq<Block>, k: nat)
    requires forall i, j | 0 <= i < j < |blocks| :: blocks[i].id != blocks[j].id
    ensures k < |blocks| ==> var r := RemoveAt(blocks, k);
      (forall b | b in r :: b in blocks) && forall i, j | 0 <= i < j < |r| :: r[i] != r[j]
  {
  }

  lemma ListedIds(blocks: seq<Block>, registry: map<string, Block>)
    requires Indexes(registry, blocks)
    ensures (set j | 0 <= j < |blocks| :: blocks[j].id) == registry.Keys
  {
    hide FindBlock;
    var ids := set j | 0 <= j < |blocks| :: blocks[j].id;
    forall id | id in registry ensures id in ids {
      FoundAt(blocks, registry, id);
      assert blocks[FindBlock(blocks, id)].id == id;
    }
    forall j | 0 <= j < |blocks| ensures blocks[j].id in registry {
      assert blocks[j] in blocks;
    }
  }

  lemma PlaceMembers<T>(s: seq<T>, i: nat, x: T)
    ensures forall y :: y in Place(s, i, x) <==> y in s || y == x
  {
    var r := Place(s, i, x);
    var k := if i < |s| then i else |s|;
    assert r == s[..k] + [x] + s[k..];
    forall y | y in s ensures y in r {
      var j :| 0 <= j < |s| && s[j] == y;
      assert r[if j < k then j else j + 1] == y;
    }
    assert r[k] == x;
  }

  lemma PlaceHolds<T>(s: seq<T>, i: nat, x: T, y: T)
    requires y in Place(s, i, x)
    ensures y in s || y == x
  {
    PlaceMembers(s, i, x);
  }

  lemma RemoveMembers<T>(s: seq<T>, i: nat)
    requires i < |s|
    ensures forall y :: y in RemoveAt(s, i) <==> exists j | 0 <= j < |s| && j != i :: s[j] == y
  {
    var r := RemoveAt(s, i);
    forall j | 0 <= j < |s| && j != i ensures s[j] in r {
      assert s[j] == r[if j < i then j else j - 1];
    }
    forall y | y in r ensures exists j | 0 <= j < |s| && j != i :: s[j] == y {
      var j :| 0 <= j < |r| && r[j] == y;
      assert s[if j < i then j else j + 1] == y;
    }
  }

  lemma MoveMembers<T>(s: seq<T>, i: nat, j: nat)
    requires i < |s| && j < |s|
    ensures forall y :: y in MoveTo(s, i, j) <==> y in s
  {
    RemoveMembers(s, i);
    PlaceMembers(RemoveAt(s, i), j, s[i]);
    assert MoveTo(s, i, j) == Place(RemoveAt(s, i), j, s[i]);
  }

  class BlockEditor {
    var blocks: seq<Block>
    var registry: map<string, Block>
    var focus: string
    const selection: BlockSelection
    ghost var forest: seq<Tree>
    /** The child lists of all blocks met so far. */
    ghost var kids: map<Block, seq<Block>>

    ghost predicate KidsKnown()
      reads this, kids.Keys`children
    {
      forall b | b in kids :: b.children == kids[b]
    }

    /** Every stored position is the list index. */
    ghost predicate Positioned()
      reads this, kids.Keys`position
    {
      forall i | 0 <= i < |blocks| :: blocks[i] in kids && blocks[i].position == Listed(i)
    }

    ghost predicate Valid()
      reads this, kids.Keys
    {
      KidsKnown() && Matches(blocks, forest, kids) && Indexes(registry, blocks) && Positioned()
    }

    constructor ()
      ensures Valid() && blocks == [] && registry == map[] && fresh(selection)
          && selection.View() == Choices({}, false, "")
    {
      blocks, registry, focus := [], map[], "";
      selection := new BlockSelection();
      forest, kids := [], map[];
    }

    method UpdateBlockPositions()
      requires forall b | b in blocks :: b in kids
      modifies kids.Keys`position
      ensures (forall i, j | 0 <= i < j < |blocks| :: blocks[i] != blocks[j]) ==> Positioned()
      ensures Positioned() ==> forall i | 0 <= i < |blocks| ::
        var p := blocks[i].position; p.parent == "root" && p.index == i && p.path == [i]
    {
      var i := 0;
      while i < |blocks|
        invariant 0 <= i <= |blocks|
        invariant (forall i, j | 0 <= i < j < |blocks| :: blocks[i] != blocks[j]) ==>
          forall k | 0 <= k < i :: blocks[k].position == Listed(k)
      {
        assert blocks[i] in blocks;
        blocks[i].position := Listed(i);
        i := i + 1;
      }
      forall k | 0 <= k < |blocks| ensures blocks[k] in kids {
        assert blocks[k] in blocks;
      }
    }

    /** The part of an addition that does not look at child lists. */
    method PlaceBlock(block: Block, index: nat)
      requires forall b | b in Place(blocks, index, block) :: b in kids
      modifies this`blocks, this`registry, kids.Keys`position
      ensures blocks == Place(old(blocks), index, block) && registry == old(registry)[block.id := block]
      ensures (forall i, j | 0 <= i < j < |blocks| :: blocks[i] != blocks[j]) ==> Positioned()
    {
      if index >= |blocks| {
        blocks := blocks + [block];
      } else {
        blocks := InsertAt(blocks, index, block);
      }
      hide Place, InsertAt;
      registry := registry[block.id := block];
      UpdateBlockPositions();
    }

    /** The list and the index change in every case; the invariant needs fresh ids. */
    method AddBlock(block: Block, index: nat, ghost shape: Tree, ghost more: map<Block, seq<Block>>)
      requires Valid() && block in more && forall b | b in more :: b.children == more[b]
      modifies this, kids.Keys`position, more.Keys`position
      ensures blocks == Place(old(blocks), index, block)
      ensures PutIn(old(blocks), index, block, blocks)
      ensures registry == old(registry)[block.id := block]
      ensures focus == old(focus) && kids == old(kids) + more
      ensures Fits(old(forest), block, shape, more) ==> Valid() && forest == Step(old(forest), Add(shape, index))
    {
      hide Matches, Indexes, Fits, Step, Place, PutIn;
      ghost var fits := Fits(forest, block, shape, more);
      ListedOnce(blocks, forest, kids);
      PlaceMembers(blocks, index, block);
      Placed(blocks, index, block);
      if fits {
        AddMatches(blocks, forest, kids, block, shape, index, more);
        AddIndexes(blocks, registry, forest, kids, block, shape, index, more);
        ListedOnce(Place(blocks, index, block), Step(forest, Add(shape, index)), kids + more);
        forest := Step(forest, Add(shape, index));
      }
      kids := kids + more;
      forall b | b in Place(blocks, index, block) ensures b in kids {
        PlaceHolds(blocks, index, block, b);
      }
      PlaceBlock(block, index);
    }

    /** The part of a removal that does not look at child lists. */
    method EraseBlock(id: string) returns (removed: bool)
      requires Indexes(registry, blocks) && Positioned()
      requires forall i, j | 0 <= i < j < |blocks| :: blocks[i].id != blocks[j].id
      modifies this`blocks, this`registry, selection, kids.Keys`position
      ensures Indexes(registry, blocks) && Positioned()
      ensures removed <==> id in old(registry)
      ensures blocks == (if removed then RemoveAt(old(blocks), FindBlock(old(blocks), id)) else old(blocks))
      ensures registry == old(registry) - {id}
      ensures selection.View() == if removed then Toggling(old(selection.View()), id) else old(selection.View())
    {
      hide Indexes, FindBlock, RemoveAt, Toggling;
      var k := FindBlock(blocks, id);
      FoundIffIndexed(blocks, registry, id);
      StillOnce(blocks, k);
      if k == |blocks| {
        assert registry - {id} == registry;
        return false;
      }
      RemoveIndexes(blocks, registry, k);
      blocks := RemoveAt(blocks, k);
      registry := registry - {id};
      selection.ToggleBlock(id);
      UpdateBlockPositions();
      return true;
    }

    /** A found block leaves the list and the index; its id is toggled in the selection. */
    method RemoveBlock(id: string) returns (removed: bool)
      requires Valid()
      modifies this, selection, kids.Keys`position
      ensures Valid() && kids == old(kids) && focus == old(focus)
      ensures removed <==> id in old(registry)
      ensures blocks == (if removed then RemoveAt(old(blocks), FindBlock(old(blocks), id)) else old(blocks))
      ensures removed ==> TakenOut(old(blocks), old(registry)[id], blocks)
      ensures registry == old(registry) - {id}
      ensures forest == Step(old(forest), Remove(id))
      ensures selection.View() == if removed then Toggling(old(selection.View()), id) else old(selection.View())
    {
      hide Matches, Indexes, Step, FindBlock, RemoveAt, Toggling, TakenOut;
      RemoveMatches(blocks, forest, kids, id);
      FoundIffIndexed(blocks, registry, id);
      ListedOnce(blocks, forest, kids);
      if id in registry {
        FoundAt(blocks, registry, id);
        Removed(blocks, FindBlock(blocks, id));
      }
      removed := EraseBlock(id);
      forest := Step(forest, Remove(id));
    }

    /** The part of a move that does not look at child lists. */
    method ShiftBlock(k: nat, index: nat)
      requires k < |blocks| && index < |blocks|
      requires var next := MoveTo(blocks, k, index);
        (forall b | b in next :: b in kids) && forall i, j | 0 <= i < j < |next| :: next[i] != next[j]
      modifies this`blocks, kids.Keys`position
      ensures blocks == MoveTo(old(blocks), k, index) && Positioned()
    {
      var block := blocks[k];
      blocks := RemoveAt(blocks, k);
      blocks := InsertAt(blocks, index, block);
      hide RemoveAt, InsertAt, MoveTo;
      UpdateBlockPositions();
    }

    /** The move happens when the block is listed and the index is in range. */
    method MoveBlock(id: string, index: nat) returns (moved: bool)
      requires Valid()
      modifies this, kids.Keys`position
      ensures Valid() && kids == old(kids) && focus == old(focus) && registry == old(registry)
      ensures moved <==> id in registry && index < |old(blocks)|
      ensures blocks == (if moved then MoveTo(old(blocks), FindBlock(old(blocks), id), index) else old(blocks))
      ensures moved ==> MovedThere(old(blocks), registry[id], index, blocks)
      ensures forest == Step(old(forest), Move(id, index))
    {
      hide Matches, Indexes, Step, FindBlock, MoveTo, MovedThere;
      var k := FindBlock(blocks, id);
      FoundIffIndexed(blocks, registry, id);
      MoveMatches(blocks, forest, kids, id, index);
      if k < |blocks| && index < |blocks| {
        FoundAt(blocks, registry, id);
        Moved(blocks, k, index);
        MoveIndexes(blocks, registry, k, index);
        ListedOnce(MoveTo(blocks, k, index), Step(forest, Move(id, index)), kids);
        ShiftBlock(k, index);
        forest := Step(forest, Move(id, index));
        return true;
      }
      return false;
    }

    /** Nesting first hands the block to the target's child list, then takes it out of
        the list, the index and (by toggling) the selection. */
    method DropInside(id: string, target: string)
      requires Valid() && id in registry && target in registry
      modifies this, selection, kids.Keys
      ensures Valid() && focus == old(focus)
      ensures registry == old(registry) - {id}
      ensures blocks == AfterDrop(old(blocks), id, target, Inside)
      ensures forest == Step(old(forest), Drop(id, target, Inside))
      ensures kids == old(kids)[old(registry)[target] := old(registry[target].children) + [old(registry)[id]]]
      ensures selection.View() == Toggling(old(selection.View()), id)
    {
      hide Indexes, Matches, Step, AfterDrop, RemoveAt, FindBlock, Toggling;
      FoundAt(blocks, registry, id);
      FoundAt(blocks, registry, target);
      ListedOnce(blocks, forest, kids);
      NestStep(blocks, forest, kids, id, target);
      var block, holder := registry[id], registry[target];
      holder.children := holder.children + [block];
      kids := kids[holder := holder.children];
      forest := Step(forest, Drop(id, target, Inside));
      var removed := EraseBlock(id);
    }

    /** The last step of a drop that is a move: the index is lowered if the block stood before it. */
    method MoveLowered(id: string, b: nat, newIndex: nat) returns (moved: bool)
      requires Valid()
      modifies this, kids.Keys`position
      ensures Valid() && kids == old(kids) && focus == old(focus) && registry == old(registry)
      ensures var index := if b < newIndex then newIndex - 1 else newIndex;
        && moved == (id in registry && index < |old(blocks)|)
        && blocks == (if moved then MoveTo(old(blocks), FindBlock(old(blocks), id), index) else old(blocks))
        && forest == Step(old(forest), Move(id, index))
    {
      hide Matches, Indexes, Step, MoveTo, FindBlock;
      if b < newIndex {
        moved := MoveBlock(id, newIndex - 1);
      } else {
        moved := MoveBlock(id, newIndex);
      }
    }

    /** A replacing drop first removes the target. */
    method DropReplacing(id: string, target: string, b: nat, t: nat)
      requires Valid() && id in registry && target in registry
      requires b == FindBlock(blocks, id) && t == FindBlock(blocks, target)
      modifies this, selection, kids.Keys
      ensures Valid() && focus == old(focus) && kids == old(kids)
      ensures blocks == AfterDrop(old(blocks), id, target, Replace)
      ensures forest == Step(old(forest), Drop(id, target, Replace))
      ensures registry == old(registry) - {target}
      ensures selection.View() == Toggling(old(selection.View()), target)
    {
      hide Matches, Indexes, Step, AfterDrop, MoveTo, RemoveAt, FindBlock, Toggling;
      FoundIffIndexed(blocks, registry, id);
      FoundIffIndexed(blocks, registry, target);
      ReplaceByMove(blocks, forest, kids, id, target);
      var removed := RemoveBlock(target);
      FoundIffIndexed(blocks, registry, id);
      var moved := MoveLowered(id, b, t);
    }

    /** `handle_block_drop`: look both blocks up, compute the new index, move.  A
        replacing drop first removes the target; unknown ids and other zones do nothing. */
    method HandleBlockDrop(id: string, target: string, kind: ZoneKind)
      requires Valid()
      modifies this, selection, kids.Keys
      ensures Valid() && focus == old(focus)
      ensures blocks == AfterDrop(old(blocks), id, target, kind)
      ensures DropShows(old(blocks), old(registry), id, target, kind, blocks)
      ensures forest == Step(old(forest), Drop(id, target, kind))
      ensures var gone := if id !in old(registry) || target !in old(registry) then {}
                          else if kind == Inside then {id} else if kind == Replace then {target} else {};
        && registry == old(registry) - gone
        && selection.View() == (if gone == {} then old(selection.View())
                                else Toggling(old(selection.View()), if kind == Inside then id else target))
      ensures kids == if kind == Inside && id in old(registry) && target in old(registry)
                      then old(kids)[old(registry)[target] := old(registry[target].children) + [old(registry)[id]]]
                      else old(kids)
    {
      hide Matches, Indexes, Step, AfterDrop, MoveTo, RemoveAt, FindBlock, Toggling, DropShows;
      assert registry - {} == registry;
      AfterDropShows(blocks, registry, id, target, kind);
      FoundIffIndexed(blocks, registry, id);
      FoundIffIndexed(blocks, registry, target);
      IdleDrop(blocks, forest, kids, id, target, kind);
      if id !in registry || target !in registry {
        return;
      }
      var b := FindBlock(blocks, id);
      var t := FindBlock(blocks, target);
      var newIndex := t;
      match kind {
        case Before =>
        case After =>
          newIndex := t + 1;
        case Inside =>
          DropInside(id, target);
          return;
        case Replace =>
          DropReplacing(id, target, b, t);
          return;
        case Other =>
          return;
      }
      DropByMove(blocks, forest, kids, id, target, kind);
      var moved := MoveLowered(id, b, newIndex);
    }

    /** Ctrl+A: every listed block is selected, the last of them as the primary one. */
    method SelectAll()
      requires Valid()
      modifies selection
      ensures Valid()
      ensures selection.View() ==
        Choices(old(selection.selected) + registry.Keys, old(selection.multiSelect),
                if blocks == [] then old(selection.primary) else blocks[|blocks| - 1].id)
    {
      hide Matches, Indexes, FindBlock;
      ListedIds(blocks, registry);
      var i := 0;
      while i < |blocks|
        invariant 0 <= i <= |blocks|
        invariant selection.View() ==
          Choices(old(selection.selected) + set j | 0 <= j < i :: blocks[j].id, old(selection.multiSelect),
                  if i == 0 then old(selection.primary) else blocks[i - 1].id)
      {
        selection.SelectBlock(blocks[i].id, true);
        i := i + 1;
      }
    }

    /** Delete: removes every selected block, in whatever order the selection lists
        them; exactly the unselected blocks stay, in order, and nothing is selected. */
    method DeleteSelected()
      requires Valid()
      modifies this, selection, kids.Keys`position
      ensures Valid() && kids == old(kids) && focus == old(focus)
      ensures blocks == Keep(old(blocks), old(selection.selected))
      ensures registry == old(registry) - old(selection.selected)
      ensures selection.View() == Choices({}, old(selection.multiSelect), "")
    {
      hide Matches, Indexes, Step, FindBlock, RemoveAt, Keep;
      var todo := selection.selected;
      ghost var chosen, before := todo, blocks;
      assert chosen - todo == {};
      KeepAll(blocks);
      while todo != {}
        invariant Valid() && kids == old(kids) && focus == old(focus) && todo <= chosen
        invariant selection.multiSelect == old(selection.multiSelect)
        invariant blocks == Keep(before, chosen - todo) && registry == old(registry) - (chosen - todo)
        decreases todo
      {
        var id :| id in todo;
        FoundIffIndexed(blocks, registry, id);
        ListedOnce(blocks, forest, kids);
        KeepOneFewer(blocks, id);
        KeepTwice(before, chosen - todo, id);
        var removed := RemoveBlock(id);
        assert chosen - (todo - {id}) == (chosen - todo) + {id};
        todo := todo - {id};
      }
      assert chosen - todo == chosen;
      selection.ClearSelection();
    }

    /** Arrow keys: the focus moves to the neighbour, which becomes the selection. */
    method NavigateBlocks(direction: int)
      requires Valid()
      modifies this`focus, selection
      ensures Valid()
      ensures var k := FindBlock(blocks, old(focus));
        var j := if direction > 0 then k + 1 else if direction < 0 then k - 1 else k;
        if old(focus) != "" && k < |blocks| && 0 <= j < |blocks| && j != k
        then focus == blocks[j].id && selection.View() == Selecting(old(selection.View()), focus, false)
        else focus == old(focus) && selection.View() == old(selection.View())
    {
      hide Matches, Indexes, FindBlock;
      if focus == "" || |blocks| == 0 {
        return;
      }
      var current := FindBlock(blocks, focus);
      if current < |blocks| {
        var next := current;
        if direction > 0 && current < |blocks| - 1 {
          next := current + 1;
        } else if direction < 0 && current > 0 {
          next := current - 1;
        }
        if next != current && next < |blocks| {
          focus := blocks[next].id;
          selection.SelectBlock(focus, false);
        }
      }
    }
  }

  /** `end_drag` with the callback the editor installs: a drop that succeeds is handed to the editor. */
  method EndDrag(manager: DragDropManager, editor: BlockEditor) returns (success: bool)
    requires manager.Valid() && editor.Valid()
    modifies manager, editor, editor.selection, editor.kids.Keys
    ensures manager.Valid() && !manager.dragging && editor.Valid()
    ensures var zones, k := old(manager.zones), FindZone(old(manager.zones), old(manager.current));
      && (success <==> old(manager.dragging) && old(manager.current) != "" && k < |zones| && zones[k].valid)
      && editor.forest ==
         (if success then Step(old(editor.forest), Drop(old(manager.block), zones[k].target, zones[k].kind))
          else old(editor.forest))
      && editor.blocks ==
         (if success then AfterDrop(old(editor.blocks), old(manager.block), zones[k].target, zones[k].kind)
          else old(editor.blocks))
  {
    hide FindZone, Step, AfterDrop, Matches, Indexes;
    var drop;
    success, drop := manager.EndDrag();
    if success {
      editor.HandleBlockDrop(drop.block, drop.target, drop.kind);
    }
  }

  /** The pointer's last move and the release, together: the dragged block is dropped on the target
      of the first of the nearest zones that cover the pointer, if that zone is valid, and otherwise
      nothing moves. */
  method Release(manager: DragDropManager, editor: BlockEditor, at: Point) returns (success: bool)
    requires manager.Valid() && manager.dragging && ProperIds(manager.zones) && editor.Valid()
    modifies manager, editor, editor.selection, editor.kids.Keys
    ensures manager.Valid() && !manager.dragging && editor.Valid()
    ensures forall i | 0 <= i < |old(manager.zones)| && FirstNearest(old(manager.zones), |old(manager.zones)|, at, i) ::
      var zone := old(manager.zones)[i];
      && success == zone.valid
      && editor.forest == (if success then Step(old(editor.forest), Drop(old(manager.block), zone.target, zone.kind))
                           else old(editor.forest))
      && editor.blocks == (if success then AfterDrop(old(editor.blocks), old(manager.block), zone.target, zone.kind)
                           else old(editor.blocks))
    ensures (forall i | 0 <= i < |old(manager.zones)| :: !Covers(old(manager.zones)[i], at)) ==>
      !success && editor.forest == old(editor.forest) && editor.blocks == old(editor.blocks)
  {
    hide FindZone, Step, AfterDrop, Matches, Indexes, FirstNearest, Covers, Marked, ChosenId, ProperIds;
    ghost var zones := manager.zones;
    manager.UpdateDrag(at);
    success := EndDrag(manager, editor);
    forall i | 0 <= i < |zones| && FirstNearest(zones, |zones|, at, i)
      ensures ChosenId(zones, |zones|, at) != ""
          && FindZone(Marked(zones, |zones|, at), ChosenId(zones, |zones|, at)) == i
      ensures var now := Marked(zones, |zones|, at);
        i < |now| && now[i].valid == zones[i].valid && now[i].target == zones[i].target && now[i].kind == zones[i].kind
    {
      MarkedZone(zones, at, i);
    }
    NothingChosen(zones, at);
  }

  lemma NothingChosen(zones: seq<Zone>, at: Point)
    ensures (forall i | 0 <= i < |zones| :: !Covers(zones[i], at)) ==> ChosenId(zones, |zones|, at) == ""
  {
    hide Covers, FirstNearest;
  }

  /** The blocks whose ids are not in `gone`, in order. */
  function Keep(blocks: seq<Block>, gone: set<string>): seq<Block> {
    if blocks == [] then []
    else if blocks[0].id in gone then Keep(blocks[1..], gone)
    else [blocks[0]] + Keep(blocks[1..], gone)
  }

  lemma {:induction false} KeepAll(blocks: seq<Block>)
    ensures Keep(blocks, {}) == blocks
  {
    if blocks != [] {
      KeepAll(blocks[1..]);
    }
  }

  lemma {:induction false} KeepTwice(blocks: seq<Block>, gone: set<string>, id: string)
    ensures Keep(Keep(blocks, gone), {id}) == Keep(blocks, gone + {id})
  {
    if blocks != [] {
      KeepTwice(blocks[1..], gone, id);
      var rest := Keep(blocks[1..], gone);
      assert ([blocks[0]] + rest)[1..] == rest;
    }
  }

  lemma {:induction false} KeepNone(blocks: seq<Block>, id: string)
    requires forall i | 0 <= i < |blocks| :: blocks[i].id != id
    ensures Keep(blocks, {id}) == blocks
  {
    if blocks != [] {
      KeepNone(blocks[1..], id);
    }
  }

  lemma {:induction false} KeepOneFewer(blocks: seq<Block>, id: string)
    requires forall i, j | 0 <= i < j < |blocks| :: blocks[i].id != blocks[j].id
    ensures var k := FindBlock(blocks, id);
      Keep(blocks, {id}) == if k < |blocks| then RemoveAt(blocks, k) else blocks
  {
    if blocks != [] {
      var first, rest := blocks[0], blocks[1..];
      assert blocks == [first] + rest;
      FindInCons(first, rest, id);
      if first.id == id {
        KeepNone(rest, id);
      } else {
        KeepOneFewer(rest, id);
      }
    }
  }

  lemma FindInCons(first: Block, rest: seq<Block>, id: string)
    ensures var k, j := FindBlock([first] + rest, id), FindBlock(rest, id);
      if first.id == id then k == 0 && RemoveAt([first] + rest, k) == rest
      else k == j + 1 && (j < |rest| ==> RemoveAt([first] + rest, k) == [first] + RemoveAt(rest, j))
  {
    assert ([first] + rest)[1..] == rest;
  }

  /** What the list looks like after a drop, told by ids and neighbours. */
  ghost predicate DropShows(before: seq<Block>, registry: map<string, Block>, id: string, target: string,
      kind: ZoneKind, after: seq<Block>)
  {
    if id !in registry || target !in registry then after == before
    else if id != target then Landed(before, registry[id], registry[target], kind, after)
    else if kind == Inside || kind == Replace then TakenOut(before, registry[id], after)
    else after == before
  }

  lemma AfterDropShows(blocks: seq<Block>, registry: map<string, Block>, id: string, target: string, kind: ZoneKind)
    requires Indexes(registry, blocks)
    ensures DropShows(blocks, registry, id, target, kind, AfterDrop(blocks, id, target, kind))
  {
    hide Indexes, FindBlock, DropAt, RemoveAt, Landed, TakenOut;
    FoundIffIndexed(blocks, registry, id);
    FoundIffIndexed(blocks, registry, target);
    if id in registry && target in registry {
      FoundAt(blocks, registry, id);
      FoundAt(blocks, registry, target);
      var b, t := FindBlock(blocks, id), FindBlock(blocks, target);
      Removed(blocks, b);
      if id != target {
        IdsAt(blocks, id, target);
        DropLands(blocks, b, t, kind);
      }
    }
  }

  lemma IdsAt(blocks: seq<Block>, id: string, target: string)
    requires FindBlock(blocks, id) < |blocks| && FindBlock(blocks, target) < |blocks| && id != target
    ensures FindBlock(blocks, id) != FindBlock(blocks, target)
  {
  }

  /** The drops that change nothing. */
  lemma IdleDrop(blocks: seq<Block>, forest: seq<Tree>, kids: map<Block, seq<Block>>, id: string, target: string,
      kind: ZoneKind)
    requires Matches(blocks, forest, kids)
    ensures FindBlock(blocks, id) == |blocks| || FindBlock(blocks, target) == |blocks| || kind == Other ==>
      AfterDrop(blocks, id, target, kind) == blocks && Step(forest, Drop(id, target, kind)) == forest
  {
    Located(blocks, forest, kids, id);
    Located(blocks, forest, kids, target);
  }

  /** A before or after drop is one move. */
  lemma DropByMove(blocks: seq<Block>, forest: seq<Tree>, kids: map<Block, seq<Block>>, id: string, target: string,
      kind: ZoneKind)
    requires Matches(blocks, forest, kids) && (kind == Before || kind == After)
    requires FindBlock(blocks, id) < |blocks| && FindBlock(blocks, target) < |blocks|
    ensures var b, t := FindBlock(blocks, id), FindBlock(blocks, target);
      var index := NewIndex(b, t, kind);
      && index < |blocks|
      && MoveTo(blocks, b, index) == AfterDrop(blocks, id, target, kind)
      && Step(forest, Move(id, index)) == Step(forest, Drop(id, target, kind))
  {
    hide Spells, MoveTo, DropAt, FindBlock, Distinct, NewIndex;
    Located(blocks, forest, kids, id);
    Located(blocks, forest, kids, target);
    var b, t := FindBlock(blocks, id), FindBlock(blocks, target);
    if b == t {
      DropOnItself(blocks, b, kind);
      DropOnItself(forest, b, kind);
    } else {
      MoveIsDrop(blocks, b, t, kind, blocks[t]);
      MoveIsDrop(forest, b, t, kind, Nested(forest[t], forest[b]));
    }
  }

  lemma FindAfterRemove(blocks: seq<Block>, b: nat, t: nat)
    requires b < |blocks| && t < |blocks|
    requires forall i, j | 0 <= i < j < |blocks| :: blocks[i].id != blocks[j].id
    ensures FindBlock(RemoveAt(blocks, t), blocks[b].id) == if b == t then |blocks| - 1 else IndexWithout(t, b)
  {
    var rest, id := RemoveAt(blocks, t), blocks[b].id;
    forall i | 0 <= i < |rest| ensures rest[i] == blocks[if i < t then i else i + 1] {
    }
    var k := FindBlock(rest, id);
    if b != t {
      assert rest[IndexWithout(t, b)].id == id;
    }
  }

  /** A replacing drop is a removal followed by one move. */
  lemma ReplaceByMove(blocks: seq<Block>, forest: seq<Tree>, kids: map<Block, seq<Block>>, id: string, target: string)
    requires Matches(blocks, forest, kids)
    requires FindBlock(blocks, id) < |blocks| && FindBlock(blocks, target) < |blocks|
    ensures var b, t := FindBlock(blocks, id), FindBlock(blocks, target);
      var rest, index := RemoveAt(blocks, t), NewIndex(b, t, Replace);
      && (if FindBlock(rest, id) < |rest|
          then index < |rest| && MoveTo(rest, FindBlock(rest, id), index) == AfterDrop(blocks, id, target, Replace)
          else rest == AfterDrop(blocks, id, target, Replace))
      && Step(Step(forest, Remove(target)), Move(id, index)) == Step(forest, Drop(id, target, Replace))
  {
    hide Matches, MoveTo, DropAt, FindBlock, NewIndex, RemoveAt;
    var b, t := FindBlock(blocks, id), FindBlock(blocks, target);
    var rest, trees := RemoveAt(blocks, t), Step(forest, Remove(target));
    ListedOnce(blocks, forest, kids);
    Located(blocks, forest, kids, id);
    Located(blocks, forest, kids, target);
    LengthsAgree(blocks, forest, kids);
    RemoveMatches(blocks, forest, kids, target);
    Located(rest, trees, kids, id);
    LengthsAgree(rest, trees, kids);
    FindAfterRemove(blocks, b, t);
    RemovedLength(blocks, t);
    if b != t {
      ReplaceIsDrop(blocks, b, t, blocks[t]);
      ReplaceIsDrop(forest, b, t, Nested(forest[t], forest[b]));
    }
  }

  lemma RemovedLength(blocks: seq<Block>, t: nat)
    requires t < |blocks|
    ensures |RemoveAt(blocks, t)| == |blocks| - 1
  {
  }

  /** The whole inside drop, on values. */
  lemma NestStep(blocks: seq<Block>, forest: seq<Tree>, kids: map<Block, seq<Block>>, id: string, target: string)
    requires Matches(blocks, forest, kids) && FindBlock(blocks, id) < |blocks| && FindBlock(blocks, target) < |blocks|
    requires blocks[FindBlock(blocks, target)] in kids
    ensures var b, holder := FindBlock(blocks, id), blocks[FindBlock(blocks, target)];
      && AfterDrop(blocks, id, target, Inside) == RemoveAt(blocks, b)
      && Matches(RemoveAt(blocks, b), Step(forest, Drop(id, target, Inside)),
          kids[holder := kids[holder] + [blocks[b]]])
  {
    hide Matches, Spells, RemoveAt, DropAt, FindBlock;
    var b, t := FindBlock(blocks, id), FindBlock(blocks, target);
    Located(blocks, forest, kids, id);
    Located(blocks, forest, kids, target);
    LengthsAgree(blocks, forest, kids);
    if b == t {
      SelfNestMatches(blocks, forest, kids, b);
    } else {
      NestMatches(blocks, forest, kids, b, t);
      InsideList(blocks, b, t);
    }
  }

  lemma InsideList<T>(s: seq<T>, b: nat, t: nat)
    requires b < |s| && t < |s| && b != t
    ensures DropAt(s, b, t, Inside, s[t]) == RemoveAt(s, b)
  {
  }

  lemma LengthsAgree(blocks: seq<Block>, forest: seq<Tree>, kids: map<Block, seq<Block>>)
    requires Matches(blocks, forest, kids)
    ensures |blocks| == |forest|
  {
  }

  lemma FoundAt(blocks: seq<Block>, registry: map<string, Block>, id: string)
    requires Indexes(registry, blocks) && id in registry
    ensures FindBlock(blocks, id) < |blocks| && blocks[FindBlock(blocks, id)] == registry[id]
  {
    FoundIffIndexed(blocks, registry, id);
    assert blocks[FindBlock(blocks, id)] in blocks;
  }
}
