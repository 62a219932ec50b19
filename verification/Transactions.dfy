/** Transactions with rollback, and the undo/redo history of the editor state.  The
    document is a table of cells; an operation is any deterministic change of it that
    may throw after a partial effect.
 */
module Transactions {

  type Doc = map<string, string>

  /** What running one operation leaves behind. */
  datatype Effect = Effect(doc: Doc, threw: bool)

  type Action = Doc -> Effect

  datatype Tx = Tx(operations: seq<Action>, undos: seq<Action>)

  /** Operations run in order until one throws. */
  function RunOps(operations: seq<Action>, d: Doc): Effect {
    if operations == [] then Effect(d, false)
    else
      var e := operations[0](d);
      if e.threw then e else RunOps(operations[1..], e.doc)
  }

  /** Rollback runs every undo, last first, and swallows what they throw. */
  function RunUndos(undos: seq<Action>, d: Doc): Doc {
    if undos == [] then d
    else RunUndos(undos[..|undos| - 1], undos[|undos| - 1](d).doc)
  }

  /** However the operations end, complete or cut short, rollback gives `d` back. */
  ghost predicate Restores(tx: Tx, d: Doc) {
    RunUndos(tx.undos, RunOps(tx.operations, d).doc) == d
  }

  ghost predicate Succeeds(tx: Tx, d: Doc) {
    !RunOps(tx.operations, d).threw
  }

  // ---------- in which order they run ----------

  /** The first part runs first; the second starts where it ended, unless it threw. */
  lemma {:induction false} OpsInOrder(a: seq<Action>, b: seq<Action>, d: Doc)
    ensures var e := RunOps(a, d); RunOps(a + b, d) == if e.threw then e else RunOps(b, e.doc)
    decreases |a|
  {
    if a == [] {
      assert a + b == b;
    } else {
      assert (a + b)[0] == a[0] && (a + b)[1..] == a[1..] + b;
      if !a[0](d).threw {
        OpsInOrder(a[1..], b, a[0](d).doc);
      }
    }
  }

  /** The last part is undone first, whatever it throws. */
  lemma {:induction false} UndosInReverse(a: seq<Action>, b: seq<Action>, d: Doc)
    ensures RunUndos(a + b, d) == RunUndos(a, RunUndos(b, d))
    decreases |b|
  {
    if b == [] {
      assert a + b == a;
    } else {
      var n := |b| - 1;
      assert (a + b)[|a + b| - 1] == b[n] && (a + b)[..|a + b| - 1] == a + b[..n];
      UndosInReverse(a, b[..n], b[n](d).doc);
    }
  }

  /** None and one of them. */
  lemma AtMostOne(action: Action, d: Doc)
    ensures RunOps([], d) == Effect(d, false) && RunOps([action], d) == action(d)
    ensures RunUndos([], d) == d && RunUndos([action], d) == action(d).doc
  {
    assert [action][1..] == [] && [action][..0] == [];
    var e := action(d);
    assert e == Effect(e.doc, e.threw);
  }

  /** With these laws a transaction built one step at a time is known: the step added last runs last
      and is undone first. */
  lemma OneMoreStep(tx: Tx, operation: Action, undo: Action, d: Doc)
    ensures var longer := Tx(tx.operations + [operation], tx.undos + [undo]);
      var e := RunOps(tx.operations, d);
      && RunOps(longer.operations, d) == (if e.threw then e else operation(e.doc))
      && RunUndos(longer.undos, d) == RunUndos(tx.undos, undo(d).doc)
  {
    hide RunOps, RunUndos;
    var e := RunOps(tx.operations, d);
    OpsInOrder(tx.operations, [operation], d);
    AtMostOne(operation, e.doc);
    UndosInReverse(tx.undos, [undo], d);
    AtMostOne(undo, d);
  }

  // ---------- undos that write back saved values ----------

  ghost predicate AgreeOutside(a: Doc, b: Doc, cells: set<string>) {
    forall k | k !in cells :: (k in a <==> k in b) && (k in a ==> a[k] == b[k])
  }

  /** `d` with the given cells as they were in `saved`. */
  ghost function WriteBack(d: Doc, saved: Doc, cells: set<string>): Doc {
    (d - cells) + map k | k in saved && k in cells :: saved[k]
  }

  ghost function Union(cells: seq<set<string>>): set<string> {
    if cells == [] then {} else Union(cells[..|cells| - 1]) + cells[|cells| - 1]
  }

  /** Operation `j` touches only the cells `cells[j]`, and undo `j` writes those cells
      back as they were in `saved`. */
  ghost predicate SavesCells(tx: Tx, saved: Doc, cells: seq<set<string>>) {
    && |tx.operations| == |tx.undos| == |cells|
    && (forall j, d | 0 <= j < |cells| :: AgreeOutside(tx.operations[j](d).doc, d, cells[j]))
    && (forall j, d | 0 <= j < |cells| :: tx.undos[j](d) == Effect(WriteBack(d, saved, cells[j]), false))
  }

  ghost predicate Saves(tx: Tx, saved: Doc) {
    exists cells :: SavesCells(tx, saved, cells)
  }

  lemma {:induction false} InUnion(cells: seq<set<string>>, j: nat)
    requires j < |cells|
    ensures cells[j] <= Union(cells)
  {
    if j < |cells| - 1 {
      InUnion(cells[..|cells| - 1], j);
    }
  }

  lemma {:induction false} OpsStayWithin(operations: seq<Action>, d: Doc, saved: Doc, cells: set<string>)
    requires forall j, x | 0 <= j < |operations| :: AgreeOutside(operations[j](x).doc, x, cells)
    requires AgreeOutside(d, saved, cells)
    ensures AgreeOutside(RunOps(operations, d).doc, saved, cells)
  {
    if operations != [] {
      var e := operations[0](d);
      assert AgreeOutside(e.doc, d, cells);
      if !e.threw {
        OpsStayWithin(operations[1..], e.doc, saved, cells);
      }
    }
  }

  ghost predicate AgreeOn(a: Doc, b: Doc, cells: set<string>) {
    forall k | k in cells :: (k in a <==> k in b) && (k in a ==> a[k] == b[k])
  }

  /** Whatever was done before, the undos leave the saved values in their cells and touch no other. */
  lemma {:induction false} UndosWriteBack(undos: seq<Action>, d: Doc, saved: Doc, cells: seq<set<string>>)
    requires |undos| == |cells|
    requires forall j, x | 0 <= j < |cells| :: undos[j](x) == Effect(WriteBack(x, saved, cells[j]), false)
    ensures AgreeOn(RunUndos(undos, d), saved, Union(cells)) && AgreeOutside(RunUndos(undos, d), d, Union(cells))
    decreases |undos|
  {
    if undos != [] {
      var n := |undos| - 1;
      var next := WriteBack(d, saved, cells[n]);
      assert undos[n](d) == Effect(next, false);
      WrittenBack(d, saved, cells[n]);
      UndosWriteBack(undos[..n], next, saved, cells[..n]);
      hide WriteBack;
    }
  }

  lemma WrittenBack(d: Doc, saved: Doc, cells: set<string>)
    ensures AgreeOn(WriteBack(d, saved, cells), saved, cells) && AgreeOutside(WriteBack(d, saved, cells), d, cells)
  {
  }

  lemma Same(a: Doc, b: Doc, cells: set<string>)
    requires AgreeOn(a, b, cells) && AgreeOutside(a, b, cells)
    ensures a == b
  {
    assert a.Keys == b.Keys;
  }

  /** What rollback leaves, however far the operations came. */
  lemma RollbackLeaves(tx: Tx, saved: Doc, cells: seq<set<string>>, d: Doc)
    requires SavesCells(tx, saved, cells)
    ensures var end := RunUndos(tx.undos, RunOps(tx.operations, d).doc);
      AgreeOn(end, saved, Union(cells)) && AgreeOutside(end, d, Union(cells))
  {
    var all := Union(cells);
    forall j, x | 0 <= j < |tx.operations| ensures AgreeOutside(tx.operations[j](x).doc, x, all) {
      InUnion(cells, j);
      assert AgreeOutside(tx.operations[j](x).doc, x, cells[j]);
    }
    OpsStayWithin(tx.operations, d, d, all);
    UndosWriteBack(tx.undos, RunOps(tx.operations, d).doc, saved, cells);
  }

  /** Rollback restores exactly the documents that agree with the saved one on the cells of the
      transaction. */
  lemma RestoresIff(tx: Tx, saved: Doc, cells: seq<set<string>>, d: Doc)
    requires SavesCells(tx, saved, cells)
    ensures Restores(tx, d) <==> AgreeOn(d, saved, Union(cells))
  {
    hide SavesCells, RunOps, RunUndos, Union;
    RollbackLeaves(tx, saved, cells, d);
    var end := RunUndos(tx.undos, RunOps(tx.operations, d).doc);
    if AgreeOn(d, saved, Union(cells)) {
      Same(end, d, Union(cells));
    }
  }

  /** Undos that write saved values back restore the document even when only some of the
      operations ran, and even if the last of them was cut short: rollback then also
      runs the undos of operations never reached. */
  lemma SavedValuesRestore(tx: Tx, d: Doc)
    requires Saves(tx, d)
    ensures Restores(tx, d)
  {
    hide SavesCells, Restores;
    var cells :| SavesCells(tx, d, cells);
    RestoresIff(tx, d, cells, d);
  }

  // ---------- the history as a state machine ----------

  datatype State = State(doc: Doc, history: seq<Tx>, applied: seq<bool>, index: nat)

  ghost predicate WellFormed(s: State) {
    |s.history| == |s.applied| && s.index <= |s.history|
  }

  /** `apply_transaction` with a transaction that is not applied yet. */
  function Apply(s: State, tx: Tx): State
    requires WellFormed(s)
  {
    var e := RunOps(tx.operations, s.doc);
    if e.threw then s.(doc := RunUndos(tx.undos, e.doc))
    else State(e.doc, s.history[..s.index] + [tx], s.applied[..s.index] + [true], s.index + 1)
  }

  function Undo(s: State): State
    requires WellFormed(s)
  {
    if s.index == 0 then s
    else
      var i := s.index - 1;
      s.(doc := RunUndos(s.history[i].undos, s.doc), applied := s.applied[i := false], index := i)
  }

  /** The outcome of the transaction's own apply is not looked at. */
  function Redo(s: State): State
    requires WellFormed(s)
  {
    if s.index == |s.history| then s
    else if s.applied[s.index] then s.(index := s.index + 1)
    else
      var tx := s.history[s.index];
      var e := RunOps(tx.operations, s.doc);
      State(if e.threw then RunUndos(tx.undos, e.doc) else e.doc,
            s.history, s.applied[s.index := !e.threw], s.index + 1)
  }

  datatype Command = DoApply(tx: Tx) | DoUndo | DoRedo

  function Step(s: State, c: Command): (next: State)
    requires WellFormed(s)
    ensures WellFormed(next)
  {
    match c
    case DoApply(tx) => Apply(s, tx)
    case DoUndo => Undo(s)
    case DoRedo => Redo(s)
  }

  function Run(s: State, commands: seq<Command>): (end: State)
    requires WellFormed(s)
    ensures WellFormed(end)
    decreases |commands|
  {
    if commands == [] then s else Run(Step(s, commands[0]), commands[1..])
  }

  /** The initial document with these transactions replayed. */
  function Replay(base: Doc, txs: seq<Tx>): Doc {
    if txs == [] then base
    else RunOps(txs[|txs| - 1].operations, Replay(base, txs[..|txs| - 1])).doc
  }

  /** Every transaction of the history succeeds, and can be rolled back, where it stands. */
  ghost predicate Replayable(base: Doc, txs: seq<Tx>) {
    forall j | 0 <= j < |txs| :: Succeeds(txs[j], Replay(base, txs[..j])) && Restores(txs[j], Replay(base, txs[..j]))
  }

  /** The document is the initial one with exactly the history before the index
      replayed, and exactly those transactions are flagged as applied. */
  ghost predicate Consistent(base: Doc, s: State) {
    && WellFormed(s)
    && s.doc == Replay(base, s.history[..s.index])
    && (forall j | 0 <= j < |s.history| :: s.applied[j] <==> j < s.index)
    && Replayable(base, s.history)
  }

  /** A history is replayed from its first transaction on. */
  lemma ReplayInOrder(base: Doc, txs: seq<Tx>, tx: Tx)
    ensures Replay(base, []) == base
    ensures Replay(base, txs + [tx]) == RunOps(tx.operations, Replay(base, txs)).doc
  {
    assert (txs + [tx])[..|txs|] == txs;
  }

  lemma ReplayNext(base: Doc, txs: seq<Tx>, j: nat)
    requires j < |txs|
    ensures Replay(base, txs[..j + 1]) == RunOps(txs[j].operations, Replay(base, txs[..j])).doc
  {
    assert txs[..j + 1][..j] == txs[..j];
  }

  lemma ReplayablePrefix(base: Doc, txs: seq<Tx>, n: nat, tx: Tx)
    requires n <= |txs| && Replayable(base, txs)
    requires Succeeds(tx, Replay(base, txs[..n])) && Restores(tx, Replay(base, txs[..n]))
    ensures Replayable(base, txs[..n] + [tx])
  {
    var next := txs[..n] + [tx];
    forall j | 0 <= j < |next|
      ensures Succeeds(next[j], Replay(base, next[..j])) && Restores(next[j], Replay(base, next[..j]))
    {
      assert next[..j] == txs[..j];
    }
  }

  /** A transaction one of whose operations throws leaves document, history and index exactly as
      they were if and only if the values it saved are those the document has. */
  lemma FailureIsAtomicIff(s: State, tx: Tx, saved: Doc, cells: seq<set<string>>)
    requires WellFormed(s) && SavesCells(tx, saved, cells) && !Succeeds(tx, s.doc)
    ensures Apply(s, tx) == s <==> AgreeOn(s.doc, saved, Union(cells))
  {
    hide SavesCells, AgreeOn, RunOps, RunUndos, Union;
    RestoresIff(tx, saved, cells, s.doc);
  }

  /** So it does when it was built on that document. */
  lemma FailureIsAtomic(s: State, tx: Tx)
    requires WellFormed(s) && Saves(tx, s.doc) && !Succeeds(tx, s.doc)
    ensures Apply(s, tx) == s
  {
    hide Saves, RunOps, RunUndos;
    SavedValuesRestore(tx, s.doc);
  }

  lemma ApplyConsistent(base: Doc, s: State, tx: Tx)
    requires Consistent(base, s) && Restores(tx, s.doc)
    ensures Consistent(base, Apply(s, tx))
  {
    hide Replay, RunOps, RunUndos, Replayable;
    if Succeeds(tx, s.doc) {
      SuccessConsistent(base, s, tx);
    }
  }

  lemma SuccessConsistent(base: Doc, s: State, tx: Tx)
    requires Consistent(base, s) && Restores(tx, s.doc) && Succeeds(tx, s.doc)
    ensures Consistent(base, Apply(s, tx))
  {
    hide Replay, RunOps, RunUndos, Restores, Replayable;
    var next := Apply(s, tx);
    ReplayablePrefix(base, s.history, s.index, tx);
    ReplayNext(base, next.history, s.index);
    assert next.history[..s.index] == s.history[..s.index];
    assert next.history[..s.index + 1] == next.history;
  }

  lemma UndoConsistent(base: Doc, s: State)
    requires Consistent(base, s)
    ensures Consistent(base, Undo(s))
    ensures s.index > 0 ==> Redo(Undo(s)) == s
  {
    if s.index > 0 {
      ReplayNext(base, s.history, s.index - 1);
      assert Undo(s).applied[s.index - 1 := true] == s.applied;
    }
  }

  lemma RedoConsistent(base: Doc, s: State)
    requires Consistent(base, s)
    ensures Consistent(base, Redo(s))
    ensures s.index < |s.history| ==> Undo(Redo(s)) == s
  {
    if s.index < |s.history| {
      ReplayNext(base, s.history, s.index);
      assert Redo(s).applied[s.index := false] == s.applied;
    }
  }

  /** Each applied transaction, throwing or not, has undos that write back the values
      the cells had when it was built on the document of that moment. */
  ghost predicate Admissible(s: State, commands: seq<Command>)
    requires WellFormed(s)
    decreases |commands|
  {
    commands != [] ==>
      && (commands[0].DoApply? ==> Saves(commands[0].tx, s.doc))
      && Admissible(Step(s, commands[0]), commands[1..])
  }

  lemma StepConsistent(base: Doc, s: State, c: Command)
    requires Consistent(base, s) && (c.DoApply? ==> Saves(c.tx, s.doc))
    ensures Consistent(base, Step(s, c))
  {
    hide Saves, Restores, Replay, Apply, Undo, Redo, Replayable;
    match c
    case DoApply(tx) =>
      SavedValuesRestore(tx, s.doc);
      ApplyConsistent(base, s, tx);
    case DoUndo => UndoConsistent(base, s);
    case DoRedo => RedoConsistent(base, s);
  }

  /** After any mix of apply, undo and redo: the document is the initial one with the
      history before the index replayed, and the flags say the same. */
  lemma {:induction false} RunsStayConsistent(base: Doc, s: State, commands: seq<Command>)
    requires WellFormed(s) && Consistent(base, s) && Admissible(s, commands)
    ensures Consistent(base, Run(s, commands))
    decreases |commands|
  {
    hide Consistent, Step, Saves;
    if commands != [] {
      StepConsistent(base, s, commands[0]);
      RunsStayConsistent(base, Step(s, commands[0]), commands[1..]);
    }
  }

  lemma FreshStateConsistent(base: Doc)
    ensures Consistent(base, State(base, [], [], 0))
  {
    var none: seq<Tx> := [];
    assert none[..0] == none;
  }

  /** From the empty history on: after any run the document is the first one with the history
      before the index replayed, and exactly those transactions are flagged. */
  lemma HistoryRuns(base: Doc, commands: seq<Command>)
    requires Admissible(State(base, [], [], 0), commands)
    ensures Consistent(base, Run(State(base, [], [], 0), commands))
  {
    hide Consistent, Admissible, Run;
    FreshStateConsistent(base);
    RunsStayConsistent(base, State(base, [], [], 0), commands);
  }

  function Undos(s: State, k: nat): (end: State)
    requires WellFormed(s)
    ensures WellFormed(end)
    decreases k
  {
    if k == 0 then s else Undos(Undo(s), k - 1)
  }

  function Redos(s: State, k: nat): (end: State)
    requires WellFormed(s)
    ensures WellFormed(end)
    decreases k
  {
    if k == 0 then s else Redo(Redos(s, k - 1))
  }

  /** k undos, then k redos, change nothing. */
  lemma {:induction false} UndosThenRedos(base: Doc, s: State, k: nat)
    requires Consistent(base, s) && k <= s.index
    ensures Redos(Undos(s, k), k) == s
    decreases k
  {
    if k > 0 {
      UndoConsistent(base, s);
      var u := Undo(s);
      assert u.index == s.index - 1;
      hide Consistent, Undo, Redo;
      UndosThenRedos(base, u, k - 1);
      assert Redos(Undos(u, k - 1), k) == Redo(u);
    }
  }

  /** A new transaction drops exactly the redo tail. */
  lemma ApplyDropsRedoTail(base: Doc, s: State, tx: Tx)
    requires Consistent(base, s) && Saves(tx, s.doc) && Succeeds(tx, s.doc)
    ensures var next := Apply(s, tx);
      && next.history == s.history[..s.index] + [tx] && next.index == |next.history|
      && next.doc == Replay(base, next.history)
      && Undo(next) == s.(history := next.history, applied := s.applied[..s.index] + [false])
  {
    var next := Apply(s, tx);
    SavedValuesRestore(tx, s.doc);
    ApplyConsistent(base, s, tx);
    assert next.history[..next.index] == next.history;
    assert next.applied[s.index := false] == s.applied[..s.index] + [false];
  }

  /** Redo moves the index on whether or not the transaction could be applied again, so
      the flags stay in step with the index exactly when it could. */
  lemma RedoKeepsFlagsIff(s: State)
    requires WellFormed(s) && s.index < |s.history|
    requires forall j | 0 <= j < |s.history| :: s.applied[j] <==> j < s.index
    ensures var next := Redo(s);
      && next.index == s.index + 1
      && ((forall j | 0 <= j < |next.history| :: next.applied[j] <==> j < next.index)
          <==> Succeeds(s.history[s.index], s.doc))
  {
    var next := Redo(s);
    var ok := Succeeds(s.history[s.index], s.doc);
    assert !s.applied[s.index];
    forall j | 0 <= j < |next.history| ensures next.applied[j] <==> if j == s.index then ok else j < s.index {
      assert next.applied[j] == if j == s.index then ok else s.applied[j];
    }
    assert next.applied[s.index] == ok;
  }

  /** A redo that fails again leaves the document alone, if rollback restores it, and so does one that meets
      a transaction still flagged as applied. */
  lemma RedoKeepsDocument(s: State)
    requires WellFormed(s) && s.index < |s.history|
    requires s.applied[s.index] || (!Succeeds(s.history[s.index], s.doc) && Restores(s.history[s.index], s.doc))
    ensures Redo(s) == s.(index := s.index + 1)
  {
    hide RunOps, RunUndos;
    assert !s.applied[s.index] ==> s.applied[s.index := false] == s.applied;
  }

  /** For any two documents that differ there is a transaction built on the one that rollback
      does not undo on the other: it leaves a stale value. */
  lemma StaleValuesDoNotRestore(saved: Doc, d: Doc)
    requires saved != d
    ensures exists tx: Tx :: Saves(tx, saved) && !Restores(tx, d)
  {
    hide Restores, WriteBack;
    var k :| k in saved.Keys + d.Keys && !AgreeOn(d, saved, {k}) by {
      if forall k | k in saved.Keys + d.Keys :: AgreeOn(d, saved, {k}) {
        Everywhere(saved, d);
      }
    }
    var op: Action := x => Effect(x, false);
    var undo: Action := x => Effect(WriteBack(x, saved, {k}), false);
    var tx, cells := Tx([op], [undo]), [{k}];
    assert SavesCells(tx, saved, cells);
    assert cells[..0] == [] && Union(cells) == {k};
    RestoresIff(tx, saved, cells, d);
    assert Saves(tx, saved) && !Restores(tx, d);
  }

  lemma Everywhere(a: Doc, b: Doc)
    requires forall k | k in a.Keys + b.Keys :: AgreeOn(b, a, {k})
    ensures a == b
  {
    forall k ensures (k in a <==> k in b) && (k in a ==> a[k] == b[k]) {
      if k in a.Keys + b.Keys {
        assert AgreeOn(b, a, {k}) && k in {k};
      }
    }
    assert a.Keys == b.Keys;
  }

  // ---------- the objects ----------

  class Document {
    var cells: Doc

    constructor (cells: Doc)
      ensures this.cells == cells
    {
      this.cells := cells;
    }
  }

  class Transaction {
    var operations: seq<Action>
    var undos: seq<Action>
    var applied: bool

    constructor ()
      ensures operations == [] && undos == [] && !applied
    {
      operations, undos, applied := [], [], false;
    }

    function Content(): Tx
      reads this
    {
      Tx(operations, undos)
    }

    method AddOperation(operation: Action, undo: Action)
      modifies this
      ensures operations == old(operations) + [operation] && undos == old(undos) + [undo] && applied == old(applied)
    {
      operations := operations + [operation];
      undos := undos + [undo];
    }

    /** Applies an unapplied transaction; a throw triggers a full rollback. */
    method Apply(document: Document) returns (ok: bool)
      modifies this`applied, document
      ensures ok <==> !old(applied) && Succeeds(Content(), old(document.cells))
      ensures var e := RunOps(operations, old(document.cells));
        if old(applied) then document.cells == old(document.cells) && applied
        else applied == ok && document.cells == if ok then e.doc else RunUndos(undos, e.doc)
    {
      if applied {
        return false;
      }
      var i := 0;
      assert operations[0..] == operations;
      while i < |operations|
        invariant 0 <= i <= |operations|
        invariant RunOps(operations[i..], document.cells) == RunOps(operations, old(document.cells))
        invariant applied == old(applied)
      {
        var e := operations[i](document.cells);
        assert operations[i..][1..] == operations[i + 1..];
        document.cells := e.doc;
        if e.threw {
          Rollback(document);
          return false;
        }
        i := i + 1;
      }
      applied := true;
      return true;
    }

    method Rollback(document: Document)
      modifies this`applied, document
      ensures !applied && document.cells == RunUndos(undos, old(document.cells))
    {
      var i := |undos|;
      assert undos[..|undos|] == undos;
      while i > 0
        invariant 0 <= i <= |undos|
        invariant RunUndos(undos[..i], document.cells) == RunUndos(undos, old(document.cells))
      {
        i := i - 1;
        assert undos[..i + 1][..i] == undos[..i];
        document.cells := undos[i](document.cells).doc;
      }
      applied := false;
    }
  }

  class EditorState {
    const document: Document
    var history: seq<Transaction>
    var index: nat

    ghost predicate Valid()
      reads this
    {
      && index <= |history|
      && forall i, j | 0 <= i < j < |history| :: history[i] != history[j]
    }

    ghost function View(): (s: State)
      reads this, document, history
      ensures |s.history| == |s.applied| == |history|
    {
      State(document.cells,
            seq(|history|, i requires 0 <= i < |history| reads this, history => history[i].Content()),
            seq(|history|, i requires 0 <= i < |history| reads this, history => history[i].applied),
            index)
    }

    constructor (document: Document)
      ensures Valid() && this.document == document && View() == State(document.cells, [], [], 0)
    {
      this.document := document;
      history, index := [], 0;
    }

    method ApplyTransaction(transaction: Transaction) returns (ok: bool)
      requires Valid() && transaction !in history
      modifies this, document, transaction
      ensures Valid()
      ensures ok <==> !old(transaction.applied) && Succeeds(old(transaction.Content()), old(document.cells))
      ensures View() == if old(transaction.applied) then old(View()) else Apply(old(View()), old(transaction.Content()))
      ensures history == (if ok then old(history)[..old(index)] + [transaction] else old(history))
      ensures index == if ok then old(index) + 1 else old(index)
    {
      var applied := transaction.Apply(document);
      if !applied {
        return false;
      }
      if index < |history| {
        history := history[..index];
      }
      history := history + [transaction];
      index := |history|;
      return true;
    }

    method UndoLast() returns (ok: bool)
      requires Valid()
      modifies this`index, document, history
      ensures Valid() && history == old(history)
      ensures ok <==> old(index) > 0
      ensures index == old(index) - (if ok then 1 else 0)
      ensures View() == Undo(old(View()))
    {
      if index == 0 {
        return false;
      }
      index := index - 1;
      history[index].Rollback(document);
      return true;
    }

    method RedoNext() returns (ok: bool)
      requires Valid()
      modifies this`index, document, history
      ensures Valid() && history == old(history)
      ensures ok <==> old(index) < |history|
      ensures index == old(index) + (if ok then 1 else 0)
      ensures View() == Redo(old(View()))
    {
      if index >= |history| {
        return false;
      }
      var applied := history[index].Apply(document);
      index := index + 1;
      return true;
    }
  }
}
