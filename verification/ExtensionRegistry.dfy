/** The extension registry: extensions by id, the command and schema tables they fill,
    and dependencies checked at registration only.
 */
module ExtensionRegistry {

  /** A command, node schema or mark schema; only the name matters to the tables. */
  datatype Definition = Definition(name: string, body: string)

  /** `loads` is the outcome of the extension's own `load`. */
  datatype Extension = Extension(id: string, dependencies: seq<string>,
                                 commands: seq<Definition>, nodes: seq<Definition>, marks: seq<Definition>,
                                 loads: bool)

  type Table = map<string, Definition>

  // ---------- one table ----------

  function Names(defs: seq<Definition>): set<string> {
    set d | d in defs :: d.name
  }

  /** Definitions are entered one after another, a later one replacing an earlier one. */
  function Enter(table: Table, defs: seq<Definition>): Table
    decreases |defs|
  {
    if defs == [] then table else Enter(table[defs[0].name := defs[0]], defs[1..])
  }

  /** The names are erased one after another. */
  function Leave(table: Table, defs: seq<Definition>): Table
    decreases |defs|
  {
    if defs == [] then table else Leave(table - {defs[0].name}, defs[1..])
  }

  lemma {:induction false} LeaveErases(table: Table, defs: seq<Definition>)
    ensures Leave(table, defs) == table - Names(defs)
    decreases |defs|
  {
    if defs != [] {
      LeaveErases(table - {defs[0].name}, defs[1..]);
      assert Names(defs) == {defs[0].name} + Names(defs[1..]) by { NamesCons(defs); }
    }
  }

  lemma NamesCons(defs: seq<Definition>)
    requires defs != []
    ensures Names(defs) == {defs[0].name} + Names(defs[1..])
  {
    assert defs == [defs[0]] + defs[1..];
    assert defs[0] in defs;
  }

  /** The table a list of definitions makes by itself. */
  function Own(defs: seq<Definition>): (t: Table)
    ensures t.Keys == Names(defs)
  {
    if defs == [] then map[]
    else
      NamesCons(defs);
      map[defs[0].name := defs[0]] + Own(defs[1..])
  }

  lemma LaidOver(table: Table, name: string, d: Definition, more: Table)
    ensures table[name := d] + more == table + (map[name := d] + more)
  {
  }

  /** Entering lays the definitions' own table over what was there. */
  lemma {:induction false} EnterLays(table: Table, defs: seq<Definition>)
    ensures Enter(table, defs) == table + Own(defs)
    decreases |defs|
  {
    if defs != [] {
      var d := defs[0];
      EnterLays(table[d.name := d], defs[1..]);
      LaidOver(table, d.name, d, Own(defs[1..]));
    }
  }

  /** Each name the list defines has the last definition the list gives it; other names keep theirs. */
  ghost predicate LastWins(before: Table, defs: seq<Definition>, after: Table) {
    && (forall j | 0 <= j < |defs| && !DefinedIn(defs[j + 1..], defs[j].name) ::
          defs[j].name in after && after[defs[j].name] == defs[j])
    && (forall name | !DefinedIn(defs, name) :: Same(before, after, name))
  }

  /** The names the list defines are gone; other names keep their definitions. */
  ghost predicate Erased(before: Table, defs: seq<Definition>, after: Table) {
    && (forall name | DefinedIn(defs, name) :: name !in after)
    && (forall name | !DefinedIn(defs, name) :: Same(before, after, name))
  }

  ghost predicate DefinedIn(defs: seq<Definition>, name: string) {
    exists j | 0 <= j < |defs| :: defs[j].name == name
  }

  ghost predicate Same(before: Table, after: Table, name: string) {
    (name in after <==> name in before) && (name in after ==> after[name] == before[name])
  }

  lemma DefinedFirst(defs: seq<Definition>, name: string)
    requires defs != []
    ensures DefinedIn(defs, name) <==> defs[0].name == name || DefinedIn(defs[1..], name)
  {
    if DefinedIn(defs, name) && defs[0].name != name {
      var j :| 0 <= j < |defs| && defs[j].name == name;
      assert defs[1..][j - 1].name == name;
    }
    if j :| 0 <= j < |defs| - 1 && defs[1..][j].name == name {
      assert defs[j + 1].name == name;
    }
  }

  lemma {:induction false} EnterMeaning(table: Table, defs: seq<Definition>)
    ensures LastWins(table, defs, Enter(table, defs))
    decreases |defs|
  {
    hide DefinedIn;
    if defs == [] {
    } else {
      var d, rest := defs[0], defs[1..];
      EnterMeaning(table[d.name := d], rest);
      var after := Enter(table, defs);
      assert after == Enter(table[d.name := d], rest);
      hide Enter;
      forall j | 0 <= j < |defs| && !DefinedIn(defs[j + 1..], defs[j].name)
        ensures defs[j].name in after && after[defs[j].name] == defs[j]
      {
        if j > 0 {
          assert rest[j - 1] == defs[j] && rest[j..] == defs[j + 1..];
        } else {
          assert Same(table[d.name := d], after, d.name);
        }
      }
      forall name | !DefinedIn(defs, name) ensures Same(table, after, name) {
        DefinedFirst(defs, name);
        assert Same(table[d.name := d], after, name);
      }
    }
  }

  lemma {:induction false} LeaveMeaning(table: Table, defs: seq<Definition>)
    ensures Erased(table, defs, Leave(table, defs))
    decreases |defs|
  {
    hide DefinedIn;
    if defs == [] {
      forall name ensures !DefinedIn(defs, name) {
        NothingDefined(name);
      }
    } else {
      var d, rest := defs[0], defs[1..];
      LeaveMeaning(table - {d.name}, rest);
      var after := Leave(table, defs);
      assert after == Leave(table - {d.name}, rest);
      hide Leave;
      forall name ensures if DefinedIn(defs, name) then name !in after else Same(table, after, name) {
        DefinedFirst(defs, name);
        if !DefinedIn(rest, name) {
          assert Same(table - {d.name}, after, name);
        }
      }
    }
  }

  lemma NothingDefined(name: string)
    ensures !DefinedIn([], name)
  {
  }

  method EnterAll(table: Table, defs: seq<Definition>) returns (result: Table)
    ensures result == Enter(table, defs)
  {
    result := table;
    for i := 0 to |defs|
      invariant Enter(result, defs[i..]) == Enter(table, defs)
    {
      assert defs[i..][1..] == defs[i + 1..];
      result := result[defs[i].name := defs[i]];
    }
  }

  method LeaveAll(table: Table, defs: seq<Definition>) returns (result: Table)
    ensures result == Leave(table, defs)
  {
    result := table;
    for i := 0 to |defs|
      invariant Leave(result, defs[i..]) == Leave(table, defs)
    {
      assert defs[i..][1..] == defs[i + 1..];
      result := result - {defs[i].name};
    }
  }

  /** The table is the union of the tables the extensions own. */
  ghost predicate IsUnion(table: Table, owned: map<string, Table>) {
    && (forall id, name | id in owned && name in owned[id] :: name in table && table[name] == owned[id][name])
    && (forall name | name in table :: exists id | id in owned :: name in owned[id])
  }

  ghost predicate Separate(owned: map<string, Table>) {
    forall i, j, name | i in owned && j in owned && name in owned[i] && name in owned[j] :: i == j
  }

  lemma UnionGrows(table: Table, owned: map<string, Table>, id: string, own: Table)
    requires IsUnion(table, owned) && Separate(owned) && id !in owned && own.Keys !! table.Keys
    ensures IsUnion(table + own, owned[id := own]) && Separate(owned[id := own])
  {
    SeparateGrows(table, owned, id, own);
    hide Separate;
    var t, o := table + own, owned[id := own];
    forall name | name in t ensures exists i | i in o :: name in o[i] {
      if name in own {
        assert name in o[id];
      } else {
        var i :| i in owned && name in owned[i];
        assert name in o[i];
      }
    }
  }

  lemma SeparateGrows(table: Table, owned: map<string, Table>, id: string, own: Table)
    requires IsUnion(table, owned) && Separate(owned) && own.Keys !! table.Keys
    ensures Separate(owned[id := own])
  {
    var o := owned[id := own];
    assert forall i, name | i in owned && name in owned[i] :: name !in own;
    assert forall i | i in o :: o[i] == if i == id then own else owned[i];
  }

  lemma UnionShrinks(table: Table, owned: map<string, Table>, id: string)
    requires IsUnion(table, owned) && Separate(owned) && id in owned
    ensures IsUnion(table - owned[id].Keys, owned - {id}) && Separate(owned - {id})
  {
    var t, o := table - owned[id].Keys, owned - {id};
    forall name | name in t ensures exists i | i in o :: name in o[i] {
      var i :| i in owned && name in owned[i];
      assert name in o[i];
    }
  }

  lemma EnterUnion(table: Table, owned: map<string, Table>, id: string, defs: seq<Definition>)
    requires IsUnion(table, owned) && Separate(owned) && id !in owned && Names(defs) !! table.Keys
    ensures IsUnion(Enter(table, defs), owned[id := Own(defs)]) && Separate(owned[id := Own(defs)])
  {
    hide IsUnion, Separate, Enter;
    EnterLays(table, defs);
    UnionGrows(table, owned, id, Own(defs));
  }

  lemma LeaveUnion(table: Table, owned: map<string, Table>, id: string, defs: seq<Definition>)
    requires IsUnion(table, owned) && Separate(owned) && id in owned && owned[id] == Own(defs)
    ensures IsUnion(Leave(table, defs), owned - {id}) && Separate(owned - {id})
  {
    hide IsUnion, Separate, Leave;
    LeaveErases(table, defs);
    UnionShrinks(table, owned, id);
  }

  // ---------- the registry as a state machine ----------

  datatype State = State(extensions: map<string, Extension>, commands: Table, nodes: Table, marks: Table)

  const EMPTY := State(map[], map[], map[], map[])

  predicate DependenciesMet(s: State, e: Extension) {
    forall d | d in e.dependencies :: d in s.extensions
  }

  predicate Accepted(s: State, e: Extension) {
    DependenciesMet(s, e) && e.loads
  }

  function Register(s: State, e: Extension): State {
    if Accepted(s, e) then
      State(s.extensions[e.id := e], Enter(s.commands, e.commands), Enter(s.nodes, e.nodes), Enter(s.marks, e.marks))
    else s
  }

  function Unregister(s: State, id: string): State {
    if id in s.extensions then
      var e := s.extensions[id];
      State(s.extensions - {id}, Leave(s.commands, e.commands), Leave(s.nodes, e.nodes), Leave(s.marks, e.marks))
    else s
  }

  ghost predicate NewNames(s: State, e: Extension) {
    Names(e.commands) !! s.commands.Keys && Names(e.nodes) !! s.nodes.Keys && Names(e.marks) !! s.marks.Keys
  }

  lemma LeaveAfterEnter(table: Table, defs: seq<Definition>)
    ensures Leave(Enter(table, defs), defs) == table <==> Names(defs) !! table.Keys
  {
    EnterLays(table, defs);
    LeaveErases(Enter(table, defs), defs);
    hide Enter, Leave, Names;
    assert (table + Own(defs)) - Names(defs) == table - Names(defs);
    if Names(defs) !! table.Keys {
      assert table - Names(defs) == table;
    } else {
      var n :| n in Names(defs) && n in table;
      assert n !in table - Names(defs);
    }
  }

  /** Registering an accepted extension and unregistering it again restores the registry
      exactly when neither its id nor any of its names was in use. */
  lemma RegisterThenUnregisterIff(s: State, e: Extension)
    requires Accepted(s, e)
    ensures Unregister(Register(s, e), e.id) == s <==> e.id !in s.extensions && NewNames(s, e)
  {
    LeaveAfterEnter(s.commands, e.commands);
    LeaveAfterEnter(s.nodes, e.nodes);
    LeaveAfterEnter(s.marks, e.marks);
    hide Enter, Leave, Names;
    var r := Register(s, e);
    assert r.extensions[e.id] == e;
    assert e.id !in s.extensions ==> s.extensions[e.id := e] - {e.id} == s.extensions;
    assert e.id !in Unregister(r, e.id).extensions;
  }

  // ---------- dependencies ----------

  /** Every dependency of a registered extension is registered. */
  ghost predicate Closed(s: State) {
    forall id | id in s.extensions :: DependenciesMet(s, s.extensions[id])
  }

  ghost predicate NeededByOthers(s: State, id: string) {
    exists other | other in s.extensions && other != id :: id in s.extensions[other].dependencies
  }

  /** Nothing is checked at unregistration: closedness survives exactly when nothing
      else depends on the extension. */
  lemma UnregisterKeepsClosedIff(s: State, id: string)
    requires Closed(s) && id in s.extensions
    ensures Closed(Unregister(s, id)) <==> !NeededByOthers(s, id)
  {
    hide Leave;
    var next := Unregister(s, id);
    if NeededByOthers(s, id) {
      var other :| other in s.extensions && other != id && id in s.extensions[other].dependencies;
      assert other in next.extensions && !DependenciesMet(next, next.extensions[other]);
    } else {
      forall x | x in next.extensions ensures DependenciesMet(next, next.extensions[x]) {
        assert DependenciesMet(s, s.extensions[x]);
      }
    }
  }

  ghost predicate NoRepeats(ids: seq<string>) {
    ids == [] || (ids[0] !in ids[1..] && NoRepeats(ids[1..]))
  }

  lemma {:induction false} NoRepeatsAt(ids: seq<string>, i: nat, j: nat)
    requires NoRepeats(ids) && i < j < |ids|
    ensures ids[i] != ids[j]
  {
    if i == 0 {
      assert ids[1..][j - 1] == ids[j];
    } else {
      NoRepeatsAt(ids[1..], i - 1, j - 1);
    }
  }

  lemma {:induction false} NoRepeatsAppend(ids: seq<string>, id: string)
    requires NoRepeats(ids) && id !in ids
    ensures NoRepeats(ids + [id])
  {
    if ids == [] {
      assert ids + [id] == [id];
    } else {
      NoRepeatsAppend(ids[1..], id);
      assert (ids + [id])[1..] == ids[1..] + [id];
    }
  }

  /** `order` lists the registered ids once each, dependencies first. */
  ghost predicate Topological(s: State, order: seq<string>) {
    && (forall i | 0 <= i < |order| :: order[i] in s.extensions)
    && (forall id | id in s.extensions :: id in order)
    && NoRepeats(order)
    && (forall i, d | 0 <= i < |order| && d in s.extensions[order[i]].dependencies :: d in order[..i])
  }

  /** `path` follows dependencies. */
  ghost predicate Chain(s: State, path: seq<string>) {
    && (forall i | 0 <= i < |path| :: path[i] in s.extensions)
    && forall i | 0 <= i < |path| - 1 :: path[i + 1] in s.extensions[path[i]].dependencies
  }

  /** A topological order rules cycles out. */
  lemma {:induction false} NoCycles(s: State, order: seq<string>, path: seq<string>)
    requires Topological(s, order) && Chain(s, path) && |path| >= 2
    ensures path[0] != path[|path| - 1]
  {
    var at := Descends(s, order, path);
    var k :| 0 <= k < at && order[k] == path[|path| - 1];
    NoRepeatsAt(order, k, at);
  }

  lemma {:induction false} Descends(s: State, order: seq<string>, path: seq<string>) returns (at: nat)
    requires Topological(s, order) && Chain(s, path) && path != []
    ensures at < |order| && order[at] == path[0]
    ensures path[|path| - 1] in order[..at + 1]
    ensures |path| >= 2 ==> path[|path| - 1] in order[..at]
    decreases |path|
  {
    assert path[0] in s.extensions && path[0] in order;
    at :| 0 <= at < |order| && order[at] == path[0];
    if |path| >= 2 {
      var next := Descends(s, order, path[1..]);
      assert path[1] in order[..at];
      var k :| 0 <= k < at && order[k] == path[1];
      if next != k {
        NoRepeatsAt(order, if next < k then next else k, if next < k then k else next);
        assert false;
      }
    }
  }

  // ---------- runs ----------

  datatype Event = Registering(e: Extension) | Unregistering(id: string)

  function Step(s: State, event: Event): State {
    match event
    case Registering(e) => Register(s, e)
    case Unregistering(id) => Unregister(s, id)
  }

  function Run(s: State, events: seq<Event>): State
    decreases |events|
  {
    if events == [] then s else Run(Step(s, events[0]), events[1..])
  }

  function Without(order: seq<string>, id: string): (rest: seq<string>)
    ensures forall x :: x in rest <==> x in order && x != id
  {
    if order == [] then []
    else if order[0] == id then Without(order[1..], id)
    else [order[0]] + Without(order[1..], id)
  }

  /** The ids that are registered after an event, in registration order. */
  function StepOrder(order: seq<string>, s: State, event: Event): seq<string> {
    match event
    case Registering(e) => if Accepted(s, e) then order + [e.id] else order
    case Unregistering(id) => Without(order, id)
  }

  function RunOrder(order: seq<string>, s: State, events: seq<Event>): seq<string>
    decreases |events|
  {
    if events == [] then order else RunOrder(StepOrder(order, s, events[0]), Step(s, events[0]), events[1..])
  }

  /** Fresh ids and names; nothing is unregistered while another extension needs it. */
  ghost predicate Proper(s: State, event: Event) {
    match event
    case Registering(e) => e.id !in s.extensions && NewNames(s, e)
    case Unregistering(id) => !NeededByOthers(s, id)
  }

  ghost predicate ProperRun(s: State, events: seq<Event>)
    decreases |events|
  {
    events != [] ==> Proper(s, events[0]) && ProperRun(Step(s, events[0]), events[1..])
  }

  ghost function Commands(s: State): map<string, Table> {
    map id | id in s.extensions :: Own(s.extensions[id].commands)
  }

  ghost function NodeSchemas(s: State): map<string, Table> {
    map id | id in s.extensions :: Own(s.extensions[id].nodes)
  }

  ghost function MarkSchemas(s: State): map<string, Table> {
    map id | id in s.extensions :: Own(s.extensions[id].marks)
  }

  /** Each table is the union of what the registered extensions define, none of them
      defining a name of another. */
  ghost predicate TablesMirror(s: State) {
    && IsUnion(s.commands, Commands(s)) && Separate(Commands(s))
    && IsUnion(s.nodes, NodeSchemas(s)) && Separate(NodeSchemas(s))
    && IsUnion(s.marks, MarkSchemas(s)) && Separate(MarkSchemas(s))
  }

  lemma RegisterTables(s: State, e: Extension)
    requires TablesMirror(s) && Accepted(s, e) && e.id !in s.extensions && NewNames(s, e)
    ensures TablesMirror(Register(s, e))
  {
    hide IsUnion, Separate, Enter, Names, Own, Commands, NodeSchemas, MarkSchemas;
    OwnTables(s);
    EnterUnion(s.commands, Commands(s), e.id, e.commands);
    EnterUnion(s.nodes, NodeSchemas(s), e.id, e.nodes);
    EnterUnion(s.marks, MarkSchemas(s), e.id, e.marks);
    OwnTablesGrow(s, e);
  }

  lemma OwnTables(s: State)
    ensures Commands(s).Keys == NodeSchemas(s).Keys == MarkSchemas(s).Keys == s.extensions.Keys
  {
    hide Own;
  }

  lemma OwnTablesGrow(s: State, e: Extension)
    requires Accepted(s, e)
    ensures var next := Register(s, e);
      && Commands(next) == Commands(s)[e.id := Own(e.commands)]
      && NodeSchemas(next) == NodeSchemas(s)[e.id := Own(e.nodes)]
      && MarkSchemas(next) == MarkSchemas(s)[e.id := Own(e.marks)]
  {
    hide Own, Enter, Accepted, Commands, NodeSchemas, MarkSchemas;
    var next := Register(s, e);
    CommandsGrow(s, next, e);
    NodesGrow(s, next, e);
    MarksGrow(s, next, e);
  }

  lemma CommandsGrow(s: State, next: State, e: Extension)
    requires next.extensions == s.extensions[e.id := e]
    ensures Commands(next) == Commands(s)[e.id := Own(e.commands)]
  {
    hide Own;
  }

  lemma NodesGrow(s: State, next: State, e: Extension)
    requires next.extensions == s.extensions[e.id := e]
    ensures NodeSchemas(next) == NodeSchemas(s)[e.id := Own(e.nodes)]
  {
    hide Own;
  }

  lemma MarksGrow(s: State, next: State, e: Extension)
    requires next.extensions == s.extensions[e.id := e]
    ensures MarkSchemas(next) == MarkSchemas(s)[e.id := Own(e.marks)]
  {
    hide Own;
  }

  lemma UnregisterTables(s: State, id: string)
    requires TablesMirror(s) && id in s.extensions
    ensures TablesMirror(Unregister(s, id))
  {
    hide IsUnion, Separate, Leave, Names, Own;
    var next, e := Unregister(s, id), s.extensions[id];
    LeaveUnion(s.commands, Commands(s), id, e.commands);
    LeaveUnion(s.nodes, NodeSchemas(s), id, e.nodes);
    LeaveUnion(s.marks, MarkSchemas(s), id, e.marks);
    assert Commands(next) == Commands(s) - {id};
    assert NodeSchemas(next) == NodeSchemas(s) - {id};
    assert MarkSchemas(next) == MarkSchemas(s) - {id};
  }

  lemma TablesStep(s: State, event: Event)
    requires TablesMirror(s) && Proper(s, event)
    ensures TablesMirror(Step(s, event))
  {
    hide TablesMirror;
    match event
    case Registering(e) => if Accepted(s, e) { RegisterTables(s, e); }
    case Unregistering(id) => if id in s.extensions { UnregisterTables(s, id); }
  }

  lemma RegisterOrder(s: State, order: seq<string>, e: Extension)
    requires Topological(s, order) && e.id !in s.extensions && Accepted(s, e)
    ensures Topological(Register(s, e), order + [e.id])
  {
    hide Enter;
    NoRepeatsAppend(order, e.id);
    var next, longer := Register(s, e), order + [e.id];
    forall i, d | 0 <= i < |longer| && d in next.extensions[longer[i]].dependencies ensures d in longer[..i] {
      assert longer[..i] == order[..i];
      if i == |order| {
        assert order[..i] == order && d in s.extensions;
      }
    }
  }

  /** Taking one id out keeps the relative order of the rest. */
  lemma {:induction false} WithoutKeepsOrder(order: seq<string>, id: string, i: nat)
    requires i < |Without(order, id)|
    ensures exists k | 0 <= k < |order| ::
      order[k] == Without(order, id)[i] && Without(order, id)[..i] == Without(order[..k], id)
  {
    var rest := Without(order[1..], id);
    if order[0] == id {
      WithoutKeepsOrder(order[1..], id, i);
      var k :| 0 <= k < |order| - 1 && order[1..][k] == rest[i] && rest[..i] == Without(order[1..][..k], id);
      assert order[..k + 1][1..] == order[1..][..k];
      assert order[k + 1] == rest[i] && rest[..i] == Without(order[..k + 1], id);
    } else if i == 0 {
      assert order[..0] == [];
      assert order[0] == Without(order, id)[0] && Without(order, id)[..0] == Without(order[..0], id);
    } else {
      WithoutKeepsOrder(order[1..], id, i - 1);
      var k :| 0 <= k < |order| - 1 && order[1..][k] == rest[i - 1] && rest[..i - 1] == Without(order[1..][..k], id);
      assert order[..k + 1][1..] == order[1..][..k];
      assert ([order[0]] + rest)[..i] == [order[0]] + rest[..i - 1];
      assert order[k + 1] == Without(order, id)[i] && Without(order, id)[..i] == Without(order[..k + 1], id);
    }
  }

  lemma {:induction false} WithoutDistinct(order: seq<string>, id: string)
    requires NoRepeats(order)
    ensures NoRepeats(Without(order, id))
  {
    if order != [] {
      WithoutDistinct(order[1..], id);
    }
  }

  lemma UnregisterOrder(s: State, order: seq<string>, id: string)
    requires Topological(s, order) && !NeededByOthers(s, id)
    ensures Topological(Unregister(s, id), Without(order, id))
  {
    hide Leave;
    var next, rest := Unregister(s, id), Without(order, id);
    WithoutDistinct(order, id);
    forall i | 0 <= i < |rest| ensures rest[i] in order && rest[i] != id {
      assert rest[i] in rest;
    }
    forall i, d | 0 <= i < |rest| && d in next.extensions[rest[i]].dependencies ensures d in rest[..i] {
      WithoutKeepsOrder(order, id, i);
      var k :| 0 <= k < |order| && order[k] == rest[i] && rest[..i] == Without(order[..k], id);
      assert d in s.extensions[order[k]].dependencies;
    }
  }

  lemma TopologicalIsClosed(s: State, order: seq<string>)
    requires Topological(s, order)
    ensures Closed(s)
  {
    forall id, d | id in s.extensions && d in s.extensions[id].dependencies ensures d in s.extensions {
      var i :| 0 <= i < |order| && order[i] == id;
      assert d in order[..i];
    }
  }

  /** Over any proper run the registration order stays topological, so the dependency
      graph stays closed and free of cycles, and the tables mirror the extensions. */
  lemma {:induction false} RunsKeepOrderAndTables(s: State, order: seq<string>, events: seq<Event>)
    requires Topological(s, order) && TablesMirror(s) && ProperRun(s, events)
    ensures Topological(Run(s, events), RunOrder(order, s, events)) && Closed(Run(s, events))
    ensures TablesMirror(Run(s, events))
    decreases |events|
  {
    hide Topological, TablesMirror, NewNames, NeededByOthers;
    if events == [] {
      TopologicalIsClosed(s, order);
    } else {
      TablesStep(s, events[0]);
      OrderStep(s, order, events[0]);
      RunsKeepOrderAndTables(Step(s, events[0]), StepOrder(order, s, events[0]), events[1..]);
    }
  }

  lemma OrderStep(s: State, order: seq<string>, event: Event)
    requires Topological(s, order) && Proper(s, event)
    ensures Topological(Step(s, event), StepOrder(order, s, event))
  {
    match event
    case Registering(e) => if Accepted(s, e) { RegisterOrder(s, order, e); }
    case Unregistering(id) => UnregisterOrder(s, order, id);
  }

  lemma EmptyRegistry()
    ensures Topological(EMPTY, []) && TablesMirror(EMPTY)
  {
  }

  /** From the empty registry on: after any proper run the dependencies are closed, no chain of
      them returns to where it started, and the tables are the union over the extensions. */
  lemma RegistryRuns(events: seq<Event>)
    requires ProperRun(EMPTY, events)
    ensures var end := Run(EMPTY, events);
      && Topological(end, RunOrder([], EMPTY, events)) && Closed(end) && TablesMirror(end)
      && forall path | Chain(end, path) && |path| >= 2 :: path[0] != path[|path| - 1]
  {
    hide Topological, TablesMirror, ProperRun, Closed, Run, RunOrder, Chain;
    EmptyRegistry();
    RunsKeepOrderAndTables(EMPTY, [], events);
    var end := Run(EMPTY, events);
    forall path | Chain(end, path) && |path| >= 2 ensures path[0] != path[|path| - 1] {
      NoCycles(end, RunOrder([], EMPTY, events), path);
    }
  }

  // ---------- the registry object ----------

  class Registry {
    var extensions: map<string, Extension>
    var commands: Table
    var nodes: Table
    var marks: Table

    function View(): State
      reads this
    {
      State(extensions, commands, nodes, marks)
    }

    constructor ()
      ensures View() == EMPTY
    {
      extensions, commands, nodes, marks := map[], map[], map[], map[];
    }

    method CheckDependencies(e: Extension) returns (met: bool)
      ensures met <==> DependenciesMet(View(), e)
      ensures met <==> forall j | 0 <= j < |e.dependencies| :: e.dependencies[j] in extensions
    {
      for i := 0 to |e.dependencies|
        invariant forall k | 0 <= k < i :: e.dependencies[k] in extensions
      {
        if e.dependencies[i] !in extensions {
          return false;
        }
      }
      return true;
    }

    method RegisterExtension(e: Extension) returns (ok: bool)
      modifies this
      ensures ok <==> Accepted(old(View()), e)
      ensures View() == Register(old(View()), e)
      ensures ok <==> e.loads && forall j | 0 <= j < |e.dependencies| :: e.dependencies[j] in old(extensions)
      ensures if ok
        then extensions == old(extensions)[e.id := e] && LastWins(old(commands), e.commands, commands)
            && LastWins(old(nodes), e.nodes, nodes) && LastWins(old(marks), e.marks, marks)
        else View() == old(View())
    {
      hide Enter, LastWins;
      EnterMeaning(commands, e.commands);
      EnterMeaning(nodes, e.nodes);
      EnterMeaning(marks, e.marks);
      var met := CheckDependencies(e);
      if !met || !e.loads {
        return false;
      }
      commands := EnterAll(commands, e.commands);
      nodes := EnterAll(nodes, e.nodes);
      marks := EnterAll(marks, e.marks);
      extensions := extensions[e.id := e];
      return true;
    }

    method UnregisterExtension(id: string) returns (ok: bool)
      modifies this
      ensures ok <==> id in old(extensions)
      ensures View() == Unregister(old(View()), id)
      ensures if ok
        then var e := old(extensions)[id];
             extensions == old(extensions) - {id} && Erased(old(commands), e.commands, commands)
             && Erased(old(nodes), e.nodes, nodes) && Erased(old(marks), e.marks, marks)
        else View() == old(View())
    {
      hide Leave, Erased;
      if id !in extensions {
        return false;
      }
      var e := extensions[id];
      LeaveMeaning(commands, e.commands);
      LeaveMeaning(nodes, e.nodes);
      LeaveMeaning(marks, e.marks);
      commands := LeaveAll(commands, e.commands);
      nodes := LeaveAll(nodes, e.nodes);
      marks := LeaveAll(marks, e.marks);
      extensions := extensions - {id};
      return true;
    }
  }
}
